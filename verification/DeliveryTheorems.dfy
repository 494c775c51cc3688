/** What the whole relay guarantees: which stored events a subscription is sent, exactly, and how often. */
module DeliveryTheorems {
  import opened Wrappers
  import opened Nostr
  import opened Sql
  import opened FilterQuery
  import opened EventStore
  import opened StoreRuns
  import opened StoreTheorems
  import opened Delivery
  import Cluster

  // ----- lost events stay lost, streams hold stored events -----

  /** A stored event whose broadcast was dropped is neither on the wire nor waiting to be. */
  ghost predicate LostForGood(s: Relay) {
    forall e | e in s.lost && !IsEphemeral(e.kind) ::
      && Fired(s.history, e) && !EventCarried(s.net, e)
      && forall k | 0 <= k < |s.awaiting| :: s.awaiting[k].event != e
  }

  /** What a request streams, or was streamed, had been stored when its query ran. */
  ghost predicate StreamsStored(s: Relay) {
    && (forall r, e | 0 <= r < |s.requests| && s.requests[r].phase.Streaming? && e in s.requests[r].phase.queue ::
          FiredBy(s.history, s.requests[r].phase.at, e))
    && (forall x | x in s.outbox && !x.live :: StreamedStored(s, x))
  }

  ghost predicate StreamedStored(s: Relay, x: Sent) {
    && x.request < |s.requests| && s.requests[x.request].phase.Streaming?
    && FiredBy(s.history, s.requests[x.request].phase.at, x.event)
  }

  lemma FiredByGrows(h: seq<Statement>, g: seq<Statement>, n: nat, e: Event)
    requires h <= g && FiredBy(h, n, e)
    ensures FiredBy(g, n, e)
  {
    assert g[..n] == h[..n];
  }

  /** Steps that keep every phase, and send live events only, keep the streams. */
  lemma StreamsCarryOver(s: Relay, t: Relay)
    requires StreamsStored(s) && s.history <= t.history && |s.requests| <= |t.requests|
    requires forall r | 0 <= r < |s.requests| :: t.requests[r].phase == s.requests[r].phase
    requires forall r | |s.requests| <= r < |t.requests| :: t.requests[r].phase.Registered?
    requires forall x | x in t.outbox :: x in s.outbox || x.live
    ensures StreamsStored(t)
  {
    hide FiredBy;
    forall r, e | 0 <= r < |t.requests| && t.requests[r].phase.Streaming? && e in t.requests[r].phase.queue
      ensures FiredBy(t.history, t.requests[r].phase.at, e)
    {
      FiredByGrows(s.history, t.history, s.requests[r].phase.at, e);
    }
    forall x | x in t.outbox && !x.live ensures StreamedStored(t, x) {
      assert StreamedStored(s, x);
      FiredByGrows(s.history, t.history, s.requests[x.request].phase.at, x.event);
    }
  }

  lemma PublishStreams(s: Relay, conn: nat, e: Event)
    requires Cluster.Shape(s.net) && StreamsStored(s)
    ensures StreamsStored(Publish(s, conn, e))
  {
    hide Deliveries, FiredBy;
    var t := Publish(s, conn, e);
    if conn < |s.conns| && s.conns[conn].open {
      DeliveredLive(s, s.conns[conn].worker, e);
    }
    StreamsCarryOver(s, t);
  }

  lemma DeliveredLive(s: Relay, w: nat, e: Event)
    ensures forall x | x in Deliveries(s.conns, s.requests, w, e, |s.requests|) :: x.live
  {
    forall x | x in Deliveries(s.conns, s.requests, w, e, |s.requests|) ensures x.live {
      DeliveriesMean(s.conns, s.requests, w, e, |s.requests|, x);
    }
  }

  /** Every row of a reachable table rebuilds an event that a statement stored. */
  lemma {:induction false} RowWasFired(h: seq<Statement>, i: nat)
    requires History(h) && i < |StoreRuns.Run(h).events|
    ensures exists j: nat :: Fires(h, j) && RowFor(h[j]) == Undeleted(StoreRuns.Run(h).events[i])
  {
    hide StoreRuns.Inv, RowFor, History, After, Count;
    if h != [] {
      var g, c := h[..|h| - 1], h[|h| - 1];
      assert h == g + [c] && h[..|h|] == h;
      var a, b := StoreRuns.Run(g).events, StoreRuns.Run(h).events;
      LastLegal(g, c);
      Reachable(g);
      if c.Delete? {
        DeleteOnlyMarks(StoreRuns.Run(g), c);
        RowWasFired(g, i);
        FiresInPrefix(h, g, Undeleted(a[i]));
      } else {
        CountMeansNew(g, c, StoreRuns.Run(g));
        if Count(StoreRuns.Run(g), c) == 1 && b[i] == RowFor(c) {
          RowTime(c);
          assert Fires(h, |g|);
        } else {
          var k :| 0 <= k < |a| && a[k] == b[i];
          RowWasFired(g, k);
          FiresInPrefix(h, g, Undeleted(a[k]));
        }
      }
    }
  }

  lemma FiresInPrefix(h: seq<Statement>, g: seq<Statement>, r: Row)
    requires g <= h && exists j: nat :: Fires(g, j) && RowFor(g[j]) == r
    ensures exists j: nat :: Fires(h, j) && RowFor(h[j]) == r
  {
    hide StoreRuns.Run, Count, RowFor;
    var j: nat :| Fires(g, j) && RowFor(g[j]) == r;
    assert g[..j] == h[..j];
    assert Fires(h, j);
  }

  lemma RowEventWasFired(h: seq<Statement>, r: Row)
    requires History(h) && r in StoreRuns.Run(h).events
    ensures Fired(h, ToNostrEvent(r))
  {
    hide StoreRuns.Run, Count, ToNostrEvent, RowOf, ValidEvent, DedupOf;
    var rows := StoreRuns.Run(h).events;
    var i :| 0 <= i < |rows| && rows[i] == r;
    RowWasFired(h, i);
    var j: nat :| Fires(h, j) && RowFor(h[j]) == Undeleted(r);
    LegalAt(h, j);
    RowRoundTrip(h[j].event, RowFor(h[j]).dedup);
    DedupOfRow(h[j]);
    IgnoresDeleted(r);
  }

  // ----- each step keeps them -----

  ghost predicate Ends(s: Relay) {
    LostForGood(s) && StreamsStored(s)
  }

  lemma PerformEnds(s: Relay, c: Statement, conn: nat)
    requires Cluster.Shape(s.net) && Ends(s) && History(s.history + [c])
    ensures Ends(Next(s, Perform(c, conn)))
  {
    hide StoreRuns.Run, Count, History, EventCarried, Fired;
    var t := Next(s, Perform(c, conn));
    StreamsCarryOver(s, t);
    FiredGrows(s.history, c, c.event);
    forall e | e in t.lost && !IsEphemeral(e.kind)
      ensures Fired(t.history, e) && forall k | 0 <= k < |t.awaiting| :: t.awaiting[k].event != e
    {
      FiredGrows(s.history, c, e);
      assert Fired(s.history, e);
    }
  }

  lemma ResumeStreams(s: Relay, k: nat)
    requires Cluster.Shape(s.net) && StreamsStored(s) && k < |s.awaiting|
    ensures StreamsStored(Next(s, Resume(k)))
  {
    hide StreamsStored, Publish;
    var p := s.awaiting[k];
    var r := s.(awaiting := s.awaiting[..k] + s.awaiting[k + 1..]);
    AwaitingIsNotStreamed(s, r);
    PublishStreams(r, p.conn, p.event);
  }

  lemma ResumedLoses(s: Relay, k: nat, e: Event)
    requires Cluster.Shape(s.net) && k < |s.awaiting| && e in Next(s, Resume(k)).lost
    ensures e in s.lost || (e == s.awaiting[k].event && Next(s, Resume(k)).net == s.net)
  {
    hide Deliveries;
  }

  lemma ResumeLoses(s: Relay, t: Relay, k: nat)
    requires Cluster.Shape(s.net) && Tracked(s) && LostForGood(s) && k < |s.awaiting|
    requires t == Next(s, Resume(k)) && Resumed(s, t, k)
    ensures LostForGood(t)
  {
    hide Next, Fired, Carried;
    assert forall j | 0 <= j < |t.awaiting| :: t.awaiting[j] == s.awaiting[if j < k then j else j + 1];
    forall e | e in t.lost && !IsEphemeral(e.kind)
      ensures Fired(t.history, e) && !EventCarried(t.net, e)
      ensures forall j | 0 <= j < |t.awaiting| :: t.awaiting[j].event != e
    {
      ResumedLoses(s, k, e);
    }
  }

  lemma ResumeEnds(s: Relay, k: nat)
    requires Delivery.Inv(s) && Ends(s)
    ensures Ends(Next(s, Resume(k)))
  {
    hide Cluster.Flows, Cluster.Numbered, Tracked, RequestsOk, Covered, Counted, StreamsStored, LostForGood, Resumed;
    hide Publish;
    if k < |s.awaiting| {
      ResumeStreams(s, k);
      ResumeIsResumed(s, k);
      ResumeLoses(s, Next(s, Resume(k)), k);
    }
  }

  lemma AwaitingIsNotStreamed(s: Relay, t: Relay)
    requires StreamsStored(s) && t == s.(awaiting := t.awaiting)
    ensures StreamsStored(t)
  {
    hide FiredBy;
    assert forall x | x in s.outbox && !x.live :: StreamedStored(s, x);
  }

  lemma EphemeralEnds(s: Relay, e: Event, conn: nat)
    requires Delivery.Inv(s) && Ends(s)
    ensures Ends(Next(s, Step.Ephemeral(e, conn)))
  {
    hide Cluster.Flows, Cluster.Numbered, Fired, Carried, Deliveries, Covered, Counted, StreamsStored;
    if IsEphemeral(e.kind) {
      var t := Publish(s, conn, e);
      PublishStreams(s, conn, e);
      forall x | x in t.lost && !IsEphemeral(x.kind) ensures !EventCarried(t.net, x) {
        forall m | Carried(t.net, m) ensures m.event != x {
          PublishCarriesOnly(s, conn, e, m);
        }
      }
    }
  }

  /** Moving messages, connecting, and subscribing publish nothing and stream nothing. */
  lemma QuietStepsEnd(s: Relay, step: Step)
    requires Cluster.Shape(s.net) && Ends(s)
    requires !step.Perform? && !step.Resume? && !step.Ephemeral? && !step.Query? && !step.Stream?
    ensures Ends(Next(s, step))
  {
    hide Deliveries, Fired, FiredBy;
    var t := Next(s, step);
    if step.Receive? && step.worker < |s.net.down| && s.net.down[step.worker] != [] {
      DeliveredLive(s, step.worker, s.net.down[step.worker][0].event);
    }
    StreamsCarryOver(s, t);
    assert forall m :: Carried(t.net, m) <==> Carried(s.net, m);
    assert forall e :: EventCarried(t.net, e) ==> EventCarried(s.net, e);
  }

  lemma QueryEnds(s: Relay, n: nat, rows: seq<Row>)
    requires Cluster.Shape(s.net) && Ends(s) && History(s.history)
    ensures Ends(Next(s, Step.Query(n, rows)))
  {
    hide Pipeline, SelectsAny, CompileAll, StoreRuns.Run, Fired, EventCarried, History;
    var t := Next(s, Step.Query(n, rows));
    if t != s {
      var h := s.history;
      assert h[..|h|] == h;
      forall e | e in t.requests[n].phase.queue ensures FiredBy(t.history, t.requests[n].phase.at, e) {
        FromPipeline(s.requests[n].filters, rows, e);
        var r :| r in rows && ToNostrEvent(r) == e;
        RowEventWasFired(h, r);
      }
      forall x | x in t.outbox && !x.live ensures StreamedStored(t, x) {
        assert StreamedStored(s, x);
      }
    }
  }

  lemma StreamEnds(s: Relay, n: nat)
    requires Cluster.Shape(s.net) && Ends(s)
    ensures Ends(Next(s, Stream(n)))
  {
    hide FiredBy, Fired, EventCarried;
    var t := Next(s, Stream(n));
    if t != s {
      var q := s.requests[n];
      forall e | e in t.requests[n].phase.queue ensures e in q.phase.queue {
      }
      forall x | x in t.outbox && !x.live ensures StreamedStored(t, x) {
        if x in s.outbox {
          assert StreamedStored(s, x);
        }
      }
    }
  }

  lemma StepEnds(s: Relay, step: Step)
    requires Delivery.Inv(s) && Ends(s) && History(Next(s, step).history)
    ensures Ends(Next(s, step))
  {
    hide Delivery.Inv, Ends, Next, History;
    ShapeOfInv(s);
    HistoryGrows(s, step);
    match step {
      case Perform(c, conn) => PerformEnds(s, c, conn);
      case Resume(k) => ResumeEnds(s, k);
      case Ephemeral(e, conn) => EphemeralEnds(s, e, conn);
      case Query(r, rows) => QueryEnds(s, r, rows);
      case Stream(r) => StreamEnds(s, r);
      case _ => QuietStepsEnd(s, step);
    }
  }

  lemma {:induction false} RunEnds(n: nat, steps: seq<Step>)
    requires History(Delivery.Run(n, steps).history)
    ensures Ends(Delivery.Run(n, steps))
  {
    hide Delivery.Inv, Next, History;
    if steps != [] {
      hide Ends;
      var before, last := Delivery.Run(n, steps[..|steps| - 1]), steps[|steps| - 1];
      HistoryGrows(before, last);
      RunKeeps(n, steps[..|steps| - 1]);
      RunEnds(n, steps[..|steps| - 1]);
      StepEnds(before, last);
    }
  }

  // ----- no gap between stored and live -----

  /** Nothing is under way any more. */
  ghost predicate Quiet(s: Relay)
    requires Cluster.Shape(s.net)
  {
    s.awaiting == [] && Cluster.Drained(s.net)
  }

  /** Once the channels are empty, what is on the wire has been applied everywhere. */
  lemma DrainedIsApplied(c: Cluster.Net, v: nat, e: Event)
    requires Cluster.Inv(c) && Cluster.Drained(c) && v < |c.sent| && EventCarried(c, e)
    ensures Applied(c, v, e)
  {
    var m :| Carried(c, m) && m.event == e;
    assert Cluster.Flows(c, v, m.origin);
    FromSubset(c.applied[v], m.origin, m);
    assert m in Cluster.From(c.applied[v], m.origin);
  }

  lemma {:induction false} FromSubset(s: seq<Cluster.Message>, w: nat, m: Cluster.Message)
    ensures m in Cluster.From(s, w) ==> m in s
  {
    if s != [] {
      FromSubset(s[1..], w, m);
    }
  }

  /**
   No gap between stored and live, exactly.  Take any run, any current subscription whose query has run
   and been streamed, and any event the relay stored on any worker that one of its filters wants and that
   was not hidden when the query ran.  When the system is quiet the client has been sent the event for
   that subscription if and only if its broadcast was not dropped by a publisher that closed, or it was
   stored before the query.
   */
  lemma NoGap(n: nat, steps: seq<Step>, r: nat, e: Event)
    requires
      var s := Delivery.Run(n, steps);
      && History(s.history) && Quiet(s)
      && r < |s.requests| && s.requests[r].current
      && s.requests[r].phase.Streaming? && s.requests[r].phase.queue == []
      && Fired(s.history, e) && Wanted(s.requests[r].filters, e)
      && !HiddenAt(s.history, s.requests[r].phase.at, e)
    ensures
      var s := Delivery.Run(n, steps);
      InOutbox(s, r, e) <==> e !in s.lost || FiredBy(s.history, s.requests[r].phase.at, e)
  {
    hide Delivery.Run, Fired, Wanted, HiddenAt, Applied, EventCarried, Cluster.Flows, Cluster.Numbered;
    hide History, Counted, FiredBy;
    RunKeeps(n, steps);
    var s := Delivery.Run(n, steps);
    assert CoveredRequest(s, r) && Accounted(s, r, e);
    if EventCarried(s.net, e) {
      DrainedIsApplied(s.net, s.conns[s.requests[r].conn].worker, e);
    }
    if e in s.lost && !FiredBy(s.history, s.requests[r].phase.at, e) {
      LostIsNotSent(n, steps, r, e);
    }
  }

  /** A stored event whose broadcast was dropped after the query ran is never sent for the request. */
  lemma LostIsNotSent(n: nat, steps: seq<Step>, r: nat, e: Event)
    requires
      var s := Delivery.Run(n, steps);
      && History(s.history) && r < |s.requests| && s.requests[r].phase.Streaming?
      && Fired(s.history, e) && e in s.lost && !FiredBy(s.history, s.requests[r].phase.at, e)
    ensures !InOutbox(Delivery.Run(n, steps), r, e)
  {
    hide Delivery.Run, Fired, FiredBy, Carried, Cluster.Flows, Cluster.Numbered, History, Covered, Tracked;
    RunKeeps(n, steps);
    RunEnds(n, steps);
    var s := Delivery.Run(n, steps);
    FiredIsNotEphemeral(s.history, e);
    forall x | x in s.outbox && !x.live ensures x != Sent(r, e, false) {
      assert StreamedStored(s, x);
    }
    if Sent(r, e, true) in s.outbox {
      var w := s.conns[s.requests[r].conn].worker;
      assert SentOk(s, Sent(r, e, true));
      var m :| m in s.net.applied[w] && m.event == e;
      AppliedIsCarried(s.net, w, m);
    }
  }

  /** With tag-free filters the client is sent a stored event at most twice for one subscription. */
  lemma AtMostTwice(n: nat, steps: seq<Step>, i: nat, j: nat, k: nat)
    requires History(Delivery.Run(n, steps).history)
    requires i < j < k < |Delivery.Run(n, steps).outbox|
    requires
      var s := Delivery.Run(n, steps);
      var x := s.outbox[i];
      && x.request < |s.requests| && TagFree(s.requests[x.request].filters) && !IsEphemeral(x.event.kind)
      && s.outbox[j].request == x.request && s.outbox[k].request == x.request
    ensures
      var out := Delivery.Run(n, steps).outbox;
      !(out[j].event == out[i].event && out[k].event == out[i].event)
  {
    hide Delivery.Run, Covered, Tracked, Cluster.Inv;
    RunKeeps(n, steps);
  }

  // ----- the stream filters -----

  /** The events of the rows that are not tombstones, in order. */
  function LiveEvents(rows: seq<Row>): seq<Event> {
    if rows == [] then [] else (if rows[0].deleted then [] else [ToNostrEvent(rows[0])]) + LiveEvents(rows[1..])
  }

  lemma {:induction false} PassingPipeline(filters: seq<Filter>, rows: seq<Row>)
    requires forall r | r in rows :: MatchesAny(filters, ToNostrEvent(r))
    ensures Pipeline(filters, rows) == LiveEvents(rows)
  {
    hide ToNostrEvent, MatchesAny;
    if rows != [] {
      assert rows[0] in rows && forall r | r in rows[1..] :: r in rows;
      PassingPipeline(filters, rows[1..]);
    }
  }

  /** Rows of a reachable table have the column widths of valid events, and the index holds their tags. */
  lemma ReachableRow(h: seq<Statement>, r: Row)
    requires History(h) && r in StoreRuns.Run(h).events
    ensures ColumnWidths(r) && IndexHolds(r, StoreRuns.Run(h).eventTags)
  {
    hide StoreRuns.Run, RowOf, ValidEvent, DedupOf, Settled, IndexedTags;
    Reachable(h);
    var db := StoreRuns.Run(h);
    var i :| 0 <= i < |db.events| && db.events[i] == r;
    assert HasSource(h, r);
    var j :| Source(h, r, j);
    LegalAt(h, j);
    RowRoundTrip(h[j].event, RowFor(h[j]).dedup);
    DedupOfRow(h[j]);
    assert Undeleted(r).eventId == r.eventId && Undeleted(r).pubkey == r.pubkey;
    forall t ensures t in db.eventTags && t.eventId == r.eventId <==> t in IndexedTags(r.eventId, r.tags) {
      TagsForMember(db.eventTags, r.eventId, t);
    }
  }

  /**
   The filter on the stream drops nothing but tombstones when criteria are plain: what the query selects
   and the relay streams is what the matcher accepts.
   */
  lemma StreamDropsTombstonesOnly(h: seq<Statement>, filters: seq<Filter>, rows: seq<Row>)
    requires History(h) && Answers(StoreRuns.Run(h), filters, rows)
    requires forall f | f in filters :: ValidFilter(f) && PlainCriteria(f)
    ensures Pipeline(filters, rows) == LiveEvents(rows)
  {
    hide StoreRuns.Run, SelectsAny, CompileAll, Matches, ValidFilter, PlainCriteria, IndexHolds, Pipeline, LiveEvents;
    hide ToNostrEvent, ColumnWidths, MatchesIndexed;
    forall r | r in rows ensures MatchesAny(filters, ToNostrEvent(r)) {
      ReachableRow(h, r);
      UnionMeans(filters, r, StoreRuns.Run(h).eventTags);
    }
    PassingPipeline(filters, rows);
  }

  // ----- hidden events -----

  /** The slot of an upserted event has received something newer. */
  ghost predicate Superseded(h: seq<Statement>, e: Event) {
    exists k :: 0 <= k < |h| && h[k].Put? && SameSlot(RowFor(h[k]), RowFor(Put(e)))
      && h[k].event.createdAt > e.createdAt
  }

  lemma RowKeys(c: Statement, e: Event)
    requires c.event == e
    ensures RowFor(c).eventId == RowOf(e, None).eventId && RowFor(c).pubkey == RowOf(e, None).pubkey
  {
  }

  /** Where the table holds a stored event's row, the event is hidden exactly when it was deleted. */
  lemma HeldIsHidden(h: seq<Statement>, c: Statement, k: nat)
    requires History(h) && Legal(c) && !c.Delete?
    requires k < |StoreRuns.Run(h).events| && Undeleted(StoreRuns.Run(h).events[k]) == RowFor(c)
    ensures Visible(StoreRuns.Run(h).events, RowFor(c).eventId) <==> !DeletedAfter(h, c.event)
  {
    hide StoreRuns.Run, RowFor, History, DeletedAfter, Sourced, Settled, IndexAgrees, ToNostrEvent, RowOf;
    Reachable(h);
    var rows := StoreRuns.Run(h).events;
    KeysOfUndeleted(rows[k]);
    TombstonesAreExact(h, rows[k]);
    DedupOfRow(c);
    RowRoundTrip(c.event, RowFor(c).dedup);
    IgnoresDeleted(rows[k]);
  }

  /** An upserted event that fired and was not superseded is the winner of its slot. */
  lemma UnsupersededWins(h: seq<Statement>, i: nat)
    requires History(h) && Fires(h, i) && h[i].Put? && !Superseded(h, h[i].event)
    ensures Wins(h, i)
  {
    hide StoreRuns.Run, RowFor, SameSlot, History, StoreRuns.Inv;
    var g, c := h[..i], h[i];
    RunStep(h, i);
    HistoryPrefix(h, i);
    HistoryPrefix(h, i + 1);
    Reachable(g);
    CountMeansNew(g, c, StoreRuns.Run(g));
    SettledOfInv(g);
    NewWinner(g, c, StoreRuns.Run(g).events, After(StoreRuns.Run(g), c).events);
    assert Put(c.event) == c;
    forall k | 0 <= k < |h| && h[k].Put? && SameSlot(RowFor(h[k]), RowFor(c))
      ensures h[k].event.createdAt <= c.event.createdAt && (k < i ==> h[k].event.createdAt < c.event.createdAt)
    {
      if k < i {
        assert h[..i + 1][k] == h[k] && h[..i + 1][i] == c;
      }
    }
  }

  lemma SettledOfInv(h: seq<Statement>)
    requires StoreInv(h)
    ensures Settled(h, StoreRuns.Run(h).events)
  {
  }

  /** A superseded event has no row. */
  lemma SupersededIsGone(h: seq<Statement>, i: nat)
    requires History(h) && i < |h| && h[i].Put? && Superseded(h, h[i].event)
    ensures !Visible(StoreRuns.Run(h).events, RowFor(h[i]).eventId)
  {
    hide StoreRuns.Run, RowFor, SameSlot, History, IndexAgrees;
    Reachable(h);
    var rows := StoreRuns.Run(h).events;
    assert Put(h[i].event) == h[i];
    forall k | 0 <= k < |rows| ensures rows[k].eventId != RowFor(h[i]).eventId {
      if rows[k].eventId == RowFor(h[i]).eventId {
        CreatedRow(h, h[i], rows, k);
        TableIsWhatWasReceived(h, RowFor(h[i]));
        assert StoreTheorems.Holds(rows, RowFor(h[i]));
        var j :| 0 <= j < |h| && (h[j].Create? || Wins(h, j)) && RowFor(h[i]) == RowFor(h[j]);
        PutHasSlot(h[i]);
        PutHasSlot(h[j]);
        RowTime(h[i]);
        RowTime(h[j]);
        assert false;
      }
    }
  }

  /**
   A stored event is hidden from a query exactly when, before the query, it was received before a deletion by
   its own author that names it, or its slot received something newer.
   */
  lemma HiddenExactly(h: seq<Statement>, at: nat, e: Event)
    requires History(h) && FiredBy(h, at, e)
    ensures HiddenAt(h, at, e)
            <==> DeletedAfter(h[..at], e)
                 || (RouteOf(e.kind) in {Replaceable, Parameterized} && Superseded(h[..at], e))
  {
    hide StoreRuns.Run, History, RowFor, DeletedAfter, Superseded, Count;
    var g := h[..at];
    HistoryPrefix(h, at);
    var i: nat :| Fires(g, i) && g[i].event == e;
    DeleteFiresNothing(g, i);
    LegalAt(g, i);
    RowKeys(g[i], e);
    if g[i].Put? && Superseded(g, e) {
      SupersededIsGone(g, i);
    } else {
      if g[i].Put? {
        UnsupersededWins(g, i);
      }
      TableIsWhatWasReceived(g, RowFor(g[i]));
      var rows := StoreRuns.Run(g).events;
      var k :| 0 <= k < |rows| && Undeleted(rows[k]) == RowFor(g[i]);
      HeldIsHidden(g, g[i], k);
    }
  }

  // ----- the exception is real -----

  lemma RunSnoc(n: nat, steps: seq<Step>, step: Step)
    ensures Delivery.Run(n, steps + [step]) == Next(Delivery.Run(n, steps), step)
  {
    assert (steps + [step])[..|steps|] == steps;
  }

  // One lemma for each kind of step the two runs take.

  lemma ConnectStep(s: Relay, w: nat)
    requires Cluster.Shape(s.net) && w < |s.net.sent|
    ensures Next(s, Connect(w)) == s.(conns := s.conns + [Conn(w, true)])
  {
  }

  lemma SubscribeStep(s: Relay, k: nat, subId: string, filters: seq<Filter>)
    requires Cluster.Shape(s.net) && s.requests == [] && k < |s.conns| && s.conns[k].open
    ensures Next(s, Subscribe(k, subId, filters)) == s.(requests := [Request(k, subId, filters, true, Registered)])
  {
    assert EndWhere([], k, Some(subId)) == [];
  }

  lemma QueryStep(s: Relay, q: Request)
    requires Cluster.Shape(s.net) && s.history == [] && s.requests == [q] && q.phase.Registered?
    ensures Next(s, Step.Query(0, [])) == s.(requests := [q.(phase := Streaming([], 0))])
  {
    hide SelectsAny;
    assert Answers(StoreRuns.Run([]), q.filters, []);
    assert Pipeline(q.filters, []) == [];
  }

  lemma PerformStep(s: Relay, c: Statement, conn: nat)
    requires Cluster.Shape(s.net) && s.history == [] && s.awaiting == [] && Count(StoreRuns.Run([]), c) == 1
    ensures Next(s, Perform(c, conn)) == s.(history := [c], awaiting := [Publication(c.event, conn)])
  {
    hide Count, StoreRuns.Run;
  }

  lemma DisconnectStep(s: Relay, k: nat, q: Request)
    requires Cluster.Shape(s.net) && k < |s.conns| && s.requests == [q] && q.conn != k
    ensures Next(s, Disconnect(k)) == s.(conns := s.conns[k := s.conns[k].(open := false)])
  {
    assert EndWhere([q], k, None) == [q];
  }

  lemma ResumeStep(s: Relay, p: Publication)
    requires Cluster.Shape(s.net) && s.awaiting == [p]
    ensures Next(s, Resume(0)) == Publish(s.(awaiting := []), p.conn, p.event)
  {
    hide Publish;
    assert s.awaiting[..0] + s.awaiting[1..] == [];
  }

  lemma ForwardStep(s: Relay, w: nat)
    requires Cluster.Shape(s.net)
    ensures Next(s, Forward(w)) == s.(net := Cluster.Next(s.net, Cluster.Forward(w)))
  {
  }

  const TWO := [Conn(0, true), Conn(0, true)]

  /** Connects a publisher and a subscriber to one worker; the subscriber's REQ finds nothing stored. */
  lemma SubscribedRun(f: Filter) returns (steps: seq<Step>)
    ensures Delivery.Run(1, steps) ==
            Relay([], Cluster.Init(1), TWO, [Request(1, "sub", [f], true, Streaming([], 0))], [], [], [])
  {
    steps := [];
    assert Delivery.Run(1, steps) == Init(1);
    hide Next, Delivery.Run;
    RunSnoc(1, steps, Connect(0));
    ConnectStep(Init(1), 0);
    steps := steps + [Connect(0)];
    var one := Init(1).(conns := [Conn(0, true)]);
    assert [] + [Conn(0, true)] == [Conn(0, true)];
    RunSnoc(1, steps, Connect(0));
    ConnectStep(one, 0);
    steps := steps + [Connect(0)];
    var two := Init(1).(conns := TWO);
    assert [Conn(0, true)] + [Conn(0, true)] == TWO;
    var q := Request(1, "sub", [f], true, Registered);
    RunSnoc(1, steps, Subscribe(1, "sub", [f]));
    SubscribeStep(two, 1, "sub", [f]);
    steps := steps + [Subscribe(1, "sub", [f])];
    RunSnoc(1, steps, Step.Query(0, []));
    QueryStep(two.(requests := [q]), q);
    steps := steps + [Step.Query(0, [])];
  }

  lemma FirstCreateFires(e: Event)
    requires Legal(Create(e))
    ensures History([Create(e)]) && Fired([Create(e)], e) && Count(StoreRuns.Run([]), Create(e)) == 1
    ensures !HiddenAt([Create(e)], 0, e)
  {
    hide AfterTrigger;
    assert [Create(e)][..0] == [];
    assert Fires([Create(e)], 0);
    assert forall i: nat :: !Fires([], i);
  }

  function StoredState(e: Event, f: Filter): Relay {
    Relay([Create(e)], Cluster.Init(1), TWO, [Request(1, "sub", [f], true, Streaming([], 0))],
      [Publication(e, 0)], [], [])
  }

  /** The subscribed run, and then the publisher's event is stored and awaits its strategy. */
  lemma StoredRun(e: Event, f: Filter) returns (steps: seq<Step>)
    requires Legal(Create(e))
    ensures Delivery.Run(1, steps) == StoredState(e, f)
  {
    hide Count, Legal, StoreRuns.Run, Next, Delivery.Run;
    steps := SubscribedRun(f);
    FirstCreateFires(e);
    RunSnoc(1, steps, Perform(Create(e), 0));
    PerformStep(Delivery.Run(1, steps), Create(e), 0);
    steps := steps + [Perform(Create(e), 0)];
  }

  /**
   The publisher's connection does matter: when it closes between the insert and the strategy's reply,
   the event is stored, the system falls quiet, and a subscription that wants the event never gets it.
   */
  lemma ClosedPublisherLeavesGap(e: Event, f: Filter) returns (steps: seq<Step>)
    requires Legal(Create(e)) && Finds(f, e) && Matches(f, e)
    ensures
      var s := Delivery.Run(1, steps);
      && History(s.history) && Quiet(s)
      && |s.requests| == 1 && s.requests[0].current && s.requests[0].filters == [f]
      && s.requests[0].phase.Streaming? && s.requests[0].phase.queue == []
      && Fired(s.history, e) && !HiddenAt(s.history, s.requests[0].phase.at, e)
      && e in s.lost && !InOutbox(s, 0, e)
  {
    hide Count, Fired, HiddenAt, Legal, Finds, Matches, StoreRuns.Run, Next, Delivery.Run, History;
    steps := StoredRun(e, f);
    FirstCreateFires(e);
    var s := StoredState(e, f);
    RunSnoc(1, steps, Disconnect(0));
    DisconnectStep(s, 0, s.requests[0]);
    steps := steps + [Disconnect(0)];
    var closed := s.(conns := s.conns[0 := Conn(0, false)]);
    RunSnoc(1, steps, Resume(0));
    ResumeStep(closed, Publication(e, 0));
    steps := steps + [Resume(0)];
  }

  /** With the publisher open, the same run goes on to meet every condition of the theorem, and delivers. */
  lemma OpenPublisherReaches(e: Event, f: Filter) returns (steps: seq<Step>)
    requires Legal(Create(e)) && Finds(f, e) && Matches(f, e)
    ensures
      var s := Delivery.Run(1, steps);
      && History(s.history) && Quiet(s)
      && |s.requests| == 1 && s.requests[0].current && s.requests[0].filters == [f]
      && s.requests[0].phase.Streaming? && s.requests[0].phase.queue == []
      && Fired(s.history, e) && !HiddenAt(s.history, s.requests[0].phase.at, e)
      && e !in s.lost && InOutbox(s, 0, e)
  {
    hide Count, Fired, HiddenAt, Legal, Finds, Matches, StoreRuns.Run, Deliveries, Cluster.Next, Next, Delivery.Run;
    hide History;
    steps := StoredRun(e, f);
    FirstCreateFires(e);
    var s := StoredState(e, f);
    RunSnoc(1, steps, Resume(0));
    ResumeStep(s, Publication(e, 0));
    steps := steps + [Resume(0)];
    var t := Delivery.Run(1, steps);
    RunSnoc(1, steps, Forward(0));
    ForwardStep(t, 0);
    steps := steps + [Forward(0)];
    OneWorkerDrains(e);
    OneFilterWants(f, e);
    NoGap(1, steps, 0, e);
  }

  lemma OneFilterWants(f: Filter, e: Event)
    requires Finds(f, e) && Matches(f, e)
    ensures Wanted([f], e)
  {
    assert f in [f];
  }

  /** A worker without companions has nothing on the wire once its broadcast was forwarded. */
  lemma OneWorkerDrains(e: Event)
    ensures Cluster.Drained(Cluster.Next(Cluster.Next(Cluster.Init(1), Cluster.Publish(0, e)), Cluster.Forward(0)))
  {
    var c := Cluster.Next(Cluster.Init(1), Cluster.Publish(0, e));
    assert c.up[0] == [Cluster.Message(0, 0, e)] && c.down[0] == [];
    var d := Cluster.Next(c, Cluster.Forward(0));
    assert d.up[0] == [] && d.down[0] == [];
  }
}
