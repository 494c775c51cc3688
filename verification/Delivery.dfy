/**
 The whole relay as one state machine: database statements, broadcasts over the cluster, subscriptions
 and their queries, in any interleaving.  Its theorem is that nothing falls between the stored events a
 REQ queries and the live events it then receives.
 */
module Delivery {
  import opened Wrappers
  import opened Nostr
  import opened Sql
  import opened FilterQuery
  import opened EventStore
  import opened StoreRuns
  import opened StoreTheorems
  import Cluster

  datatype Conn = Conn(worker: nat, open: bool)

  /** A query runs at a point of the statement history; its answer then waits in a stream. */
  datatype Phase = Registered | Streaming(queue: seq<Event>, at: nat)

  /** One REQ.  The `current` requests of a connection are the entries of its subscription map. */
  datatype Request = Request(conn: nat, subId: string, filters: seq<Filter>, current: bool, phase: Phase)

  /** An EVENT message sent for a request, from a broadcast or from its query. */
  datatype Sent = Sent(request: nat, event: Event, live: bool)

  /** A stored event whose strategy has not resumed yet, and the connection it came from. */
  datatype Publication = Publication(event: Event, conn: nat)

  datatype Relay = Relay(
    history: seq<Statement>, net: Cluster.Net, conns: seq<Conn>, requests: seq<Request>,
    awaiting: seq<Publication>, lost: seq<Event>, outbox: seq<Sent>)

  datatype Step =
    | Perform(statement: Statement, conn: nat)
    | Resume(k: nat)
    | Ephemeral(event: Event, conn: nat)
    | Forward(worker: nat)
    | Receive(worker: nat)
    | Connect(worker: nat)
    | Disconnect(conn: nat)
    | Subscribe(conn: nat, subId: string, filters: seq<Filter>)
    | Unsubscribe(conn: nat, subId: string)
    | Query(request: nat, rows: seq<Row>)
    | Stream(request: nat)

  function Init(n: nat): Relay {
    Relay([], Cluster.Init(n), [], [], [], [], [])
  }

  // ----- delivering -----

  /** onBroadcast and onSendEvent: one message for each open subscription of the worker that matches. */
  function Deliveries(conns: seq<Conn>, requests: seq<Request>, worker: nat, e: Event, n: nat): seq<Sent>
    requires n <= |requests|
  {
    if n == 0 then []
    else
      Deliveries(conns, requests, worker, e, n - 1)
      + (if Delivers(conns, requests[n - 1], worker, e) then [Sent(n - 1, e, true)] else [])
  }

  predicate Delivers(conns: seq<Conn>, q: Request, worker: nat, e: Event) {
    && q.current && q.conn < |conns| && conns[q.conn].open && conns[q.conn].worker == worker
    && MatchesAny(q.filters, e)
  }

  function Deliver(s: Relay, worker: nat, e: Event): Relay {
    s.(outbox := s.outbox + Deliveries(s.conns, s.requests, worker, e, |s.requests|))
  }

  /** onBroadcast of a connection's adapter; a closed connection has no listeners left and drops the event. */
  function Publish(s: Relay, conn: nat, e: Event): Relay
    requires Cluster.Shape(s.net)
  {
    if conn < |s.conns| && s.conns[conn].open then
      Deliver(s.(net := Cluster.Next(s.net, Cluster.Publish(s.conns[conn].worker, e))), s.conns[conn].worker, e)
    else s.(lost := s.lost + [e])
  }

  // ----- querying -----

  predicate Distinct<T(==)>(s: seq<T>) {
    forall i, j | 0 <= i < j < |s| :: s[i] != s[j]
  }

  predicate TagFree(filters: seq<Filter>) {
    forall i | 0 <= i < |filters| :: filters[i].tags == map[]
  }

  /** What the master database may answer when no row limit cuts the result; a tag join may repeat rows. */
  ghost predicate Answers(db: Store, filters: seq<Filter>, rows: seq<Row>) {
    && (forall r :: r in rows <==> r in db.events && SelectsAny(CompileAll(filters), r, db.eventTags))
    && (TagFree(filters) ==> Distinct(rows))
  }

  /** The stream pipeline of fetchAndSend. */
  function Pipeline(filters: seq<Filter>, rows: seq<Row>): seq<Event> {
    if rows == [] then []
    else
      (if !rows[0].deleted && MatchesAny(filters, ToNostrEvent(rows[0])) then [ToNostrEvent(rows[0])] else [])
      + Pipeline(filters, rows[1..])
  }

  /** Ends the subscriptions of a connection that `subId` names, or all of them. */
  function EndWhere(requests: seq<Request>, conn: nat, subId: Option<string>): seq<Request> {
    seq(|requests|, i requires 0 <= i < |requests| =>
      if requests[i].conn == conn && (subId.None? || requests[i].subId == subId.value)
      then requests[i].(current := false) else requests[i])
  }

  /** A step that cannot happen changes nothing. */
  ghost function Next(s: Relay, step: Step): Relay
    requires Cluster.Shape(s.net)
  {
    match step
    case Perform(c, conn) =>
      s.(history := s.history + [c],
         awaiting := s.awaiting
           + if Count(StoreRuns.Run(s.history), c) == 1 then [Publication(c.event, conn)] else [])
    case Resume(k) =>
      if k >= |s.awaiting| then s
      else
        var p := s.awaiting[k];
        Publish(s.(awaiting := s.awaiting[..k] + s.awaiting[k + 1..]), p.conn, p.event)
    case Ephemeral(e, conn) =>
      if IsEphemeral(e.kind) then Publish(s, conn, e) else s
    case Forward(w) => s.(net := Cluster.Next(s.net, Cluster.Forward(w)))
    case Receive(w) =>
      if w >= |s.net.down| || s.net.down[w] == [] then s
      else Deliver(s.(net := Cluster.Next(s.net, Cluster.Receive(w))), w, s.net.down[w][0].event)
    case Connect(w) => if w < |s.net.sent| then s.(conns := s.conns + [Conn(w, true)]) else s
    case Disconnect(k) =>
      if k >= |s.conns| then s
      else s.(conns := s.conns[k := s.conns[k].(open := false)], requests := EndWhere(s.requests, k, None))
    case Subscribe(k, subId, filters) =>
      if k >= |s.conns| || !s.conns[k].open then s
      else s.(requests := EndWhere(s.requests, k, Some(subId)) + [Request(k, subId, filters, true, Registered)])
    case Unsubscribe(k, subId) => s.(requests := EndWhere(s.requests, k, Some(subId)))
    case Query(r, rows) =>
      if r < |s.requests| && s.requests[r].phase.Registered?
        && Answers(StoreRuns.Run(s.history), s.requests[r].filters, rows)
      then
        s.(requests := s.requests[r := s.requests[r].(
          phase := Streaming(Pipeline(s.requests[r].filters, rows), |s.history|))])
      else s
    case Stream(r) =>
      if r < |s.requests| && s.requests[r].phase.Streaming? && s.requests[r].phase.queue != [] then
        var q := s.requests[r];
        var t := s.(requests := s.requests[r := q.(phase := q.phase.(queue := q.phase.queue[1..]))]);
        if q.conn < |s.conns| && s.conns[q.conn].open
        then t.(outbox := s.outbox + [Sent(r, q.phase.queue[0], false)]) else t
      else s
  }

  lemma PublishShape(s: Relay, conn: nat, e: Event)
    requires Cluster.Shape(s.net)
    ensures Cluster.Shape(Publish(s, conn, e).net)
  {
    hide Deliveries;
  }

  lemma ReceiveShape(s: Relay, w: nat)
    requires Cluster.Shape(s.net)
    ensures Cluster.Shape(Next(s, Receive(w)).net)
  {
    hide Deliveries;
  }

  lemma NextShape(s: Relay, step: Step)
    requires Cluster.Shape(s.net)
    ensures Cluster.Shape(Next(s, step).net)
  {
    hide Publish, Answers, Pipeline, EndWhere, Count, Deliveries;
    match step {
      case Resume(k) =>
        if k < |s.awaiting| {
          var p := s.awaiting[k];
          PublishShape(s.(awaiting := s.awaiting[..k] + s.awaiting[k + 1..]), p.conn, p.event);
        }
      case Ephemeral(e, conn) => PublishShape(s, conn, e);
      case Receive(w) => ReceiveShape(s, w);
      case _ =>
    }
  }

  ghost function Run(n: nat, steps: seq<Step>): (s: Relay)
    ensures Cluster.Shape(s.net)
  {
    if steps == [] then Init(n)
    else
      var before, step := Run(n, steps[..|steps| - 1]), steps[|steps| - 1];
      NextShape(before, step);
      hide Next;
      Next(before, step)
  }

  // ----- what is tracked -----

  ghost predicate Fired(h: seq<Statement>, e: Event) {
    exists i: nat :: Fires(h, i) && h[i].event == e
  }

  /** The event was stored by one of the first n statements. */
  ghost predicate FiredBy(h: seq<Statement>, n: nat, e: Event) {
    n <= |h| && Fired(h[..n], e)
  }

  /** The message is on the wire or has arrived. */
  predicate Carried(c: Cluster.Net, m: Cluster.Message) {
    && m.origin < |c.sent| && m.serial < |c.sent[m.origin]| && c.sent[m.origin][m.serial] == m
  }

  ghost predicate EventCarried(c: Cluster.Net, e: Event) {
    exists m :: Carried(c, m) && m.event == e
  }

  ghost predicate Applied(c: Cluster.Net, worker: nat, e: Event) {
    worker < |c.applied| && exists m :: m in c.applied[worker] && m.event == e
  }

  /** A stored event is awaiting its strategy, lost, or broadcast, and is broadcast at most once. */
  ghost predicate Tracked(s: Relay) {
    && (forall k | 0 <= k < |s.awaiting| ::
          Fired(s.history, s.awaiting[k].event) && !EventCarried(s.net, s.awaiting[k].event))
    && (forall j, k | 0 <= j < k < |s.awaiting| :: s.awaiting[j].event != s.awaiting[k].event)
    && (forall m | Carried(s.net, m) :: IsEphemeral(m.event.kind) || Fired(s.history, m.event))
    && (forall m, x | Carried(s.net, m) && Carried(s.net, x) && m.event == x.event ::
          IsEphemeral(m.event.kind) || m == x)
    && (forall e | Fired(s.history, e) ::
          EventCarried(s.net, e) || e in s.lost || exists k | 0 <= k < |s.awaiting| :: s.awaiting[k].event == e)
  }

  /** A filter whose stored query selects the event: at most one tag key, and tags matching in indexed form. */
  ghost predicate Finds(f: Filter, e: Event) {
    ValidFilter(f) && |f.tags| <= 1 && MatchesIndexed(f, e)
  }

  /** The filters accept the event live, and one of them finds it in the table. */
  ghost predicate Wanted(filters: seq<Filter>, e: Event) {
    MatchesAny(filters, e) && exists f | f in filters :: Finds(f, e)
  }

  predicate InOutbox(s: Relay, r: nat, e: Event) {
    Sent(r, e, true) in s.outbox || Sent(r, e, false) in s.outbox
  }

  /** When the query ran, the event had been stored but its row was tombstoned or already replaced. */
  ghost predicate HiddenAt(h: seq<Statement>, at: nat, e: Event) {
    FiredBy(h, at, e) && !Visible(StoreRuns.Run(h[..at]).events, RowOf(e, None).eventId)
  }

  /** Request r has the event, will stream it, has yet to be offered it, or could not see it. */
  ghost predicate Accounted(s: Relay, r: nat, e: Event)
    requires r < |s.requests| && s.requests[r].phase.Streaming? && s.requests[r].conn < |s.conns|
  {
    || InOutbox(s, r, e)
    || e in s.requests[r].phase.queue
    || (!Applied(s.net, s.conns[s.requests[r].conn].worker, e) && !FiredBy(s.history, s.requests[r].phase.at, e))
    || HiddenAt(s.history, s.requests[r].phase.at, e)
  }

  ghost predicate RequestsOk(s: Relay) {
    && (forall k | 0 <= k < |s.conns| :: s.conns[k].worker < |s.net.sent|)
    && (forall r | 0 <= r < |s.requests| ::
          && s.requests[r].conn < |s.conns|
          && (s.requests[r].current ==> s.conns[s.requests[r].conn].open)
          && (s.requests[r].phase.Streaming? ==> s.requests[r].phase.at <= |s.history|))
  }

  ghost predicate CoveredRequest(s: Relay, r: nat)
    requires r < |s.requests| && s.requests[r].conn < |s.conns|
  {
    s.requests[r].current && s.requests[r].phase.Streaming? ==>
      forall e | Fired(s.history, e) && Wanted(s.requests[r].filters, e) :: Accounted(s, r, e)
  }

  ghost predicate Covered(s: Relay)
    requires RequestsOk(s)
  {
    forall r | 0 <= r < |s.requests| :: CoveredRequest(s, r)
  }

  /** No message is sent twice for a request, but for ephemeral events and joins that repeat rows. */
  ghost predicate Counted(s: Relay)
    requires RequestsOk(s)
  {
    && (forall x | x in s.outbox :: x.request < |s.requests| && SentOk(s, x))
    && (forall r | 0 <= r < |s.requests| && TagFree(s.requests[r].filters) && s.requests[r].phase.Streaming? ::
          Distinct(s.requests[r].phase.queue))
    && (forall i, j | 0 <= i < j < |s.outbox| && s.outbox[i] == s.outbox[j] :: Repeatable(s, s.outbox[i]))
  }

  ghost predicate SentOk(s: Relay, x: Sent)
    requires RequestsOk(s) && x.request < |s.requests|
  {
    if x.live then
      IsEphemeral(x.event.kind) || Applied(s.net, s.conns[s.requests[x.request].conn].worker, x.event)
    else
      && s.requests[x.request].phase.Streaming?
      && (TagFree(s.requests[x.request].filters) ==> x.event !in s.requests[x.request].phase.queue)
  }

  predicate Repeatable(s: Relay, x: Sent) {
    if x.live then IsEphemeral(x.event.kind)
    else x.request < |s.requests| && !TagFree(s.requests[x.request].filters)
  }

  ghost predicate Inv(s: Relay) {
    Cluster.Inv(s.net) && Tracked(s) && RequestsOk(s) && Covered(s) && Counted(s)
  }

  // ----- storing -----

  lemma FiredGrows(h: seq<Statement>, c: Statement, e: Event)
    requires History(h + [c])
    ensures Fired(h + [c], e) <==> Fired(h, e) || (Count(StoreRuns.Run(h), c) == 1 && e == c.event)
    ensures Count(StoreRuns.Run(h), c) == 1 ==> !Fired(h, c.event)
  {
    hide StoreRuns.Run, Count, History;
    var all := h + [c];
    forall i: nat | i < |h| ensures Fires(all, i) <==> Fires(h, i) {
      assert all[..i] == h[..i];
    }
    assert all[..|h|] == h;
    assert Fires(all, |h|) <==> Count(StoreRuns.Run(h), c) == 1;
    if Fires(all, |h|) {
      forall i: nat | Fires(h, i) ensures h[i].event != c.event {
        StoredAtMostOnce(all, i, |h|);
      }
    }
  }

  lemma FiredPrefix(h: seq<Statement>, n: nat, e: Event)
    requires FiredBy(h, n, e)
    ensures Fired(h, e)
  {
    hide StoreRuns.Run, Count;
    var i: nat :| Fires(h[..n], i) && h[..n][i].event == e;
    assert h[..n][..i] == h[..i];
    assert Fires(h, i);
  }

  lemma FiredIsNotEphemeral(h: seq<Statement>, e: Event)
    requires History(h) && Fired(h, e)
    ensures !IsEphemeral(e.kind) && ValidEvent(e)
  {
    hide ValidEvent;
    var i: nat :| Fires(h, i) && h[i].event == e;
    assert Legal(h[i]);
  }

  // ----- the network's effect -----

  lemma AppliedIsCarried(c: Cluster.Net, v: nat, m: Cluster.Message)
    requires Cluster.Inv(c) && v < |c.applied| && m in c.applied[v]
    ensures Carried(c, m)
  {
    hide Cluster.From;
    var i :| 0 <= i < |c.applied[v]| && c.applied[v][i] == m;
    assert Cluster.Numbered(c, v);
    assert Cluster.Flows(c, v, m.origin) && Cluster.Numbered(c, m.origin);
    var k := Cluster.FromMember(c.applied[v], m.origin, i);
    assert c.sent[m.origin][k] == m;
  }

  lemma PublishCarries(c: Cluster.Net, w: nat, e: Event, m: Cluster.Message)
    requires Cluster.Inv(c) && w < |c.sent|
    ensures Carried(Cluster.Next(c, Cluster.Publish(w, e)), m) <==> Carried(c, m) || m == Cluster.MessageOf(c, w, e)
    ensures !Carried(c, Cluster.MessageOf(c, w, e))
  {
    hide Cluster.Flows;
    assert Cluster.Numbered(c, w);
  }

  lemma PublishApplies(c: Cluster.Net, w: nat, e: Event, v: nat, x: Event)
    requires Cluster.Shape(c) && w < |c.sent|
    ensures Applied(Cluster.Next(c, Cluster.Publish(w, e)), v, x) <==> Applied(c, v, x) || (v == w && x == e)
  {
    var d, m := Cluster.Next(c, Cluster.Publish(w, e)), Cluster.MessageOf(c, w, e);
    if v == w {
      assert d.applied[v] == c.applied[v] + [m];
      assert m in d.applied[v];
      assert forall y :: y in d.applied[v] <==> y in c.applied[v] || y == m;
    }
  }

  lemma ReceiveApplies(c: Cluster.Net, w: nat, v: nat, x: Event)
    requires Cluster.Shape(c) && w < |c.down| && c.down[w] != []
    ensures Applied(Cluster.Next(c, Cluster.Receive(w)), v, x)
            <==> Applied(c, v, x) || (v == w && x == c.down[w][0].event)
  {
    var d, m := Cluster.Next(c, Cluster.Receive(w)), c.down[w][0];
    if v == w {
      assert d.applied[v] == c.applied[v] + [m];
      assert m in d.applied[v];
      assert forall y :: y in d.applied[v] <==> y in c.applied[v] || y == m;
    }
  }

  /** A message that has only now arrived carries an event this worker had not applied. */
  lemma ReceivedIsNew(s: Relay, w: nat)
    requires Cluster.Inv(s.net) && Tracked(s) && w < |s.net.down| && s.net.down[w] != []
    ensures IsEphemeral(s.net.down[w][0].event.kind) || !Applied(s.net, w, s.net.down[w][0].event)
  {
    hide Cluster.Flows, Cluster.Numbered;
    var c, m := s.net, s.net.down[w][0];
    var d := Cluster.Next(c, Cluster.Receive(w));
    Cluster.StepKeepsInv(c, Cluster.Receive(w));
    Cluster.AppliedOnce(d, w);
    assert d.applied[w] == c.applied[w] + [m] && d.applied[w][|c.applied[w]|] == m;
    AppliedIsCarried(d, w, m);
    assert Carried(c, m);
    forall x | x in c.applied[w] && x.event == m.event ensures IsEphemeral(m.event.kind) {
      AppliedIsCarried(c, w, x);
      var i :| 0 <= i < |c.applied[w]| && c.applied[w][i] == x;
      assert d.applied[w][i] == x;
    }
  }

  // ----- deliveries -----

  lemma {:induction false} DeliveriesMean(conns: seq<Conn>, requests: seq<Request>, w: nat, e: Event, n: nat, x: Sent)
    requires n <= |requests|
    ensures x in Deliveries(conns, requests, w, e, n)
            <==> x.request < n && x.live && x.event == e && Delivers(conns, requests[x.request], w, e)
  {
    hide Delivers;
    if n > 0 {
      DeliveriesMean(conns, requests, w, e, n - 1, x);
    }
  }

  lemma {:induction false} DeliveriesDistinct(conns: seq<Conn>, requests: seq<Request>, w: nat, e: Event, n: nat)
    requires n <= |requests|
    ensures Distinct(Deliveries(conns, requests, w, e, n))
  {
    hide Delivers;
    if n > 0 {
      DeliveriesDistinct(conns, requests, w, e, n - 1);
      var rest := Deliveries(conns, requests, w, e, n - 1);
      forall i | 0 <= i < |rest| ensures rest[i] != Sent(n - 1, e, true) {
        DeliveriesMean(conns, requests, w, e, n - 1, rest[i]);
      }
    }
  }

  /** `t` is `s` after worker w applied the event and its subscriptions were served. */
  ghost predicate Served(s: Relay, t: Relay, w: nat, e: Event) {
    && t.history == s.history && t.conns == s.conns && t.requests == s.requests
    && t.outbox == s.outbox + Deliveries(s.conns, s.requests, w, e, |s.requests|)
    && |t.net.sent| == |s.net.sent|
    && forall v: nat, x :: Applied(t.net, v, x) <==> Applied(s.net, v, x) || (v == w && x == e)
  }

  lemma ServedCovers(s: Relay, t: Relay, w: nat, e: Event)
    requires RequestsOk(s) && Covered(s) && Served(s, t, w, e)
    ensures RequestsOk(t) && Covered(t)
  {
    hide Fired, Applied, HiddenAt, Deliveries, Finds;
    forall r | 0 <= r < |t.requests| ensures CoveredRequest(t, r) {
      assert CoveredRequest(s, r);
      var q := s.requests[r];
      if q.current && q.phase.Streaming? {
        forall x | Fired(t.history, x) && Wanted(q.filters, x) ensures Accounted(t, r, x) {
          assert Accounted(s, r, x);
          if !Applied(s.net, s.conns[q.conn].worker, x) && Applied(t.net, s.conns[q.conn].worker, x) {
            DeliveriesMean(s.conns, s.requests, w, e, |s.requests|, Sent(r, x, true));
          }
        }
      }
    }
  }

  lemma ServedCounts(s: Relay, t: Relay, w: nat, e: Event)
    requires RequestsOk(s) && RequestsOk(t) && Counted(s) && Served(s, t, w, e)
    requires IsEphemeral(e.kind) || !Applied(s.net, w, e)
    ensures Counted(t)
  {
    hide Applied, Deliveries, Delivers;
    var more := Deliveries(s.conns, s.requests, w, e, |s.requests|);
    forall x | x in more ensures x.live && x.event == e && x.request < |s.requests|
      && s.conns[s.requests[x.request].conn].worker == w
    {
      DeliveriesMean(s.conns, s.requests, w, e, |s.requests|, x);
      DeliversMeans(s, x.request, w, e);
    }
    forall x | x in t.outbox ensures x.request < |t.requests| && SentOk(t, x) {
      assert x in s.outbox || x in more;
    }
    DeliveriesDistinct(s.conns, s.requests, w, e, |s.requests|);
    forall i, j | 0 <= i < j < |t.outbox| && t.outbox[i] == t.outbox[j] ensures Repeatable(t, t.outbox[i]) {
      if j < |s.outbox| {
        assert Repeatable(s, s.outbox[i]);
      } else if i < |s.outbox| {
        assert t.outbox[j] == more[j - |s.outbox|] && more[j - |s.outbox|] in more;
        assert s.outbox[i] in s.outbox && SentOk(s, s.outbox[i]);
      }
    }
  }

  lemma DeliversMeans(s: Relay, r: nat, w: nat, e: Event)
    requires RequestsOk(s) && r < |s.requests| && Delivers(s.conns, s.requests[r], w, e)
    ensures s.conns[s.requests[r].conn].worker == w
  {
  }

  // ----- each step keeps the invariant -----

  lemma PerformKeeps(s: Relay, c: Statement, conn: nat)
    requires Inv(s) && History(s.history + [c])
    ensures Inv(Next(s, Perform(c, conn)))
  {
    hide StoreRuns.Run, Count, History, Cluster.Flows, Cluster.Numbered, Applied, Finds;
    var t := Next(s, Perform(c, conn));
    forall e
      ensures Fired(t.history, e)
              <==> Fired(s.history, e) || (Count(StoreRuns.Run(s.history), c) == 1 && e == c.event)
    {
      FiredGrows(s.history, c, e);
    }
    FiredGrows(s.history, c, c.event);
    assert RequestsOk(t);
    assert Tracked(t) by {
      PerformTracks(s, t, c, conn);
    }
    forall r | 0 <= r < |t.requests| ensures CoveredRequest(t, r) {
      PerformCovers(s, t, c, r);
    }
    assert Counted(t);
  }

  lemma PerformTracks(s: Relay, t: Relay, c: Statement, conn: nat)
    requires Cluster.Inv(s.net) && Tracked(s) && t == Next(s, Perform(c, conn)) && History(s.history + [c])
    requires forall e :: Fired(t.history, e)
               <==> Fired(s.history, e) || (Count(StoreRuns.Run(s.history), c) == 1 && e == c.event)
    requires Count(StoreRuns.Run(s.history), c) == 1 ==> !Fired(s.history, c.event)
    ensures Tracked(t)
  {
    hide StoreRuns.Run, Count, Carried, Fired, History, Cluster.Inv, Legal;
    if Count(StoreRuns.Run(s.history), c) == 1 {
      FiredIsNotEphemeral(t.history, c.event);
      var p := Publication(c.event, conn);
      assert t.awaiting == s.awaiting + [p];
      assert t.awaiting[|s.awaiting|] == p;
      assert !EventCarried(s.net, c.event);
      forall e | Fired(t.history, e)
        ensures EventCarried(t.net, e) || e in t.lost || exists k | 0 <= k < |t.awaiting| :: t.awaiting[k].event == e
      {
        if k :| 0 <= k < |s.awaiting| && s.awaiting[k].event == e {
          assert t.awaiting[k].event == e;
        }
      }
    } else {
      assert t.awaiting == s.awaiting;
    }
  }

  lemma PerformCovers(s: Relay, t: Relay, c: Statement, r: nat)
    requires Inv(s) && r < |s.requests| && t.history == s.history + [c]
    requires t.net == s.net && t.conns == s.conns && t.requests == s.requests && t.outbox == s.outbox
    requires History(t.history)
    ensures RequestsOk(t) && CoveredRequest(t, r)
  {
    hide StoreRuns.Run, Fired, Applied, Finds, Cluster.Inv, History;
    var q := s.requests[r];
    assert CoveredRequest(s, r);
    if q.current && q.phase.Streaming? {
      assert t.history[..q.phase.at] == s.history[..q.phase.at];
      forall e | Fired(t.history, e) && Wanted(q.filters, e) ensures Accounted(t, r, e) {
        if Fired(s.history, e) {
          assert Accounted(s, r, e);
        } else {
          FiredIsNotEphemeral(t.history, e);
          UnfiredNotApplied(s, s.conns[q.conn].worker, e);
          if FiredBy(s.history, q.phase.at, e) {
            FiredPrefix(s.history, q.phase.at, e);
          }
        }
      }
    }
  }

  /** Only stored events, and ephemeral ones, are ever applied. */
  lemma UnfiredNotApplied(s: Relay, w: nat, e: Event)
    requires Cluster.Inv(s.net) && Tracked(s) && !Fired(s.history, e) && !IsEphemeral(e.kind)
    ensures !Applied(s.net, w, e)
  {
    hide Cluster.Inv, Carried, Fired;
    if w < |s.net.applied| {
      forall m | m in s.net.applied[w] ensures m.event != e {
        AppliedIsCarried(s.net, w, m);
      }
    }
  }

  // Broadcasting

  lemma ServedByPublish(s: Relay, w: nat, e: Event)
    requires Cluster.Inv(s.net) && w < |s.net.sent|
    ensures Served(s, Deliver(s.(net := Cluster.Next(s.net, Cluster.Publish(w, e))), w, e), w, e)
  {
    hide Cluster.Flows, Cluster.Numbered, Deliveries;
    forall v: nat, x
      ensures Applied(Cluster.Next(s.net, Cluster.Publish(w, e)), v, x) <==> Applied(s.net, v, x) || (v == w && x == e)
    {
      PublishApplies(s.net, w, e, v, x);
    }
  }

  /** A relay whose event is about to be broadcast or lost, and is tracked nowhere else. */
  ghost predicate Ready(s: Relay, e: Event) {
    && Cluster.Inv(s.net) && RequestsOk(s) && Covered(s) && Counted(s)
    && (IsEphemeral(e.kind) || !EventCarried(s.net, e))
  }

  lemma PublishKeepsRequests(s: Relay, conn: nat, e: Event)
    requires Ready(s, e)
    ensures
      var t := Publish(s, conn, e);
      Cluster.Inv(t.net) && RequestsOk(t) && Covered(t) && Counted(t)
  {
    hide Cluster.Flows, Cluster.Numbered, Deliveries, Fired, Accounted, Carried;
    if conn < |s.conns| && s.conns[conn].open {
      var w := s.conns[conn].worker;
      var t := Publish(s, conn, e);
      Cluster.StepKeepsInv(s.net, Cluster.Publish(w, e));
      ServedByPublish(s, w, e);
      ServedCovers(s, t, w, e);
      if Applied(s.net, w, e) {
        var m :| m in s.net.applied[w] && m.event == e;
        AppliedIsCarried(s.net, w, m);
      }
      ServedCounts(s, t, w, e);
    } else {
      LosingKeepsRequests(s, s.(lost := s.lost + [e]));
    }
  }

  lemma LosingKeepsRequests(s: Relay, t: Relay)
    requires RequestsOk(s) && Covered(s) && Counted(s)
    requires t == s.(lost := t.lost, awaiting := t.awaiting)
    ensures RequestsOk(t) && Covered(t) && Counted(t)
  {
    hide Fired, Applied, HiddenAt, Wanted;
    forall r | 0 <= r < |t.requests| ensures CoveredRequest(t, r) {
      assert CoveredRequest(s, r);
      if t.requests[r].current && t.requests[r].phase.Streaming? {
        forall e | Fired(t.history, e) && Wanted(t.requests[r].filters, e) ensures Accounted(t, r, e) {
          assert Accounted(s, r, e);
        }
      }
    }
    forall x | x in t.outbox ensures x.request < |t.requests| && SentOk(t, x) {
      assert SentOk(s, x);
    }
    forall i, j | 0 <= i < j < |t.outbox| && t.outbox[i] == t.outbox[j] ensures Repeatable(t, t.outbox[i]) {
      assert Repeatable(s, s.outbox[i]);
    }
  }

  /** What a broadcast adds to the wire, or a closed publisher to the lost events. */
  lemma PublishCarriesOnly(s: Relay, conn: nat, e: Event, m: Cluster.Message)
    requires Cluster.Inv(s.net) && RequestsOk(s)
    ensures Carried(Publish(s, conn, e).net, m) ==> Carried(s.net, m) || m.event == e
    ensures Carried(s.net, m) ==> Carried(Publish(s, conn, e).net, m)
  {
    hide Cluster.Flows, Cluster.Numbered, Deliveries, Carried;
    if conn < |s.conns| && s.conns[conn].open {
      PublishCarries(s.net, s.conns[conn].worker, e, m);
    }
  }

  lemma PublishSettles(s: Relay, conn: nat, e: Event)
    requires Cluster.Inv(s.net) && RequestsOk(s)
    ensures EventCarried(Publish(s, conn, e).net, e) || e in Publish(s, conn, e).lost
  {
    hide Cluster.Flows, Cluster.Numbered, Deliveries, Carried;
    if conn < |s.conns| && s.conns[conn].open {
      var m := Cluster.MessageOf(s.net, s.conns[conn].worker, e);
      PublishCarries(s.net, s.conns[conn].worker, e, m);
    }
  }

  lemma PublishUnique(s: Relay, conn: nat, e: Event, m: Cluster.Message, x: Cluster.Message)
    requires Cluster.Inv(s.net) && RequestsOk(s) && !EventCarried(s.net, e)
    requires Carried(Publish(s, conn, e).net, m) && m.event == e
    requires Carried(Publish(s, conn, e).net, x) && x.event == e
    ensures m == x
  {
    hide Cluster.Flows, Cluster.Numbered, Deliveries, Carried;
    if conn < |s.conns| && s.conns[conn].open {
      PublishCarries(s.net, s.conns[conn].worker, e, m);
      PublishCarries(s.net, s.conns[conn].worker, e, x);
    }
  }

  lemma EphemeralKeeps(s: Relay, e: Event, conn: nat)
    requires Inv(s) && History(s.history)
    ensures Inv(Next(s, Step.Ephemeral(e, conn)))
  {
    hide Cluster.Flows, Cluster.Numbered, RequestsOk, Covered, Counted, Fired, Carried, History, Deliveries;
    if IsEphemeral(e.kind) {
      PublishKeepsRequests(s, conn, e);
      var t := Publish(s, conn, e);
      forall m ensures Carried(t.net, m) ==> Carried(s.net, m) || m.event == e
        ensures Carried(s.net, m) ==> Carried(t.net, m)
      {
        PublishCarriesOnly(s, conn, e, m);
      }
      forall k | 0 <= k < |t.awaiting| ensures !EventCarried(t.net, t.awaiting[k].event) {
        FiredIsNotEphemeral(s.history, s.awaiting[k].event);
      }
      forall x | Fired(t.history, x) && EventCarried(s.net, x) ensures EventCarried(t.net, x) {
      }
      assert Tracked(t);
    }
  }

  /** A broadcast touches neither the history nor what awaits, and loses nothing that was lost. */
  lemma PublishFrame(s: Relay, conn: nat, e: Event)
    requires Cluster.Shape(s.net)
    ensures
      var t := Publish(s, conn, e);
      t.history == s.history && t.awaiting == s.awaiting && s.lost <= t.lost
  {
    hide Deliveries;
  }

  /** `t` is `s` after its k-th publication was broadcast or lost. */
  ghost predicate Resumed(s: Relay, t: Relay, k: nat)
    requires k < |s.awaiting|
  {
    var e := s.awaiting[k].event;
    && t.history == s.history && t.awaiting == s.awaiting[..k] + s.awaiting[k + 1..] && s.lost <= t.lost
    && (forall m | Carried(t.net, m) :: Carried(s.net, m) || m.event == e)
    && (forall m | Carried(s.net, m) :: Carried(t.net, m))
    && (forall m, x | Carried(t.net, m) && Carried(t.net, x) && m.event == e && x.event == e :: m == x)
    && (EventCarried(t.net, e) || e in t.lost)
  }

  lemma ResumeIsResumed(s: Relay, k: nat)
    requires Cluster.Inv(s.net) && RequestsOk(s) && Tracked(s) && k < |s.awaiting|
    ensures Resumed(s, Next(s, Resume(k)), k)
  {
    hide Cluster.Flows, Cluster.Numbered, RequestsOk, Fired, Carried, Publish;
    var p := s.awaiting[k];
    var r := s.(awaiting := s.awaiting[..k] + s.awaiting[k + 1..]);
    var t := Publish(r, p.conn, p.event);
    RequestsIgnoreAwaiting(s, r);
    PublishFrame(r, p.conn, p.event);
    PublishSettles(r, p.conn, p.event);
    forall m ensures Carried(t.net, m) ==> Carried(s.net, m) || m.event == p.event
      ensures Carried(s.net, m) ==> Carried(t.net, m)
    {
      PublishCarriesOnly(r, p.conn, p.event, m);
    }
    forall m, x | Carried(t.net, m) && Carried(t.net, x) && m.event == p.event && x.event == p.event
      ensures m == x
    {
      PublishUnique(r, p.conn, p.event, m, x);
    }
  }

  lemma ResumedWaits(s: Relay, t: Relay, k: nat)
    requires Tracked(s) && k < |s.awaiting| && Resumed(s, t, k)
    ensures forall j | 0 <= j < |t.awaiting| ::
              Fired(t.history, t.awaiting[j].event) && !EventCarried(t.net, t.awaiting[j].event)
    ensures forall i, j | 0 <= i < j < |t.awaiting| :: t.awaiting[i].event != t.awaiting[j].event
  {
    hide Fired, Carried;
    assert forall j | 0 <= j < |t.awaiting| :: t.awaiting[j] == s.awaiting[if j < k then j else j + 1];
  }

  lemma ResumedSettles(s: Relay, t: Relay, k: nat, e: Event)
    requires Tracked(s) && k < |s.awaiting| && Resumed(s, t, k) && Fired(t.history, e)
    ensures EventCarried(t.net, e) || e in t.lost || exists j | 0 <= j < |t.awaiting| :: t.awaiting[j].event == e
  {
    hide Fired, Carried;
    if j :| 0 <= j < |s.awaiting| && s.awaiting[j].event == e {
      if j != k {
        assert t.awaiting[if j < k then j else j - 1].event == e;
      }
    }
  }

  lemma ResumedTracks(s: Relay, t: Relay, k: nat)
    requires Tracked(s) && k < |s.awaiting| && Resumed(s, t, k)
    ensures Tracked(t)
  {
    hide Fired, Carried, EventCarried;
    ResumedWaits(s, t, k);
    forall e | Fired(t.history, e)
      ensures EventCarried(t.net, e) || e in t.lost || exists j | 0 <= j < |t.awaiting| :: t.awaiting[j].event == e
    {
      ResumedSettles(s, t, k, e);
    }
  }

  lemma ResumeTracks(s: Relay, k: nat)
    requires Cluster.Inv(s.net) && RequestsOk(s) && Tracked(s) && k < |s.awaiting|
    ensures Tracked(Next(s, Resume(k)))
  {
    hide Tracked, Resumed, RequestsOk, Cluster.Flows, Cluster.Numbered, Publish;
    ResumeIsResumed(s, k);
    ResumedTracks(s, Next(s, Resume(k)), k);
  }

  lemma RequestsIgnoreAwaiting(s: Relay, t: Relay)
    requires RequestsOk(s) && t == s.(awaiting := t.awaiting)
    ensures RequestsOk(t)
  {
  }

  lemma ResumeKeeps(s: Relay, k: nat)
    requires Inv(s) && History(s.history)
    ensures Inv(Next(s, Resume(k)))
  {
    hide Cluster.Flows, Cluster.Numbered, RequestsOk, Covered, Counted, Fired, Carried, History, Publish;
    if k < |s.awaiting| {
      var p := s.awaiting[k];
      var r := s.(awaiting := s.awaiting[..k] + s.awaiting[k + 1..]);
      LosingKeepsRequests(s, r);
      PublishKeepsRequests(r, p.conn, p.event);
      ResumeTracks(s, k);
    }
  }

  // Channels

  /** Forwarding and receiving move messages that are already on the wire. */
  lemma MovingTracks(s: Relay, t: Relay)
    requires Tracked(s) && t.net.sent == s.net.sent
    requires t.history == s.history && t.awaiting == s.awaiting && t.lost == s.lost
    ensures Tracked(t)
  {
    hide Fired;
    assert forall m :: Carried(t.net, m) <==> Carried(s.net, m);
    assert forall e :: EventCarried(s.net, e) ==> EventCarried(t.net, e);
  }

  lemma ForwardKeeps(s: Relay, w: nat)
    requires Inv(s)
    ensures Inv(Next(s, Forward(w)))
  {
    hide Cluster.Flows, Cluster.Numbered, Tracked, Fired, HiddenAt, Wanted;
    var t := Next(s, Forward(w));
    Cluster.StepKeepsInv(s.net, Cluster.Forward(w));
    MovingTracks(s, t);
    assert t.net.applied == s.net.applied;
    forall r | 0 <= r < |t.requests| ensures CoveredRequest(t, r) {
      assert CoveredRequest(s, r);
      if t.requests[r].current && t.requests[r].phase.Streaming? {
        forall e | Fired(t.history, e) && Wanted(t.requests[r].filters, e) ensures Accounted(t, r, e) {
          assert Accounted(s, r, e);
        }
      }
    }
    forall x | x in t.outbox ensures x.request < |t.requests| && SentOk(t, x) {
      assert SentOk(s, x);
    }
    forall i, j | 0 <= i < j < |t.outbox| && t.outbox[i] == t.outbox[j] ensures Repeatable(t, t.outbox[i]) {
      assert Repeatable(s, s.outbox[i]);
    }
  }

  lemma ReceiveKeeps(s: Relay, w: nat)
    requires Inv(s)
    ensures Inv(Next(s, Receive(w)))
  {
    hide Cluster.Flows, Cluster.Numbered, Tracked, Fired, Covered, Counted, Deliveries, Applied;
    if w < |s.net.down| && s.net.down[w] != [] {
      var t, e := Next(s, Receive(w)), s.net.down[w][0].event;
      Cluster.StepKeepsInv(s.net, Cluster.Receive(w));
      MovingTracks(s, t);
      forall v: nat, x ensures Applied(t.net, v, x) <==> Applied(s.net, v, x) || (v == w && x == e) {
        ReceiveApplies(s.net, w, v, x);
      }
      ReceivedIsNew(s, w);
      ServedCovers(s, t, w, e);
      ServedCounts(s, t, w, e);
    }
  }

  // Subscriptions

  /** `t` differs from `s` in connections that closed or opened and subscriptions that ended or began. */
  ghost predicate Resubscribed(s: Relay, t: Relay) {
    && t.history == s.history && t.net == s.net && t.awaiting == s.awaiting && t.lost == s.lost && t.outbox == s.outbox
    && |s.conns| <= |t.conns| && |s.requests| <= |t.requests|
    && (forall k | 0 <= k < |s.conns| :: t.conns[k].worker == s.conns[k].worker)
    && (forall r | 0 <= r < |s.requests| ::
          t.requests[r] == s.requests[r] || t.requests[r] == s.requests[r].(current := false))
    && (forall r | |s.requests| <= r < |t.requests| :: t.requests[r].phase.Registered?)
  }

  lemma ResubscribedKeeps(s: Relay, t: Relay)
    requires Inv(s) && Resubscribed(s, t) && RequestsOk(t)
    ensures Inv(t)
  {
    hide Cluster.Flows, Cluster.Numbered, Tracked, Fired, HiddenAt, Wanted, Applied;
    assert Tracked(t) by {
      MovingTracks(s, t);
    }
    forall r | 0 <= r < |t.requests| ensures CoveredRequest(t, r) {
      if t.requests[r].current && t.requests[r].phase.Streaming? {
        assert CoveredRequest(s, r);
        forall e | Fired(t.history, e) && Wanted(t.requests[r].filters, e) ensures Accounted(t, r, e) {
          assert Accounted(s, r, e);
        }
      }
    }
    forall x | x in t.outbox ensures x.request < |t.requests| && SentOk(t, x) {
      assert SentOk(s, x);
    }
    forall i, j | 0 <= i < j < |t.outbox| && t.outbox[i] == t.outbox[j] ensures Repeatable(t, t.outbox[i]) {
      assert s.outbox[i] in s.outbox && Repeatable(s, s.outbox[i]);
    }
  }

  lemma SubscriptionStepsKeep(s: Relay, step: Step)
    requires Inv(s) && (step.Connect? || step.Disconnect? || step.Subscribe? || step.Unsubscribe?)
    ensures Inv(Next(s, step))
  {
    hide Cluster.Flows, Cluster.Numbered, Tracked, Covered, Counted;
    ResubscribedKeeps(s, Next(s, step));
  }

  // Queries

  lemma {:induction false} InPipeline(filters: seq<Filter>, rows: seq<Row>, r: Row)
    requires r in rows && !r.deleted && MatchesAny(filters, ToNostrEvent(r))
    ensures ToNostrEvent(r) in Pipeline(filters, rows)
  {
    hide ToNostrEvent, MatchesAny;
    if r != rows[0] {
      InPipeline(filters, rows[1..], r);
    }
  }

  lemma {:induction false} FromPipeline(filters: seq<Filter>, rows: seq<Row>, e: Event)
    requires e in Pipeline(filters, rows)
    ensures exists r | r in rows :: ToNostrEvent(r) == e
  {
    hide ToNostrEvent, MatchesAny;
    if !exists r | r in rows[1..] :: ToNostrEvent(r) == e {
      if e in Pipeline(filters, rows[1..]) {
        FromPipeline(filters, rows[1..], e);
      }
      assert rows[0] in rows;
    } else {
      var r :| r in rows[1..] && ToNostrEvent(r) == e;
      assert r in rows;
    }
  }

  lemma {:induction false} PipelineDistinct(filters: seq<Filter>, rows: seq<Row>)
    requires Distinct(rows) && forall a, b | a in rows && b in rows && ToNostrEvent(a) == ToNostrEvent(b) :: a == b
    ensures Distinct(Pipeline(filters, rows))
  {
    hide ToNostrEvent, MatchesAny;
    if rows != [] {
      var rest := rows[1..];
      assert forall i | 0 <= i < |rest| :: rest[i] == rows[i + 1];
      assert forall r | r in rest :: r != rows[0];
      PipelineDistinct(filters, rest);
      if ToNostrEvent(rows[0]) in Pipeline(filters, rest) {
        FromPipeline(filters, rest, ToNostrEvent(rows[0]));
        assert false;
      }
    }
  }

  lemma RowsHaveDistinctEvents(rows: seq<Row>, a: Row, b: Row)
    requires UniqueIds(rows) && a in rows && b in rows && ToNostrEvent(a) == ToNostrEvent(b)
    ensures a == b
  {
    Hex.BytesRoundTrip(a.eventId);
    Hex.BytesRoundTrip(b.eventId);
    var i :| 0 <= i < |rows| && rows[i] == a;
    var j :| 0 <= j < |rows| && rows[j] == b;
  }

  /** The visible row of a stored event is in every answer to filters that want the event. */
  lemma VisibleIsAnswered(h: seq<Statement>, filters: seq<Filter>, rows: seq<Row>, e: Event)
    requires History(h) && Fired(h, e) && Wanted(filters, e) && Answers(StoreRuns.Run(h), filters, rows)
    requires Visible(StoreRuns.Run(h).events, RowOf(e, None).eventId)
    ensures e in Pipeline(filters, rows)
  {
    hide StoreRuns.Run, SelectsAny, CompileAll, MatchesAny, Finds, RowFor, RowOf, Pipeline, ToNostrEvent, History;
    hide StoreRuns.Inv;
    Reachable(h);
    var db := StoreRuns.Run(h);
    var j: nat :| Fires(h, j) && h[j].event == e;
    var i :| 0 <= i < |db.events| && db.events[i].eventId == RowOf(e, None).eventId && !db.events[i].deleted;
    VisibleRow(h, j, i);
    var f :| f in filters && Finds(f, e);
    RowSelected(h, f, i, e);
    SelectedByOne(filters, f, db.events[i], db.eventTags);
    InPipeline(filters, rows, db.events[i]);
  }

  lemma SelectedByOne(filters: seq<Filter>, f: Filter, r: Row, index: seq<TagRow>)
    requires f in filters && Selects(Compile(f), r, index)
    ensures SelectsAny(CompileAll(filters), r, index)
  {
    hide Selects, Compile;
    var k :| 0 <= k < |filters| && filters[k] == f;
    assert Selects(CompileAll(filters)[k], r, index);
  }

  /** The visible row with a stored event's id is that event's row, and rebuilds the event. */
  lemma VisibleRow(h: seq<Statement>, j: nat, i: nat)
    requires History(h) && StoreInv(h) && Fires(h, j) && i < |StoreRuns.Run(h).events|
    requires StoreRuns.Run(h).events[i].eventId == RowOf(h[j].event, None).eventId
    requires !StoreRuns.Run(h).events[i].deleted
    ensures ToNostrEvent(StoreRuns.Run(h).events[i]) == h[j].event && ColumnWidths(StoreRuns.Run(h).events[i])
  {
    hide StoreRuns.Run, IndexAgrees, Settled, DedupOf, ToNostrEvent, ValidEvent;
    DeleteFiresNothing(h, j);
    var row := StoreRuns.Run(h).events[i];
    CreatedRow(h, h[j], StoreRuns.Run(h).events, i);
    assert Undeleted(row) == row;
    assert Legal(h[j]);
    RowRoundTrip(h[j].event, row.dedup);
  }

  ghost predicate StoreInv(h: seq<Statement>) {
    StoreRuns.Inv(h, StoreRuns.Run(h))
  }

  lemma RowSelected(h: seq<Statement>, f: Filter, i: nat, e: Event)
    requires StoreInv(h) && i < |StoreRuns.Run(h).events| && Finds(f, e)
    requires ToNostrEvent(StoreRuns.Run(h).events[i]) == e && ColumnWidths(StoreRuns.Run(h).events[i])
    ensures Selects(Compile(f), StoreRuns.Run(h).events[i], StoreRuns.Run(h).eventTags)
  {
    hide StoreRuns.Run, Settled, Selects, Compile, Matches, MatchesIndexed, ToNostrEvent, ValidFilter, IndexedTags;
    var db := StoreRuns.Run(h);
    var r := db.events[i];
    assert TagsFor(db.eventTags, r.eventId) == IndexedTags(r.eventId, r.tags);
    forall t ensures t in db.eventTags && t.eventId == r.eventId <==> t in IndexedTags(r.eventId, r.tags) {
      TagsForMember(db.eventTags, r.eventId, t);
    }
    CompiledQuerySelects(f, r, db.eventTags);
  }

  lemma QueryKeeps(s: Relay, n: nat, rows: seq<Row>)
    requires Inv(s) && History(s.history)
    ensures Inv(Next(s, Step.Query(n, rows)))
  {
    hide Cluster.Flows, Cluster.Numbered, Tracked, Fired, Wanted, Applied, Answers, Pipeline, History, Visible;
    hide StoreRuns.Run, MatchesAny;
    var t := Next(s, Step.Query(n, rows));
    if t != s {
      var q := s.requests[n];
      assert Tracked(t) by {
        MovingTracks(s, t);
      }
      forall r | 0 <= r < |t.requests| ensures CoveredRequest(t, r) {
        assert CoveredRequest(s, r);
        if t.requests[r].current && t.requests[r].phase.Streaming? {
          forall e | Fired(t.history, e) && Wanted(t.requests[r].filters, e) ensures Accounted(t, r, e) {
            if r == n {
              assert t.history[..|t.history|] == t.history;
              if Visible(StoreRuns.Run(t.history).events, RowOf(e, None).eventId) {
                VisibleIsAnswered(s.history, q.filters, rows, e);
              }
            } else {
              assert Accounted(s, r, e);
            }
          }
        }
      }
      QueryCounts(s, n, rows);
    }
  }

  lemma AnswerDistinct(h: seq<Statement>, filters: seq<Filter>, rows: seq<Row>)
    requires History(h) && Answers(StoreRuns.Run(h), filters, rows) && TagFree(filters)
    ensures Distinct(Pipeline(filters, rows))
  {
    hide StoreRuns.Run, SelectsAny, CompileAll, History, ToNostrEvent, Settled, IndexAgrees;
    Reachable(h);
    forall a, b | a in rows && b in rows && ToNostrEvent(a) == ToNostrEvent(b) ensures a == b {
      RowsHaveDistinctEvents(StoreRuns.Run(h).events, a, b);
    }
    PipelineDistinct(filters, rows);
  }

  lemma QueryCounts(s: Relay, n: nat, rows: seq<Row>)
    requires Inv(s) && History(s.history) && n < |s.requests| && s.requests[n].phase.Registered?
    requires Answers(StoreRuns.Run(s.history), s.requests[n].filters, rows)
    ensures RequestsOk(Next(s, Step.Query(n, rows))) && Counted(Next(s, Step.Query(n, rows)))
  {
    hide Cluster.Flows, Cluster.Numbered, Tracked, Covered, Applied, Answers, Pipeline, History, Distinct;
    hide StoreRuns.Run;
    var t := Next(s, Step.Query(n, rows));
    if TagFree(s.requests[n].filters) {
      AnswerDistinct(s.history, s.requests[n].filters, rows);
    }
    forall x | x in t.outbox ensures x.request < |t.requests| && SentOk(t, x) {
      assert SentOk(s, x);
    }
    forall i, j | 0 <= i < j < |t.outbox| && t.outbox[i] == t.outbox[j] ensures Repeatable(t, t.outbox[i]) {
      assert s.outbox[i] in s.outbox && Repeatable(s, s.outbox[i]);
    }
  }

  lemma StreamKeeps(s: Relay, n: nat)
    requires Inv(s)
    ensures Inv(Next(s, Stream(n)))
  {
    hide Cluster.Flows, Cluster.Numbered, Tracked, Fired, Wanted, Applied, HiddenAt;
    var t := Next(s, Stream(n));
    if t != s {
      assert Tracked(t) by {
        MovingTracks(s, t);
      }
      var q := s.requests[n];
      forall r | 0 <= r < |t.requests| ensures CoveredRequest(t, r) {
        assert CoveredRequest(s, r);
        if t.requests[r].current && t.requests[r].phase.Streaming? {
          forall e | Fired(t.history, e) && Wanted(t.requests[r].filters, e) ensures Accounted(t, r, e) {
            assert Accounted(s, r, e);
            if r == n && e in q.phase.queue && e != q.phase.queue[0] {
              assert e in q.phase.queue[1..];
            }
          }
        }
      }
      StreamCounts(s, n);
    }
  }

  /** `t` is `s` after the first queued event of request n left its queue, sent when the connection is open. */
  ghost predicate Streamed(s: Relay, t: Relay, n: nat)
    requires n < |s.requests| && s.requests[n].phase.Streaming? && s.requests[n].phase.queue != []
  {
    var q := s.requests[n];
    && t.net == s.net && t.conns == s.conns && t.history == s.history
    && t.requests == s.requests[n := q.(phase := q.phase.(queue := q.phase.queue[1..]))]
    && (t.outbox == s.outbox || t.outbox == s.outbox + [Sent(n, q.phase.queue[0], false)])
  }

  lemma StreamedSends(s: Relay, t: Relay, n: nat)
    requires RequestsOk(s) && RequestsOk(t) && Counted(s)
    requires n < |s.requests| && s.requests[n].phase.Streaming? && s.requests[n].phase.queue != []
    requires Streamed(s, t, n)
    ensures forall y | y in t.outbox :: y.request < |t.requests| && SentOk(t, y)
  {
    hide Applied;
    forall y | y in t.outbox ensures y.request < |t.requests| && SentOk(t, y) {
      if y in s.outbox {
        assert SentOk(s, y);
      }
    }
  }

  lemma StreamedOnce(s: Relay, t: Relay, n: nat)
    requires RequestsOk(s) && RequestsOk(t) && Counted(s)
    requires n < |s.requests| && s.requests[n].phase.Streaming? && s.requests[n].phase.queue != []
    requires Streamed(s, t, n)
    ensures forall i, j | 0 <= i < j < |t.outbox| && t.outbox[i] == t.outbox[j] :: Repeatable(t, t.outbox[i])
  {
    hide Applied, Distinct;
    forall i, j | 0 <= i < j < |t.outbox| && t.outbox[i] == t.outbox[j] ensures Repeatable(t, t.outbox[i]) {
      assert s.outbox[i] in s.outbox && SentOk(s, s.outbox[i]);
      if j < |s.outbox| {
        assert Repeatable(s, s.outbox[i]);
      }
    }
  }

  lemma StreamCounts(s: Relay, n: nat)
    requires RequestsOk(s) && Counted(s) && Cluster.Shape(s.net)
    requires n < |s.requests| && s.requests[n].phase.Streaming? && s.requests[n].phase.queue != []
    ensures RequestsOk(Next(s, Stream(n))) && Counted(Next(s, Stream(n)))
  {
    hide Applied, SentOk, Repeatable;
    var t := Next(s, Stream(n));
    StreamedSends(s, t, n);
    StreamedOnce(s, t, n);
    forall r | 0 <= r < |t.requests| && TagFree(t.requests[r].filters) && t.requests[r].phase.Streaming?
      ensures Distinct(t.requests[r].phase.queue)
    {
      assert Distinct(s.requests[r].phase.queue);
    }
  }

  // ----- over every run -----

  lemma HistoryGrows(s: Relay, step: Step)
    requires Cluster.Shape(s.net) && History(Next(s, step).history)
    ensures History(s.history)
    ensures step.Perform? ==> History(s.history + [step.statement])
  {
    hide Deliveries;
    if step.Perform? {
      var h := s.history + [step.statement];
      HistoryPrefix(h, |s.history|);
      assert h[..|s.history|] == s.history;
    }
  }

  lemma StepKeeps(s: Relay, step: Step)
    requires Inv(s) && History(Next(s, step).history)
    ensures Inv(Next(s, step))
  {
    hide Inv, Next, History;
    ShapeOfInv(s);
    HistoryGrows(s, step);
    match step {
      case Perform(c, conn) => PerformKeeps(s, c, conn);
      case Resume(k) => ResumeKeeps(s, k);
      case Ephemeral(e, conn) => EphemeralKeeps(s, e, conn);
      case Forward(w) => ForwardKeeps(s, w);
      case Receive(w) => ReceiveKeeps(s, w);
      case Connect(_) => SubscriptionStepsKeep(s, step);
      case Disconnect(_) => SubscriptionStepsKeep(s, step);
      case Subscribe(_, _, _) => SubscriptionStepsKeep(s, step);
      case Unsubscribe(_, _) => SubscriptionStepsKeep(s, step);
      case Query(r, rows) => QueryKeeps(s, r, rows);
      case Stream(r) => StreamKeeps(s, r);
    }
  }

  lemma ShapeOfInv(s: Relay)
    requires Inv(s)
    ensures Cluster.Shape(s.net)
  {
  }

  lemma InitKeeps(n: nat)
    ensures Inv(Init(n))
  {
    hide StoreRuns.Run, Count;
    Cluster.InitInv(n);
    assert forall e :: !Fired([], e);
  }

  lemma {:induction false} RunKeeps(n: nat, steps: seq<Step>)
    requires History(Run(n, steps).history)
    ensures Inv(Run(n, steps))
  {
    hide Inv, Next, History;
    if steps == [] {
      InitKeeps(n);
    } else {
      var before := Run(n, steps[..|steps| - 1]);
      HistoryGrows(before, steps[|steps| - 1]);
      RunKeeps(n, steps[..|steps| - 1]);
      StepKeeps(before, steps[|steps| - 1]);
    }
  }
}
