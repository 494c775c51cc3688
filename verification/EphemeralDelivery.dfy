/** Events that are never stored: whom their broadcast reaches, in every interleaving. */
module EphemeralDelivery {
  import opened Wrappers
  import opened Nostr
  import opened StoreRuns
  import opened StoreTheorems
  import opened Delivery
  import opened DeliveryTheorems
  import Cluster

  // ----- steps keep requests -----

  /** Requests are never removed, keep their connection and filters, and once ended stay ended. */
  ghost predicate Persist(s: Relay, t: Relay) {
    && |s.conns| <= |t.conns| && |s.requests| <= |t.requests|
    && (forall k | 0 <= k < |s.conns| :: t.conns[k].worker == s.conns[k].worker)
    && (forall r | 0 <= r < |s.requests| ::
          && t.requests[r].conn == s.requests[r].conn && t.requests[r].filters == s.requests[r].filters
          && (t.requests[r].current ==> s.requests[r].current))
    && (forall x | x in s.outbox :: x in t.outbox)
  }

  lemma PublishPersists(s: Relay, conn: nat, e: Event)
    requires Cluster.Shape(s.net)
    ensures Persist(s, Publish(s, conn, e))
  {
    hide Deliveries;
  }

  lemma StepPersists(s: Relay, step: Step)
    requires Cluster.Shape(s.net)
    ensures Persist(s, Next(s, step))
  {
    hide Deliveries, Publish, Answers, Pipeline, Count;
    match step {
      case Resume(k) =>
        if k < |s.awaiting| {
          var p := s.awaiting[k];
          PublishPersists(s.(awaiting := s.awaiting[..k] + s.awaiting[k + 1..]), p.conn, p.event);
        }
      case Ephemeral(e, conn) => PublishPersists(s, conn, e);
      case _ =>
    }
  }

  // ----- one message on its way to one request -----

  function WorkerOf(s: Relay, r: nat): nat
    requires r < |s.requests| && s.requests[r].conn < |s.conns|
  {
    s.conns[s.requests[r].conn].worker
  }

  /** The message is under way, and wherever the request's worker has applied it the request was sent its event. */
  ghost predicate Reaches(s: Relay, r: nat, m: Cluster.Message)
    requires RequestsOk(s) && r < |s.requests|
  {
    && Carried(s.net, m)
    && (s.requests[r].current && WorkerOf(s, r) < |s.net.applied| && m in s.net.applied[WorkerOf(s, r)] ==>
          Sent(r, m.event, true) in s.outbox)
  }

  /** `t` is `s` after worker w applied message m and served its connections. */
  ghost predicate Applies(s: Relay, t: Relay, w: nat, m: Cluster.Message) {
    && w < |s.net.applied| && t.net.applied == s.net.applied[w := s.net.applied[w] + [m]]
    && (forall x | Carried(s.net, x) :: Carried(t.net, x))
    && t.conns == s.conns && t.requests == s.requests
    && t.outbox == s.outbox + Deliveries(s.conns, s.requests, w, m.event, |s.requests|)
  }

  lemma AppliesDelivers(s: Relay, t: Relay, w: nat, m: Cluster.Message, r: nat)
    requires RequestsOk(s) && r < |s.requests| && Applies(s, t, w, m)
    requires s.requests[r].current && WorkerOf(s, r) == w && MatchesAny(s.requests[r].filters, m.event)
    ensures Sent(r, m.event, true) in t.outbox
  {
    hide Deliveries, MatchesAny;
    DeliveriesMean(s.conns, s.requests, w, m.event, |s.requests|, Sent(r, m.event, true));
  }

  /** Applying any message keeps this one on its way. */
  lemma AppliesKeepsReaching(s: Relay, t: Relay, w: nat, x: Cluster.Message, r: nat, m: Cluster.Message)
    requires RequestsOk(s) && RequestsOk(t) && r < |s.requests| && Applies(s, t, w, x)
    requires MatchesAny(s.requests[r].filters, m.event) && Reaches(s, r, m)
    ensures Reaches(t, r, m)
  {
    hide Deliveries, MatchesAny, Carried;
    if s.requests[r].current && WorkerOf(s, r) == w && x == m {
      AppliesDelivers(s, t, w, x, r);
    }
  }

  lemma PublishIsApplies(s: Relay, conn: nat, e: Event)
    requires Cluster.Inv(s.net) && RequestsOk(s) && conn < |s.conns| && s.conns[conn].open
    ensures
      var w := s.conns[conn].worker;
      && w < |s.net.sent| && Applies(s, Publish(s, conn, e), w, Cluster.MessageOf(s.net, w, e))
      && Carried(Publish(s, conn, e).net, Cluster.MessageOf(s.net, w, e))
      && !Carried(s.net, Cluster.MessageOf(s.net, w, e))
      && RequestsOk(Publish(s, conn, e))
  {
    hide Deliveries, Cluster.Flows, Cluster.Numbered, Carried;
    var w := s.conns[conn].worker;
    forall x ensures Carried(Cluster.Next(s.net, Cluster.Publish(w, e)), x)
                     <==> Carried(s.net, x) || x == Cluster.MessageOf(s.net, w, e)
    {
      PublishCarries(s.net, w, e, x);
    }
    PublishCarries(s.net, w, e, Cluster.MessageOf(s.net, w, e));
  }

  lemma PublishKeepsReaching(s: Relay, conn: nat, e: Event, r: nat, m: Cluster.Message)
    requires Cluster.Inv(s.net) && RequestsOk(s) && RequestsOk(Publish(s, conn, e))
    requires r < |s.requests| && r < |Publish(s, conn, e).requests|
    requires MatchesAny(s.requests[r].filters, m.event) && Reaches(s, r, m)
    ensures Reaches(Publish(s, conn, e), r, m)
  {
    hide Deliveries, MatchesAny, Carried, Cluster.Flows, Cluster.Numbered, Applies;
    if conn < |s.conns| && s.conns[conn].open {
      PublishIsApplies(s, conn, e);
      var w := s.conns[conn].worker;
      AppliesKeepsReaching(s, Publish(s, conn, e), w, Cluster.MessageOf(s.net, w, e), r, m);
    }
  }

  lemma ReceiveIsApplies(s: Relay, w: nat)
    requires Cluster.Shape(s.net) && w < |s.net.down| && s.net.down[w] != []
    ensures Applies(s, Next(s, Receive(w)), w, s.net.down[w][0])
  {
    hide Deliveries;
    assert forall x :: Carried(s.net, x) ==> Carried(Next(s, Receive(w)).net, x);
  }

  /** Steps that apply nothing keep a message on its way. */
  lemma IdleKeepsReaching(s: Relay, t: Relay, r: nat, m: Cluster.Message)
    requires RequestsOk(s) && RequestsOk(t) && Persist(s, t) && r < |s.requests| && Reaches(s, r, m)
    requires t.net.applied == s.net.applied && t.net.sent == s.net.sent
    ensures Reaches(t, r, m)
  {
  }

  lemma AwaitingDoesNotMatter(s: Relay, t: Relay, r: nat, m: Cluster.Message)
    requires RequestsOk(s) && r < |s.requests| && Reaches(s, r, m) && t == s.(awaiting := t.awaiting)
    ensures RequestsOk(t) && Reaches(t, r, m)
  {
    RequestsIgnoreAwaiting(s, t);
  }

  lemma StepKeepsReaching(s: Relay, step: Step, r: nat, m: Cluster.Message)
    requires Delivery.Inv(s) && RequestsOk(Next(s, step)) && r < |s.requests| && r < |Next(s, step).requests|
    requires MatchesAny(s.requests[r].filters, m.event) && Reaches(s, r, m)
    ensures Reaches(Next(s, step), r, m)
  {
    hide Tracked, Covered, Counted, Cluster.Flows, Cluster.Numbered, Reaches, Persist, MatchesAny, Publish;
    hide Deliveries, Applies, RequestsOk;
    StepPersists(s, step);
    match step {
      case Resume(k) =>
        if k < |s.awaiting| {
          var p, u := s.awaiting[k], s.(awaiting := s.awaiting[..k] + s.awaiting[k + 1..]);
          AwaitingDoesNotMatter(s, u, r, m);
          PublishKeepsReaching(u, p.conn, p.event, r, m);
        }
      case Ephemeral(e, conn) =>
        if IsEphemeral(e.kind) {
          PublishKeepsReaching(s, conn, e, r, m);
        }
      case Receive(w) =>
        if w < |s.net.down| && s.net.down[w] != [] {
          ReceiveIsApplies(s, w);
          AppliesKeepsReaching(s, Next(s, step), w, s.net.down[w][0], r, m);
        }
      case _ =>
        IdleStep(s, step);
        IdleKeepsReaching(s, Next(s, step), r, m);
    }
  }

  lemma IdleStep(s: Relay, step: Step)
    requires Cluster.Shape(s.net) && !step.Resume? && !step.Ephemeral? && !step.Receive?
    ensures Next(s, step).net.applied == s.net.applied && Next(s, step).net.sent == s.net.sent
  {
    hide Answers, Pipeline, Count;
  }

  // ----- over runs -----

  lemma RunSteps(n: nat, steps: seq<Step>, k: nat)
    requires k < |steps|
    ensures Delivery.Run(n, steps[..k + 1]) == Next(Delivery.Run(n, steps[..k]), steps[k])
  {
    assert steps[..k + 1] == steps[..k] + [steps[k]];
    RunSnoc(n, steps[..k], steps[k]);
  }

  lemma {:induction false} HistoryOfPrefix(n: nat, steps: seq<Step>, k: nat)
    requires k <= |steps| && History(Delivery.Run(n, steps).history)
    ensures History(Delivery.Run(n, steps[..k]).history) && Delivery.Inv(Delivery.Run(n, steps[..k]))
    decreases |steps| - k
  {
    hide Next, Delivery.Inv, History;
    if k == |steps| {
      assert steps[..k] == steps;
      RunKeeps(n, steps);
    } else {
      HistoryOfPrefix(n, steps, k + 1);
      RunSteps(n, steps, k);
      HistoryGrows(Delivery.Run(n, steps[..k]), steps[k]);
      RunKeeps(n, steps[..k]);
    }
  }

  lemma {:induction false} PersistInRun(n: nat, steps: seq<Step>, j: nat, k: nat)
    requires j <= k <= |steps|
    ensures Persist(Delivery.Run(n, steps[..j]), Delivery.Run(n, steps[..k]))
  {
    hide Next;
    if j < k {
      PersistInRun(n, steps, j, k - 1);
      RunSteps(n, steps, k - 1);
      StepPersists(Delivery.Run(n, steps[..k - 1]), steps[k - 1]);
    }
  }

  lemma OkOfInv(s: Relay)
    requires Delivery.Inv(s)
    ensures Cluster.Inv(s.net) && RequestsOk(s)
  {
  }

  lemma {:induction false} ReachesInRun(n: nat, steps: seq<Step>, j: nat, k: nat, r: nat, m: Cluster.Message)
    requires j <= k <= |steps| && History(Delivery.Run(n, steps).history)
    requires
      var s := Delivery.Run(n, steps[..j]);
      RequestsOk(s) && r < |s.requests| && MatchesAny(s.requests[r].filters, m.event) && Reaches(s, r, m)
    ensures
      var t := Delivery.Run(n, steps[..k]);
      RequestsOk(t) && r < |t.requests| && MatchesAny(t.requests[r].filters, m.event) && Reaches(t, r, m)
  {
    hide Next, Delivery.Inv, History, Reaches, MatchesAny, RequestsOk, Delivery.Run;
    if j < k {
      ReachesInRun(n, steps, j, k - 1, r, m);
      HistoryOfPrefix(n, steps, k - 1);
      HistoryOfPrefix(n, steps, k);
      OkOfInv(Delivery.Run(n, steps[..k]));
      RunSteps(n, steps, k - 1);
      PersistInRun(n, steps, k - 1, k);
      StepKeepsReaching(Delivery.Run(n, steps[..k - 1]), steps[k - 1], r, m);
    }
  }

  /** Once the channels are empty a message on the wire has been applied by every worker. */
  lemma DrainedHasApplied(c: Cluster.Net, v: nat, m: Cluster.Message)
    requires Cluster.Inv(c) && Cluster.Drained(c) && v < |c.sent| && Carried(c, m)
    ensures m in c.applied[v]
  {
    assert Cluster.Flows(c, v, m.origin);
    FromSubset(c.applied[v], m.origin, m);
    assert m in Cluster.From(c.applied[v], m.origin);
  }

  /** Step i publishes the event, which is not stored, on a connection that is then open. */
  ghost predicate PublishedAt(n: nat, steps: seq<Step>, i: nat, e: Event) {
    && i < |steps| && steps[i].Ephemeral? && steps[i].event == e
    && steps[i].conn < |Delivery.Run(n, steps[..i]).conns|
    && Delivery.Run(n, steps[..i]).conns[steps[i].conn].open
  }

  /** The message of an open publisher starts on its way to every request of that moment. */
  lemma PublishedStarts(n: nat, steps: seq<Step>, i: nat, e: Event, r: nat) returns (m: Cluster.Message)
    requires History(Delivery.Run(n, steps).history) && PublishedAt(n, steps, i, e) && 20000 <= e.kind <= 29999
    requires r < |Delivery.Run(n, steps[..i]).requests|
    requires MatchesAny(Delivery.Run(n, steps[..i]).requests[r].filters, e)
    ensures m.event == e
    ensures
      var t := Delivery.Run(n, steps[..i + 1]);
      RequestsOk(t) && r < |t.requests| && MatchesAny(t.requests[r].filters, e) && Reaches(t, r, m)
  {
    hide Delivery.Run, Delivery.Inv, History, MatchesAny, Deliveries, Applies, Carried, Cluster.Flows, Cluster.Numbered;
    var s := Delivery.Run(n, steps[..i]);
    HistoryOfPrefix(n, steps, i);
    OkOfInv(s);
    RunSteps(n, steps, i);
    var conn := steps[i].conn;
    var w := s.conns[conn].worker;
    m := Cluster.MessageOf(s.net, w, e);
    PublishIsApplies(s, conn, e);
    StartsReaching(s, Publish(s, conn, e), w, m, r);
    PersistInRun(n, steps, i, i + 1);
  }

  lemma StartsReaching(s: Relay, t: Relay, w: nat, m: Cluster.Message, r: nat)
    requires Cluster.Inv(s.net) && RequestsOk(s) && RequestsOk(t) && r < |s.requests| && Applies(s, t, w, m)
    requires MatchesAny(s.requests[r].filters, m.event) && Carried(t.net, m) && !Carried(s.net, m)
    ensures r < |t.requests| && Reaches(t, r, m)
  {
    hide MatchesAny, Deliveries, Carried, Cluster.Flows, Cluster.Numbered;
    if s.requests[r].current {
      var v := WorkerOf(s, r);
      if v == w {
        AppliesDelivers(s, t, w, m, r);
      } else if v < |s.net.applied| && m in s.net.applied[v] {
        AppliedIsCarried(s.net, v, m);
      }
    }
  }

  /**
   An event that is not stored, published on an open connection of any worker, is sent live to every matching
   subscription of every worker that was registered before and is current to the end, once all is quiet.
   */
  lemma EphemeralReaches(n: nat, steps: seq<Step>, i: nat, e: Event, r: nat)
    requires History(Delivery.Run(n, steps).history) && Quiet(Delivery.Run(n, steps))
    requires PublishedAt(n, steps, i, e) && 20000 <= e.kind <= 29999
    requires r < |Delivery.Run(n, steps[..i]).requests| && r < |Delivery.Run(n, steps).requests|
    requires MatchesAny(Delivery.Run(n, steps[..i]).requests[r].filters, e)
    requires Delivery.Run(n, steps).requests[r].current
    ensures Sent(r, e, true) in Delivery.Run(n, steps).outbox
  {
    hide Delivery.Run, Delivery.Inv, History, MatchesAny, PublishedAt, Carried, Cluster.Flows, Cluster.Numbered;
    assert steps[..|steps|] == steps;
    IndexOfPublished(n, steps, i, e);
    var m := PublishedStarts(n, steps, i, e, r);
    ReachesInRun(n, steps, i + 1, |steps|, r, m);
    HistoryOfPrefix(n, steps, |steps|);
    var s := Delivery.Run(n, steps);
    OkOfInv(s);
    DrainedHasApplied(s.net, WorkerOf(s, r), m);
  }

  lemma IndexOfPublished(n: nat, steps: seq<Step>, i: nat, e: Event)
    requires PublishedAt(n, steps, i, e)
    ensures i < |steps|
  {
  }

  // ----- and nobody else -----

  /** Events that are not stored and were published on an open connection; only these are carried and sent. */
  ghost predicate OnlyPublished(s: Relay, e: Event, published: bool) {
    && (EventCarried(s.net, e) ==> published)
    && (forall x | x in s.outbox && x.event == e :: published)
  }

  lemma StoredIsNotEphemeral(s: Relay, e: Event)
    requires History(s.history) && Fired(s.history, e)
    ensures !(20000 <= e.kind <= 29999)
  {
    FiredIsNotEphemeral(s.history, e);
  }

  lemma PublishOnly(s: Relay, conn: nat, x: Event, e: Event, published: bool)
    requires Cluster.Inv(s.net) && RequestsOk(s) && OnlyPublished(s, e, published)
    requires x == e && conn < |s.conns| && s.conns[conn].open ==> published
    ensures OnlyPublished(Publish(s, conn, x), e, published)
  {
    hide Deliveries, Cluster.Flows, Cluster.Numbered, Carried;
    var t := Publish(s, conn, x);
    if conn < |s.conns| && s.conns[conn].open {
      var w := s.conns[conn].worker;
      forall m | Carried(t.net, m) ensures Carried(s.net, m) || m.event == x {
        PublishCarries(s.net, w, x, m);
      }
      DeliversOnly(s, w, x);
    }
  }

  lemma DeliversOnly(s: Relay, w: nat, x: Event)
    ensures forall y | y in Deliveries(s.conns, s.requests, w, x, |s.requests|) :: y.event == x
  {
    forall y | y in Deliveries(s.conns, s.requests, w, x, |s.requests|) ensures y.event == x {
      DeliveriesMean(s.conns, s.requests, w, x, |s.requests|, y);
    }
  }

  lemma ReceiveOnly(s: Relay, w: nat, e: Event, published: bool)
    requires Cluster.Inv(s.net) && OnlyPublished(s, e, published)
    ensures OnlyPublished(Next(s, Receive(w)), e, published)
  {
    hide Deliveries, Cluster.Flows, Cluster.Numbered;
    if w < |s.net.down| && s.net.down[w] != [] {
      var m := s.net.down[w][0];
      var d := Cluster.Next(s.net, Cluster.Receive(w));
      Cluster.StepKeepsInv(s.net, Cluster.Receive(w));
      assert m in d.applied[w] by {
        assert d.applied[w] == s.net.applied[w] + [m];
      }
      AppliedIsCarried(d, w, m);
      assert forall x :: Carried(d, x) <==> Carried(s.net, x);
      DeliversOnly(s, w, m.event);
    }
  }

  lemma StreamOnly(s: Relay, r: nat, e: Event, published: bool)
    requires Cluster.Shape(s.net) && StreamsStored(s) && History(s.history) && OnlyPublished(s, e, published)
    requires 20000 <= e.kind <= 29999
    ensures OnlyPublished(Next(s, Stream(r)), e, published)
  {
    hide History, EventCarried, FiredBy, Fired;
    if r < |s.requests| && s.requests[r].phase.Streaming? && s.requests[r].phase.queue != [] {
      var q := s.requests[r];
      var x := q.phase.queue[0];
      assert x in q.phase.queue;
      FiredPrefix(s.history, q.phase.at, x);
      StoredIsNotEphemeral(s, x);
    }
  }

  lemma StepOnly(s: Relay, step: Step, e: Event, published: bool)
    requires Delivery.Inv(s) && StreamsStored(s) && History(s.history) && 20000 <= e.kind <= 29999
    requires OnlyPublished(s, e, published)
    requires step.Ephemeral? && step.event == e && step.conn < |s.conns| && s.conns[step.conn].open ==> published
    ensures OnlyPublished(Next(s, step), e, published)
  {
    hide Covered, Counted, Cluster.Flows, Cluster.Numbered, Publish, Deliveries, StreamsStored, History;
    hide Answers, Pipeline, Count, Fired, OnlyPublished, RequestsOk;
    match step {
      case Resume(k) =>
        if k < |s.awaiting| {
          var p, u := s.awaiting[k], s.(awaiting := s.awaiting[..k] + s.awaiting[k + 1..]);
          StoredIsNotEphemeral(s, p.event);
          RequestsIgnoreAwaiting(s, u);
          SameWire(s, u, e, published);
          PublishOnly(u, p.conn, p.event, e, published);
        }
      case Ephemeral(x, conn) =>
        if IsEphemeral(x.kind) {
          PublishOnly(s, conn, x, e, published);
        }
      case Receive(w) => ReceiveOnly(s, w, e, published);
      case Stream(r) => StreamOnly(s, r, e, published);
      case _ =>
        IdleStep(s, step);
        SameWire(s, Next(s, step), e, published);
    }
  }

  lemma SameWire(s: Relay, t: Relay, e: Event, published: bool)
    requires OnlyPublished(s, e, published) && t.net.sent == s.net.sent && t.outbox == s.outbox
    ensures OnlyPublished(t, e, published)
  {
    assert forall m :: Carried(t.net, m) <==> Carried(s.net, m);
  }

  /** Some step before the k-th published the event on an open connection. */
  ghost predicate PublishedBefore(n: nat, steps: seq<Step>, k: nat, e: Event) {
    exists i: nat :: i < k && PublishedAt(n, steps, i, e)
  }

  lemma PublishedBeforeGrows(n: nat, steps: seq<Step>, k: nat, e: Event)
    ensures PublishedBefore(n, steps, k, e) ==> PublishedBefore(n, steps, k + 1, e)
    ensures PublishedAt(n, steps, k, e) ==> PublishedBefore(n, steps, k + 1, e)
  {
    hide PublishedAt;
  }

  /** What StepOnly asks of the state before step k. */
  lemma BeforeStep(n: nat, steps: seq<Step>, k: nat)
    requires k < |steps| && History(Delivery.Run(n, steps).history)
    ensures
      var s := Delivery.Run(n, steps[..k]);
      Delivery.Inv(s) && StreamsStored(s) && History(s.history)
  {
    hide Delivery.Run, Delivery.Inv, History, StreamsStored, LostForGood;
    HistoryOfPrefix(n, steps, k);
    RunEnds(n, steps[..k]);
  }

  lemma PublishesNow(n: nat, steps: seq<Step>, k: nat, e: Event)
    requires k < |steps|
    ensures
      var s, step := Delivery.Run(n, steps[..k]), steps[k];
      step.Ephemeral? && step.event == e && step.conn < |s.conns| && s.conns[step.conn].open
      ==> PublishedBefore(n, steps, k + 1, e)
  {
    hide Delivery.Run;
    var s, step := Delivery.Run(n, steps[..k]), steps[k];
    if step.Ephemeral? && step.event == e && step.conn < |s.conns| && s.conns[step.conn].open {
      LastPublishes(n, steps, k, e);
    }
  }

  lemma OnlyPublishedStep(n: nat, steps: seq<Step>, k: nat, e: Event)
    requires k < |steps| && History(Delivery.Run(n, steps).history) && 20000 <= e.kind <= 29999
    requires OnlyPublished(Delivery.Run(n, steps[..k]), e, PublishedBefore(n, steps, k, e))
    ensures OnlyPublished(Delivery.Run(n, steps[..k + 1]), e, PublishedBefore(n, steps, k + 1, e))
  {
    hide Delivery.Run, Delivery.Inv, History, Next, OnlyPublished, PublishedAt, PublishedBefore, StreamsStored;
    BeforeStep(n, steps, k);
    RunSteps(n, steps, k);
    PublishedBeforeGrows(n, steps, k, e);
    PublishesNow(n, steps, k, e);
    var s := Delivery.Run(n, steps[..k]);
    MorePublished(s, e, PublishedBefore(n, steps, k, e), PublishedBefore(n, steps, k + 1, e));
    StepOnly(s, steps[k], e, PublishedBefore(n, steps, k + 1, e));
  }

  lemma {:induction false} OnlyPublishedInRun(n: nat, steps: seq<Step>, k: nat, e: Event)
    requires k <= |steps| && History(Delivery.Run(n, steps).history) && 20000 <= e.kind <= 29999
    ensures OnlyPublished(Delivery.Run(n, steps[..k]), e, PublishedBefore(n, steps, k, e))
  {
    hide Delivery.Run, History, OnlyPublished, PublishedBefore;
    if k == 0 {
      NothingPublished(n, e, PublishedBefore(n, steps, 0, e));
      assert steps[..0] == [];
    } else {
      OnlyPublishedInRun(n, steps, k - 1, e);
      OnlyPublishedStep(n, steps, k - 1, e);
    }
  }

  lemma NothingPublished(n: nat, e: Event, published: bool)
    ensures OnlyPublished(Delivery.Run(n, []), e, published)
  {
    assert Delivery.Run(n, []) == Init(n);
    assert forall m :: !Carried(Init(n).net, m);
  }

  lemma LastPublishes(n: nat, steps: seq<Step>, i: nat, e: Event)
    requires i < |steps| && steps[i].Ephemeral? && steps[i].event == e
    requires steps[i].conn < |Delivery.Run(n, steps[..i]).conns|
    requires Delivery.Run(n, steps[..i]).conns[steps[i].conn].open
    ensures PublishedAt(n, steps, i, e)
  {
  }

  lemma MorePublished(s: Relay, e: Event, a: bool, b: bool)
    requires OnlyPublished(s, e, a) && (a ==> b)
    ensures OnlyPublished(s, e, b)
  {
  }

  /**
   Nobody gets an event that is not stored unless some step published it on an open connection: a publisher
   that has closed reaches neither a wire nor a subscription.
   */
  lemma EphemeralNeedsPublisher(n: nat, steps: seq<Step>, e: Event)
    requires History(Delivery.Run(n, steps).history) && 20000 <= e.kind <= 29999
    requires forall i: nat :: !PublishedAt(n, steps, i, e)
    ensures !EventCarried(Delivery.Run(n, steps).net, e)
    ensures forall x | x in Delivery.Run(n, steps).outbox :: x.event != e
  {
    hide Delivery.Run, History, PublishedAt, EventCarried;
    assert steps[..|steps|] == steps;
    OnlyPublishedInRun(n, steps, |steps|, e);
  }
}
