/** The runs and the connection objects agree: what a broadcast delivers to one connection, and what its map holds. */
module LiveDelivery {
  import opened Wrappers
  import opened Nostr
  import opened Delivery
  import Cluster
  import Subscriptions

  /** The subscription map of a connection, as the current requests of a run say it. */
  function SubscriptionsOf(requests: seq<Request>, conn: nat, n: nat): seq<Subscriptions.Subscription>
    requires n <= |requests|
  {
    if n == 0 then []
    else
      var q := requests[n - 1];
      SubscriptionsOf(requests, conn, n - 1)
      + (if q.conn == conn && q.current then [Subscriptions.Subscription(q.subId, q.filters)] else [])
  }

  /** The messages a connection gets out of those sent. */
  function MessagesTo(requests: seq<Request>, conn: nat, sent: seq<Sent>): seq<Subscriptions.Outgoing> {
    if sent == [] then []
    else
      var x := sent[0];
      (if x.request < |requests| && requests[x.request].conn == conn
       then [Subscriptions.EventMessage(requests[x.request].subId, x.event)] else [])
      + MessagesTo(requests, conn, sent[1..])
  }

  lemma {:induction false} MessagesAppend(requests: seq<Request>, conn: nat, a: seq<Sent>, b: seq<Sent>)
    ensures MessagesTo(requests, conn, a + b) == MessagesTo(requests, conn, a) + MessagesTo(requests, conn, b)
  {
    if a == [] {
      assert a + b == b;
    } else {
      assert (a + b)[1..] == a[1..] + b;
      MessagesAppend(requests, conn, a[1..], b);
    }
  }

  lemma OneMessage(requests: seq<Request>, conn: nat, x: Sent)
    requires x.request < |requests|
    ensures MessagesTo(requests, conn, [x]) ==
            if requests[x.request].conn == conn then [Subscriptions.EventMessage(requests[x.request].subId, x.event)]
            else []
  {
    assert [x][1..] == [];
  }

  lemma DeliversHere(conns: seq<Conn>, q: Request, w: nat, e: Event, conn: nat)
    requires conn < |conns| && q.conn == conn
    ensures Delivers(conns, q, w, e)
            <==> q.current && conns[conn].open && conns[conn].worker == w && MatchesAny(q.filters, e)
  {
  }

  /** One request more: its message is there exactly when it belongs to the connection and delivers. */
  lemma MessagesStep(conns: seq<Conn>, requests: seq<Request>, w: nat, e: Event, conn: nat, n: nat)
    requires n < |requests|
    ensures MessagesTo(requests, conn, Deliveries(conns, requests, w, e, n + 1)) ==
            var heard := MessagesTo(requests, conn, Deliveries(conns, requests, w, e, n));
            if requests[n].conn == conn && Delivers(conns, requests[n], w, e)
            then heard + [Subscriptions.EventMessage(requests[n].subId, e)] else heard
  {
    hide Delivers;
    var before := Deliveries(conns, requests, w, e, n);
    var x := Sent(n, e, true);
    var heard := MessagesTo(requests, conn, before);
    assert before + [] == before && heard + [] == heard;
    MessagesAppend(requests, conn, before, [x]);
    OneMessage(requests, conn, x);
  }

  /** One request more: the live messages of the subscriptions gain its message when it is current and matches. */
  lemma LiveStep(requests: seq<Request>, e: Event, conn: nat, n: nat)
    requires n < |requests|
    ensures Subscriptions.LiveMessages(SubscriptionsOf(requests, conn, n + 1), e) ==
            var heard := Subscriptions.LiveMessages(SubscriptionsOf(requests, conn, n), e);
            if requests[n].conn == conn && requests[n].current && MatchesAny(requests[n].filters, e)
            then heard + [Subscriptions.EventMessage(requests[n].subId, e)] else heard
  {
    hide MatchesAny, Subscriptions.LiveMessages;
    var q, subs := requests[n], SubscriptionsOf(requests, conn, n);
    var heard := Subscriptions.LiveMessages(subs, e);
    assert subs + [] == subs && heard + [] == heard;
    if q.conn == conn && q.current {
      Subscriptions.LiveSnoc(subs, Subscriptions.Subscription(q.subId, q.filters), e);
    }
  }

  lemma NothingYet(conns: seq<Conn>, requests: seq<Request>, w: nat, e: Event, conn: nat)
    ensures MessagesTo(requests, conn, Deliveries(conns, requests, w, e, 0)) == []
    ensures Subscriptions.LiveMessages(SubscriptionsOf(requests, conn, 0), e) == []
  {
    Subscriptions.LiveNone(e);
  }

  /** A connection of another worker, or one that has closed, gets nothing. */
  lemma {:induction false} ElsewhereGetsNothing(
    conns: seq<Conn>, requests: seq<Request>, w: nat, e: Event, conn: nat, n: nat)
    requires n <= |requests| && conn < |conns| && !(conns[conn].open && conns[conn].worker == w)
    ensures MessagesTo(requests, conn, Deliveries(conns, requests, w, e, n)) == []
  {
    hide MatchesAny, MessagesTo, Deliveries, Delivers;
    if n == 0 {
      NothingYet(conns, requests, w, e, conn);
    } else {
      ElsewhereGetsNothing(conns, requests, w, e, conn, n - 1);
      MessagesStep(conns, requests, w, e, conn, n - 1);
      if requests[n - 1].conn == conn {
        DeliversHere(conns, requests[n - 1], w, e, conn);
      }
    }
  }

  /** An open connection of the worker gets the live messages of its subscriptions. */
  lemma {:induction false} HereGetsLiveMessages(
    conns: seq<Conn>, requests: seq<Request>, w: nat, e: Event, conn: nat, n: nat)
    requires n <= |requests| && conn < |conns| && conns[conn].open && conns[conn].worker == w
    ensures MessagesTo(requests, conn, Deliveries(conns, requests, w, e, n)) ==
            Subscriptions.LiveMessages(SubscriptionsOf(requests, conn, n), e)
  {
    hide MatchesAny, Subscriptions.LiveMessages, MessagesTo, Deliveries, Delivers, SubscriptionsOf;
    if n == 0 {
      NothingYet(conns, requests, w, e, conn);
    } else {
      HereGetsLiveMessages(conns, requests, w, e, conn, n - 1);
      MessagesStep(conns, requests, w, e, conn, n - 1);
      LiveStep(requests, e, conn, n - 1);
      if requests[n - 1].conn == conn {
        DeliversHere(conns, requests[n - 1], w, e, conn);
      }
    }
  }

  /** One broadcast, one connection: an open one gets the live messages of its subscriptions, any other nothing. */
  lemma DeliveriesAreLiveMessages(
    conns: seq<Conn>, requests: seq<Request>, w: nat, e: Event, conn: nat, n: nat)
    requires n <= |requests| && conn < |conns|
    ensures MessagesTo(requests, conn, Deliveries(conns, requests, w, e, n)) ==
            if conns[conn].open && conns[conn].worker == w
            then Subscriptions.LiveMessages(SubscriptionsOf(requests, conn, n), e) else []
  {
    hide MatchesAny, Subscriptions.LiveMessages, MessagesTo, Deliveries, SubscriptionsOf;
    if conns[conn].open && conns[conn].worker == w {
      HereGetsLiveMessages(conns, requests, w, e, conn, n);
    } else {
      ElsewhereGetsNothing(conns, requests, w, e, conn, n);
    }
  }

  // ----- the map of a connection over a run -----

  function MapOf(s: Relay, conn: nat): seq<Subscriptions.Subscription> {
    SubscriptionsOf(s.requests, conn, |s.requests|)
  }

  lemma {:induction false} RemoveSnoc(
    subs: seq<Subscriptions.Subscription>, x: Subscriptions.Subscription, id: string)
    ensures Subscriptions.Remove(subs + [x], id) == Subscriptions.Remove(subs, id) + if x.id == id then [] else [x]
  {
    if subs == [] {
      assert subs + [x] == [x] && [x][1..] == [];
    } else {
      var first := if subs[0].id == id then [] else [subs[0]];
      assert (subs + [x])[1..] == subs[1..] + [x];
      assert Subscriptions.Remove(subs + [x], id) == first + Subscriptions.Remove(subs[1..] + [x], id);
      RemoveSnoc(subs[1..], x, id);
    }
  }

  /** Ending subscriptions takes them out of that connection's map and leaves the other maps alone. */
  lemma {:induction false} EndWhereRemoves(requests: seq<Request>, k: nat, subId: Option<string>, conn: nat, n: nat)
    requires n <= |requests|
    ensures SubscriptionsOf(EndWhere(requests, k, subId), conn, n) ==
            if conn != k then SubscriptionsOf(requests, conn, n)
            else if subId.None? then []
            else Subscriptions.Remove(SubscriptionsOf(requests, conn, n), subId.value)
  {
    hide Subscriptions.Remove;
    if n == 0 {
      RemoveNone(subId);
    } else {
      EndWhereRemoves(requests, k, subId, conn, n - 1);
      var q, subs := requests[n - 1], SubscriptionsOf(requests, conn, n - 1);
      if q.conn == conn && q.current && subId.Some? {
        RemoveSnoc(subs, Subscriptions.Subscription(q.subId, q.filters), subId.value);
      } else if !(q.conn == conn && q.current) {
        assert subs + [] == subs;
      }
    }
  }

  lemma RemoveNone(subId: Option<string>)
    ensures subId.Some? ==> Subscriptions.Remove([], subId.value) == []
  {
  }

  lemma {:induction false} SubscriptionsPrefix(a: seq<Request>, b: seq<Request>, conn: nat, n: nat)
    requires n <= |a| && a <= b
    ensures SubscriptionsOf(a, conn, n) == SubscriptionsOf(b, conn, n)
  {
    if n > 0 {
      SubscriptionsPrefix(a, b, conn, n - 1);
    }
  }

  /** The map of a connection after a step; an id that is subscribed again moves to the end. */
  function MovedMap(s: Relay, conn: nat, step: Step): seq<Subscriptions.Subscription> {
    match step
    case Subscribe(k, id, filters) =>
      if k == conn && k < |s.conns| && s.conns[k].open
      then Subscriptions.Remove(MapOf(s, conn), id) + [Subscriptions.Subscription(id, filters)] else MapOf(s, conn)
    case Unsubscribe(k, id) => if k == conn then Subscriptions.Remove(MapOf(s, conn), id) else MapOf(s, conn)
    case Disconnect(k) => if k == conn && k < |s.conns| then [] else MapOf(s, conn)
    case _ => MapOf(s, conn)
  }

  lemma {:induction false} SameSubscriptions(a: seq<Request>, b: seq<Request>, conn: nat, n: nat)
    requires n <= |a| == |b|
    requires forall r | 0 <= r < |a| :: b[r] == a[r].(phase := b[r].phase)
    ensures SubscriptionsOf(a, conn, n) == SubscriptionsOf(b, conn, n)
  {
    if n > 0 {
      SameSubscriptions(a, b, conn, n - 1);
    }
  }

  lemma StepMovesMap(s: Relay, step: Step, conn: nat)
    requires Cluster.Shape(s.net)
    ensures MapOf(Next(s, step), conn) == MovedMap(s, conn, step)
  {
    hide SubscriptionsOf, Subscriptions.Remove, Deliveries, Pipeline, Answers;
    var t := Next(s, step);
    match step {
      case Subscribe(k, id, filters) =>
        if k < |s.conns| && s.conns[k].open {
          var ended := EndWhere(s.requests, k, Some(id));
          EndWhereRemoves(s.requests, k, Some(id), conn, |s.requests|);
          SubscribedMap(ended, Request(k, id, filters, true, Registered), conn);
        }
      case Unsubscribe(k, id) => EndWhereRemoves(s.requests, k, Some(id), conn, |s.requests|);
      case Disconnect(k) =>
        if k < |s.conns| {
          EndWhereRemoves(s.requests, k, None, conn, |s.requests|);
        }
      case _ => SameSubscriptions(s.requests, t.requests, conn, |s.requests|);
    }
  }

  lemma SubscribedMap(requests: seq<Request>, q: Request, conn: nat)
    requires q.current
    ensures SubscriptionsOf(requests + [q], conn, |requests| + 1) ==
            SubscriptionsOf(requests, conn, |requests|)
            + if q.conn == conn then [Subscriptions.Subscription(q.subId, q.filters)] else []
  {
    SubscriptionsPrefix(requests, requests + [q], conn, |requests|);
  }

  /** The entries after a REQ are those of Map.set, so the objects and the runs hold the same subscriptions. */
  lemma SubscribeIsPut(subs: seq<Subscriptions.Subscription>, id: string, filters: seq<Filter>)
    requires Subscriptions.DistinctIds(subs)
    ensures
      var after := Subscriptions.Remove(subs, id) + [Subscriptions.Subscription(id, filters)];
      && Subscriptions.DistinctIds(after)
      && forall x :: x in after <==> x in Subscriptions.Put(subs, id, filters)
  {
    hide Subscriptions.Remove, Subscriptions.Put;
    Subscriptions.PutMeans(subs, id, filters);
    forall x ensures x in Subscriptions.Remove(subs, id) <==> x in subs && x.id != id {
      Subscriptions.RemoveKeeps(subs, id, x);
    }
    Subscriptions.RemoveKeeps(subs, id, Subscriptions.Subscription(id, filters));
    var rest := Subscriptions.Remove(subs, id);
    assert forall i | 0 <= i < |rest| :: rest[i] in rest;
  }

  /** In every run the current requests of a connection have distinct ids, as the keys of its map do. */
  lemma {:induction false} MapsHaveDistinctIds(n: nat, steps: seq<Step>, conn: nat)
    ensures Subscriptions.DistinctIds(MapOf(Run(n, steps), conn))
  {
    if steps != [] {
      hide Next, Subscriptions.Remove, MapOf;
      var s, step := Run(n, steps[..|steps| - 1]), steps[|steps| - 1];
      MapsHaveDistinctIds(n, steps[..|steps| - 1], conn);
      StepMovesMap(s, step, conn);
      if step.Subscribe? {
        SubscribeIsPut(MapOf(s, conn), step.subId, step.filters);
      }
      if step.Unsubscribe? {
        Subscriptions.RemoveKeeps(MapOf(s, conn), step.subId, Subscriptions.Subscription(step.subId, []));
      }
    }
  }

  // ----- nothing else is sent -----

  /** A message that may be sent in this state: live for a current matching request, or the next of a stream. */
  ghost predicate Due(s: Relay, step: Step, x: Sent) {
    && x.request < |s.requests| && s.requests[x.request].conn < |s.conns|
    && s.conns[s.requests[x.request].conn].open
    && if x.live then s.requests[x.request].current && MatchesAny(s.requests[x.request].filters, x.event)
       else
         && step == Stream(x.request) && s.requests[x.request].phase.Streaming?
         && s.requests[x.request].phase.queue != [] && x.event == s.requests[x.request].phase.queue[0]
  }

  /** `t` has sent what `s` had, and then only messages that were due. */
  ghost predicate SendsDue(s: Relay, step: Step, sent: seq<Sent>) {
    s.outbox <= sent && forall i | |s.outbox| <= i < |sent| :: Due(s, step, sent[i])
  }

  lemma DeliveredAreDue(s: Relay, step: Step, w: nat, e: Event)
    ensures SendsDue(s, step, s.outbox + Deliveries(s.conns, s.requests, w, e, |s.requests|))
  {
    hide MatchesAny, Deliveries;
    var more := Deliveries(s.conns, s.requests, w, e, |s.requests|);
    forall x | x in more ensures Due(s, step, x) {
      DeliveriesMean(s.conns, s.requests, w, e, |s.requests|, x);
    }
    assert forall i | |s.outbox| <= i < |s.outbox + more| :: (s.outbox + more)[i] == more[i - |s.outbox|];
  }

  lemma PublishedAreDue(s: Relay, u: Relay, step: Step, conn: nat, e: Event)
    requires Cluster.Shape(s.net) && u == s.(awaiting := u.awaiting)
    ensures SendsDue(s, step, Publish(u, conn, e).outbox)
  {
    hide Deliveries, Due;
    if conn < |s.conns| && s.conns[conn].open {
      DeliveredAreDue(s, step, s.conns[conn].worker, e);
    }
  }

  /**
   Every message a step sends is due: its connection is open, and it is live for a current subscription with a
   matching filter, or the next stored event of its own stream.
   */
  lemma SendsAreDue(s: Relay, step: Step)
    requires Cluster.Shape(s.net)
    ensures SendsDue(s, step, Next(s, step).outbox)
  {
    hide Deliveries, Publish, Answers, Pipeline, MatchesAny;
    match step {
      case Resume(k) =>
        if k < |s.awaiting| {
          var p, u := s.awaiting[k], s.(awaiting := s.awaiting[..k] + s.awaiting[k + 1..]);
          PublishedAreDue(s, u, step, p.conn, p.event);
        }
      case Ephemeral(e, conn) => PublishedAreDue(s, s, step, conn, e);
      case Receive(w) =>
        if w < |s.net.down| && s.net.down[w] != [] {
          DeliveredAreDue(s, step, w, s.net.down[w][0].event);
        }
      case _ =>
    }
  }
}
