/** The subscriptions of one connection: admission of a REQ, its limits over every run, and live delivery. */
module Subscriptions {
  import opened Wrappers
  import opened Nostr

  datatype Subscription = Subscription(id: string, filters: seq<Filter>)

  /** What the relay sends to a client. */
  datatype Outgoing =
    | EventMessage(subId: string, event: Event)
    | Notice(text: string)
    | CommandResult(id: string, accepted: bool, text: string)
    | AuthMessage(challenge: string)

  // ----- the map, in insertion order -----

  predicate DistinctIds(subs: seq<Subscription>) {
    forall i, j | 0 <= i < j < |subs| :: subs[i].id != subs[j].id
  }

  predicate HasSub(subs: seq<Subscription>, id: string) {
    exists i | 0 <= i < |subs| :: subs[i].id == id
  }

  /** The filters under an id, none when there is no such subscription. */
  function Lookup(subs: seq<Subscription>, id: string): seq<Filter> {
    if subs == [] then [] else if subs[0].id == id then subs[0].filters else Lookup(subs[1..], id)
  }

  /** Map.set: replaces in place, or appends. */
  function Put(subs: seq<Subscription>, id: string, filters: seq<Filter>): seq<Subscription> {
    if HasSub(subs, id)
    then seq(|subs|, i requires 0 <= i < |subs| => if subs[i].id == id then Subscription(id, filters) else subs[i])
    else subs + [Subscription(id, filters)]
  }

  /** Map.delete */
  function Remove(subs: seq<Subscription>, id: string): seq<Subscription> {
    if subs == [] then [] else (if subs[0].id == id then [] else [subs[0]]) + Remove(subs[1..], id)
  }

  /** onSendEvent: one message for each matching subscription, in map order. */
  function LiveMessages(subs: seq<Subscription>, e: Event): seq<Outgoing> {
    if subs == [] then []
    else (if MatchesAny(subs[0].filters, e) then [EventMessage(subs[0].id, e)] else []) + LiveMessages(subs[1..], e)
  }

  /** uniqWith(equals): the first occurrence of each filter. */
  function Uniq(filters: seq<Filter>): seq<Filter> {
    if filters == [] then []
    else
      var kept, last := Uniq(filters[..|filters| - 1]), filters[|filters| - 1];
      if last in kept then kept else kept + [last]
  }

  // ----- admission -----

  datatype Limits = Limits(maxSubscriptions: Option<int>, maxFilters: Option<int>, maxIdLength: Option<int>)

  datatype Refusal = Duplicate | TooManySubscriptions | TooManyFilters | IdTooLong

  datatype TypeError = TypeError

  function OrZero(x: Option<int>): int {
    if x.Some? then x.value else 0
  }

  /** canSubscribe; with no subscription limits configured the last check reads a field of undefined. */
  function CanSubscribe(limits: Option<Limits>, subs: seq<Subscription>, id: string, filters: seq<Filter>):
    Result<Option<Refusal>, TypeError>
  {
    var existing := Lookup(subs, id);
    var maxSubscriptions := if limits.Some? then OrZero(limits.value.maxSubscriptions) else 0;
    var maxFilters := if limits.Some? then OrZero(limits.value.maxFilters) else 0;
    if existing != [] && filters == existing then Ok(Some(Duplicate))
    else if maxSubscriptions > 0 && existing == [] && |subs| + 1 > maxSubscriptions then Ok(Some(TooManySubscriptions))
    else if maxFilters > 0 && |filters| > maxFilters then Ok(Some(TooManyFilters))
    else if limits.None? then Err(TypeError.TypeError)
    else if limits.value.maxIdLength.Some? && |id| > limits.value.maxIdLength.value then Ok(Some(IdTooLong))
    else Ok(None)
  }

  datatype Step = Req(id: string, filters: seq<Filter>) | Close(id: string) | Live(event: Event) | Disconnect

  function Next(limits: Option<Limits>, subs: seq<Subscription>, step: Step): seq<Subscription> {
    match step
    case Req(id, filters) =>
      if CanSubscribe(limits, subs, id, Uniq(filters)) == Ok(None) then Put(subs, id, Uniq(filters)) else subs
    case Close(id) => Remove(subs, id)
    case Live(_) => subs
    case Disconnect => []
  }

  function Run(limits: Option<Limits>, steps: seq<Step>): seq<Subscription> {
    if steps == [] then [] else Next(limits, Run(limits, steps[..|steps| - 1]), steps[|steps| - 1])
  }

  // ----- limits over every run -----

  ghost predicate WithinLimits(limits: Limits, subs: seq<Subscription>) {
    && DistinctIds(subs)
    && (OrZero(limits.maxSubscriptions) > 0 ==> |subs| <= OrZero(limits.maxSubscriptions))
    && (OrZero(limits.maxFilters) > 0 ==> forall i | 0 <= i < |subs| :: |subs[i].filters| <= OrZero(limits.maxFilters))
    && (limits.maxIdLength.Some? ==> forall i | 0 <= i < |subs| :: |subs[i].id| <= limits.maxIdLength.value)
  }

  lemma {:induction false} LookupFound(subs: seq<Subscription>, id: string)
    ensures Lookup(subs, id) != [] ==> HasSub(subs, id)
    ensures DistinctIds(subs) ==> forall i | 0 <= i < |subs| && subs[i].id == id :: Lookup(subs, id) == subs[i].filters
  {
    if subs != [] {
      LookupFound(subs[1..], id);
      if HasSub(subs[1..], id) {
        var i :| 0 <= i < |subs[1..]| && subs[1..][i].id == id;
        assert subs[i + 1].id == id;
      }
      assert forall i | 0 < i < |subs| :: subs[i] == subs[1..][i - 1];
    }
  }

  lemma {:induction false} RemoveKeeps(subs: seq<Subscription>, id: string, x: Subscription)
    ensures x in Remove(subs, id) <==> x in subs && x.id != id
    ensures |Remove(subs, id)| <= |subs|
    ensures DistinctIds(subs) ==> DistinctIds(Remove(subs, id))
  {
    if subs != [] {
      RemoveKeeps(subs[1..], id, x);
      if DistinctIds(subs) {
        forall i | 0 <= i < |Remove(subs[1..], id)| ensures Remove(subs[1..], id)[i].id != subs[0].id {
          RemoveKeeps(subs[1..], id, Remove(subs[1..], id)[i]);
        }
      }
    }
  }

  /** Setting a subscription gives its id these filters and leaves every other subscription as it was. */
  lemma PutMeans(subs: seq<Subscription>, id: string, filters: seq<Filter>)
    ensures forall x :: x in Put(subs, id, filters) <==> x == Subscription(id, filters) || (x in subs && x.id != id)
    ensures DistinctIds(subs) ==> DistinctIds(Put(subs, id, filters))
    ensures |Put(subs, id, filters)| == |subs| + if HasSub(subs, id) then 0 else 1
  {
    var after := Put(subs, id, filters);
    forall i | 0 <= i < |subs|
      ensures after[i] == if subs[i].id == id then Subscription(id, filters) else subs[i]
    {
    }
    if !HasSub(subs, id) {
      assert after[|subs|] == Subscription(id, filters);
    }
  }

  /** What a map gives for an id: the filters of the one subscription with that id, or none. */
  lemma LookupIs(subs: seq<Subscription>, x: Subscription)
    requires DistinctIds(subs) && x in subs
    ensures Lookup(subs, x.id) == x.filters
  {
    LookupFound(subs, x.id);
  }

  lemma {:induction false} LookupMissing(subs: seq<Subscription>, id: string)
    requires forall x | x in subs :: x.id != id
    ensures Lookup(subs, id) == []
  {
    if subs != [] {
      assert subs[0] in subs;
      LookupMissing(subs[1..], id);
    }
  }

  /** Looking up after setting: the id has the new filters, and every other id what it had. */
  lemma LookupPut(subs: seq<Subscription>, id: string, filters: seq<Filter>, other: string)
    requires DistinctIds(subs)
    ensures Lookup(Put(subs, id, filters), other) == if other == id then filters else Lookup(subs, other)
  {
    hide Put, Lookup;
    PutMeans(subs, id, filters);
    var after := Put(subs, id, filters);
    if other == id {
      LookupIs(after, Subscription(id, filters));
    } else if x :| x in subs && x.id == other {
      LookupIs(subs, x);
      LookupIs(after, x);
    } else {
      LookupMissing(subs, other);
      LookupMissing(after, other);
    }
  }

  /** Looking up after deleting: the id has nothing, and every other id what it had. */
  lemma LookupRemove(subs: seq<Subscription>, id: string, other: string)
    requires DistinctIds(subs)
    ensures Lookup(Remove(subs, id), other) == if other == id then [] else Lookup(subs, other)
  {
    hide Remove, Lookup;
    var after := Remove(subs, id);
    forall x ensures x in after <==> x in subs && x.id != id {
      RemoveKeeps(subs, id, x);
    }
    RemoveKeeps(subs, id, Subscription(id, []));
    if x :| x in subs && x.id == other && other != id {
      LookupIs(subs, x);
      LookupIs(after, x);
    } else {
      LookupMissing(after, other);
      if other != id {
        LookupMissing(subs, other);
      }
    }
  }

  /** With no limits configured, no REQ is ever admitted. */
  lemma {:induction false} NothingWithoutLimits(steps: seq<Step>)
    ensures Run(None, steps) == []
  {
    if steps != [] {
      NothingWithoutLimits(steps[..|steps| - 1]);
    }
  }

  lemma ReqWithinLimits(limits: Limits, subs: seq<Subscription>, id: string, filters: seq<Filter>)
    requires WithinLimits(limits, subs) && CanSubscribe(Some(limits), subs, id, filters) == Ok(None)
    ensures WithinLimits(limits, Put(subs, id, filters))
  {
    LookupFound(subs, id);
  }

  /** Under fixed limits no run of REQ, CLOSE, broadcasts and disconnects exceeds them. */
  lemma {:induction false} LimitsHold(limits: Limits, steps: seq<Step>)
    ensures WithinLimits(limits, Run(Some(limits), steps))
  {
    hide CanSubscribe, Put, Uniq;
    if steps != [] {
      LimitsHold(limits, steps[..|steps| - 1]);
      var subs, step := Run(Some(limits), steps[..|steps| - 1]), steps[|steps| - 1];
      if step.Req? && CanSubscribe(Some(limits), subs, step.id, Uniq(step.filters)) == Ok(None) {
        ReqWithinLimits(limits, subs, step.id, Uniq(step.filters));
      }
      if step.Close? {
        CloseWithinLimits(limits, subs, step.id);
      }
    }
  }

  predicate WithFilters(subs: seq<Subscription>, id: string) {
    exists s | s in subs :: s.id == id && s.filters != []
  }

  lemma LookupIsThere(subs: seq<Subscription>, id: string, filters: seq<Filter>)
    requires DistinctIds(subs) && filters != []
    ensures Lookup(subs, id) == filters <==> Subscription(id, filters) in subs
    ensures Lookup(subs, id) != [] <==> WithFilters(subs, id)
  {
    hide Lookup;
    if s :| s in subs && s.id == id {
      LookupIs(subs, s);
      forall x | x in subs && x.id == id ensures x.filters == Lookup(subs, id) {
        LookupIs(subs, x);
      }
    } else {
      LookupMissing(subs, id);
    }
  }

  /**
   A REQ is admitted exactly when it is no repetition of a subscription with filters, a new subscription stays
   within the maximum, its filters do, and its id does; a maximum that is absent or not positive is no limit,
   except for the length of the id.
   */
  lemma AdmittedExactly(limits: Limits, subs: seq<Subscription>, id: string, filters: seq<Filter>)
    requires DistinctIds(subs)
    ensures CanSubscribe(Some(limits), subs, id, filters) == Ok(None) <==>
            && !(filters != [] && Subscription(id, filters) in subs)
            && (limits.maxSubscriptions.Some? && limits.maxSubscriptions.value > 0 && !WithFilters(subs, id) ==>
                  |subs| < limits.maxSubscriptions.value)
            && (limits.maxFilters.Some? && limits.maxFilters.value > 0 ==> |filters| <= limits.maxFilters.value)
            && (limits.maxIdLength.Some? ==> |id| <= limits.maxIdLength.value)
    ensures CanSubscribe(Some(limits), subs, id, filters) == Ok(Some(Duplicate))
            <==> filters != [] && Subscription(id, filters) in subs
    ensures CanSubscribe(Some(limits), subs, id, filters) == Ok(Some(TooManySubscriptions)) <==>
            && !(filters != [] && Subscription(id, filters) in subs) && !WithFilters(subs, id)
            && limits.maxSubscriptions.Some? && 0 < limits.maxSubscriptions.value <= |subs|
    ensures CanSubscribe(Some(limits), subs, id, filters) == Ok(Some(TooManyFilters)) ==>
            limits.maxFilters.Some? && 0 < limits.maxFilters.value < |filters|
    ensures CanSubscribe(Some(limits), subs, id, filters) == Ok(Some(IdTooLong)) ==>
            limits.maxIdLength.Some? && limits.maxIdLength.value < |id|
  {
    hide Lookup, WithFilters, DistinctIds;
    if filters != [] {
      LookupIsThere(subs, id, filters);
    } else {
      LookupIsThere(subs, id, [AnyFilter()]);
    }
  }

  function AnyFilter(): Filter {
    Filter(None, None, None, None, None, None, map[])
  }

  /** An admitted REQ is registered under its id with its distinct filters; a refused one changes nothing. */
  lemma ReqRegisters(limits: Limits, subs: seq<Subscription>, id: string, filters: seq<Filter>)
    requires DistinctIds(subs)
    ensures
      var after := Next(Some(limits), subs, Req(id, filters));
      if CanSubscribe(Some(limits), subs, id, Uniq(filters)) == Ok(None)
      then forall other :: Lookup(after, other) == if other == id then Uniq(filters) else Lookup(subs, other)
      else after == subs
  {
    hide CanSubscribe, Uniq, Lookup, Put, DistinctIds;
    forall other ensures Lookup(Put(subs, id, Uniq(filters)), other) ==
      if other == id then Uniq(filters) else Lookup(subs, other)
    {
      LookupPut(subs, id, Uniq(filters), other);
    }
  }

  /** A CLOSE takes away its id alone, a disconnect everything, and a broadcast nothing. */
  lemma OtherStepsOnMap(limits: Option<Limits>, subs: seq<Subscription>, id: string, other: string, e: Event)
    requires DistinctIds(subs)
    ensures Lookup(Next(limits, subs, Close(id)), other) == if other == id then [] else Lookup(subs, other)
    ensures Next(limits, subs, Live(e)) == subs && Next(limits, subs, Disconnect) == []
  {
    hide Lookup, Remove, DistinctIds;
    LookupRemove(subs, id, other);
  }

  lemma CloseWithinLimits(limits: Limits, subs: seq<Subscription>, id: string)
    requires WithinLimits(limits, subs)
    ensures WithinLimits(limits, Remove(subs, id))
  {
    var after := Remove(subs, id);
    forall i | 0 <= i < |after| ensures after[i] in subs {
      RemoveKeeps(subs, id, after[i]);
    }
    RemoveKeeps(subs, id, Subscription(id, []));
  }

  // ----- duplicate filters -----

  lemma {:induction false} UniqKeeps(filters: seq<Filter>, f: Filter)
    ensures f in Uniq(filters) <==> f in filters
    ensures |Uniq(filters)| <= |filters|
    ensures forall i, j | 0 <= i < j < |Uniq(filters)| :: Uniq(filters)[i] != Uniq(filters)[j]
  {
    if filters != [] {
      var front, last := filters[..|filters| - 1], filters[|filters| - 1];
      assert filters == front + [last];
      UniqKeeps(front, f);
    }
  }

  /** Dropping duplicate filters changes neither which events match nor, therefore, what is delivered. */
  lemma UniqMatches(filters: seq<Filter>, e: Event)
    ensures MatchesAny(Uniq(filters), e) <==> MatchesAny(filters, e)
  {
    hide Matches;
    forall f ensures f in Uniq(filters) <==> f in filters {
      UniqKeeps(filters, f);
    }
  }

  // ----- live delivery -----

  lemma {:induction false} LiveMessageFor(subs: seq<Subscription>, e: Event, m: Outgoing)
    ensures m in LiveMessages(subs, e)
            <==> exists i | 0 <= i < |subs| :: MatchesAny(subs[i].filters, e) && m == EventMessage(subs[i].id, e)
  {
    hide MatchesAny;
    if subs != [] {
      LiveMessageFor(subs[1..], e, m);
      if i :| 0 <= i < |subs| && MatchesAny(subs[i].filters, e) && m == EventMessage(subs[i].id, e) {
        if i > 0 {
          assert subs[1..][i - 1] == subs[i];
        }
      }
      if i :| 0 <= i < |subs[1..]| && MatchesAny(subs[1..][i].filters, e) && m == EventMessage(subs[1..][i].id, e) {
        assert subs[i + 1] == subs[1..][i];
      }
    }
  }

  lemma LiveNone(e: Event)
    ensures LiveMessages([], e) == []
  {
  }

  lemma {:induction false} LiveSnoc(subs: seq<Subscription>, last: Subscription, e: Event)
    ensures LiveMessages(subs + [last], e) ==
            LiveMessages(subs, e) + if MatchesAny(last.filters, e) then [EventMessage(last.id, e)] else []
  {
    hide MatchesAny;
    if subs == [] {
      assert subs + [last] == [last] && [last][1..] == [];
    } else {
      assert (subs + [last])[1..] == subs[1..] + [last];
      LiveSnoc(subs[1..], last, e);
    }
  }

  /** A live event is sent exactly once to each matching subscription and to no other. */
  lemma {:induction false} LiveOncePerMatch(subs: seq<Subscription>, e: Event, m: Outgoing)
    requires DistinctIds(subs)
    ensures multiset(LiveMessages(subs, e))[m] ==
            if exists i | 0 <= i < |subs| :: MatchesAny(subs[i].filters, e) && m == EventMessage(subs[i].id, e)
            then 1 else 0
  {
    hide MatchesAny;
    LiveMessageFor(subs, e, m);
    if subs != [] {
      var rest := LiveMessages(subs[1..], e);
      LiveOncePerMatch(subs[1..], e, m);
      LiveMessageFor(subs[1..], e, m);
      var first := if MatchesAny(subs[0].filters, e) then [EventMessage(subs[0].id, e)] else [];
      assert LiveMessages(subs, e) == first + rest;
      assert multiset(first + rest) == multiset(first) + multiset(rest);
      assert forall i | 0 <= i < |subs[1..]| :: subs[1..][i].id != subs[0].id;
    }
  }
}
