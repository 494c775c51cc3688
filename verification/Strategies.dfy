/** The event repository as a mutable object, and the five strategies that drive it. */
module Strategies {
  import opened Wrappers
  import opened Hex
  import opened Nostr
  import opened Sql
  import opened EventStore
  import opened StoreRuns
  import opened StoreTheorems

  // ----- what a strategy emits -----

  /** Messages to the client, and the broadcast signal, in the order a strategy emits them. */
  datatype Emission = Result(id: string, accepted: bool, text: string) | Broadcast(event: Event)

  class Socket {
    var emitted: seq<Emission>

    constructor ()
      ensures emitted == []
    {
      emitted := [];
    }

    method Emit(x: Emission)
      modifies this
      ensures emitted == old(emitted) + [x]
    {
      emitted := emitted + [x];
    }
  }

  // ----- the repository -----

  class EventRepository {
    var events: seq<Row>
    var eventTags: seq<TagRow>

    constructor ()
      ensures State() == EMPTY && Valid()
    {
      events, eventTags := [], [];
    }

    function State(): Store
      reads this
    {
      Store(events, eventTags)
    }

    ghost predicate Valid()
      reads this
    {
      WellFormed(State())
    }

    /** The trigger, row by row. */
    method ProcessEventTags(before: Option<Row>, after: Row)
      modifies this`eventTags
      ensures eventTags == AfterTrigger(old(eventTags), before, after)
    {
      hide Indexed, WithoutId;
      if before.Some? {
        eventTags := WithoutId(eventTags, before.value.eventId);
      }
      ghost var kept := eventTags;
      var i := 0;
      while i < |after.tags|
        invariant i <= |after.tags|
        invariant eventTags + IndexedTags(after.eventId, after.tags[i..])
               == kept + IndexedTags(after.eventId, after.tags)
      {
        var element := after.tags[i];
        ghost var rest := IndexedTags(after.eventId, after.tags[i + 1..]);
        assert after.tags[i..][1..] == after.tags[i + 1..];
        assert IndexedTags(after.eventId, after.tags[i..]) == IndexedTag(after.eventId, element) + rest;
        ghost var was := eventTags;
        if |element| >= 2 {
          var name, value := Indexed(element[0]), Indexed(element[1]);
          if |name| == 1 && value != "" {
            eventTags := eventTags + [TagRow(after.eventId, name, value)];
          }
        }
        assert eventTags == was + IndexedTag(after.eventId, element);
        assert was + (IndexedTag(after.eventId, element) + rest) == eventTags + rest;
        i := i + 1;
      }
    }

    method Append(row: Row)
      modifies this
      ensures State() == Store(old(events) + [row], AfterTrigger(old(eventTags), None, row))
    {
      events := events + [row];
      ProcessEventTags(None, row);
    }

    /** create: insert, ignoring any conflict */
    method Create(e: Event) returns (count: nat)
      requires Valid()
      modifies this
      ensures Valid()
      ensures (State(), count) == InsertIgnore(old(State()), RowFor(StoreRuns.Create(e)))
    {
      var row := RowOf(e, None);
      InsertIgnoreKeeps(State(), row);
      if HasId(events, row.eventId) || HasSlot(events, row) {
        return 0;
      }
      Append(row);
      return 1;
    }

    /** An UPDATE: every row the statement changes is rewritten and fires its trigger, in table order. */
    method Update(after: seq<Row>)
      requires |after| == |events|
      modifies this
      ensures State() == Store(after, FireTriggers(old(eventTags), old(events), after, |after|))
    {
      hide AfterTrigger, FireTriggers, WellFormed;
      ghost var before := events;
      FireNone(eventTags, before, after);
      var i := 0;
      while i < |events|
        invariant i <= |events| == |before|
        invariant forall k | 0 <= k < i :: events[k] == after[k]
        invariant forall k | i <= k < |before| :: events[k] == before[k]
        invariant eventTags == FireTriggers(old(eventTags), before, after, i)
      {
        FireOne(old(eventTags), before, after, i);
        if events[i] != after[i] {
          ProcessEventTags(Some(events[i]), after[i]);
          events := events[i := after[i]];
        }
        i := i + 1;
      }
      assert events == after;
    }

    method Upsert(e: Event, deduplication: Option<seq<string>>) returns (r: Wrappers.Result<nat, DbError>)
      requires Valid()
      modifies this
      ensures Valid()
      ensures
        match EventStore.Upsert(old(State()), UpsertRow(e, deduplication))
        case Ok(after) => (State(), r) == (after.0, Ok(after.1))
        case Err(error) => (State(), r) == (old(State()), Err(error))
    {
      hide IndexAgrees, AfterTrigger, FireTriggers;
      var row := UpsertRow(e, deduplication);
      hide UpsertRow;
      UpsertKeeps(State(), row);
      if !HasSlot(events, row) {
        if HasId(events, row.eventId) {
          return Err(UniqueViolation);
        }
        Append(row);
        return Ok(1);
      }
      if !exists i | 0 <= i < |events| :: SameSlot(events[i], row) && events[i].createdAt < row.createdAt {
        return Ok(0);
      }
      if exists i | 0 <= i < |events| :: !SameSlot(events[i], row) && events[i].eventId == row.eventId {
        return Err(UniqueViolation);
      }
      SlotRowUnique(events, row);
      Update(Merge(events, row));
      return Ok(1);
    }

    method DeleteByPubkeyAndIds(pubkey: string, ids: seq<string>)
      requires Valid()
      modifies this
      ensures Valid()
      ensures State() == SoftDelete(old(State()), ToBuffer(pubkey), Buffers(ids))
    {
      hide AfterTrigger, IndexAgrees, FireTriggers;
      SoftDeleteKeeps(State(), ToBuffer(pubkey), Buffers(ids));
      Update(Tombstoned(events, ToBuffer(pubkey), Buffers(ids)));
    }
  }

  lemma FireNone(index: seq<TagRow>, before: seq<Row>, after: seq<Row>)
    requires |before| == |after|
    ensures FireTriggers(index, before, after, 0) == index
  {
  }

  lemma FireOne(index: seq<TagRow>, before: seq<Row>, after: seq<Row>, n: nat)
    requires n < |before| == |after|
    ensures FireTriggers(index, before, after, n + 1) ==
            var rest := FireTriggers(index, before, after, n);
            if before[n] == after[n] then rest else AfterTrigger(rest, Some(before[n]), after[n])
  {
  }

  /** The row an upsert writes; without deduplication values it is keyed by author and kind. */
  function UpsertRow(e: Event, deduplication: Option<seq<string>>): Row {
    RowOf(e, Some(if deduplication.None? then [Text(e.pubkey), Number(e.kind)] else Texts(deduplication.value)))
  }

  // ----- the strategies -----

  /** The statements a strategy issues for an event, in order. */
  function StatementsOf(e: Event): seq<Statement> {
    match RouteOf(e.kind)
    case Replaceable => [Put(e)]
    case Parameterized => [Put(e)]
    case Ephemeral => []
    case Deleting => (if IdsToDelete(e.tags) == [] then [] else [Statement.Delete(e)]) + [Statement.Create(e)]
    case Regular => [Statement.Create(e)]
  }

  function RunFrom(s: Store, cs: seq<Statement>): Store
    decreases |cs|
  {
    if cs == [] then s else RunFrom(After(s, cs[0]), cs[1..])
  }

  /** The reply to a stored or duplicate event, and the broadcast of a stored one. */
  function Outcome(e: Event, count: nat): seq<Emission> {
    [Result(e.id, true, if count > 0 then "" else "duplicate:")] + if count > 0 then [Broadcast(e)] else []
  }

  /** The strategy's last statement, the one that stores. */
  function StoringOf(e: Event): Statement
    requires RouteOf(e.kind) != Ephemeral
  {
    if RouteOf(e.kind) in {Replaceable, Parameterized} then Put(e) else Statement.Create(e)
  }

  /** What is emitted when the strategy's last statement finds the store in this state. */
  function RepliesAt(s: Store, e: Event): seq<Emission> {
    if RouteOf(e.kind) == Ephemeral then [Result(e.id, true, ""), Broadcast(e)]
    else if Execute(s, StoringOf(e)).Ok? then Outcome(e, Count(s, StoringOf(e)))
    else if RouteOf(e.kind) == Replaceable then [Result(e.id, false, "rejected: event already exists")]
    else [Result(e.id, false, "error: unable to process event")]
  }

  /** What a strategy that runs undisturbed from this state emits. */
  function EmissionsOf(s: Store, e: Event): seq<Emission> {
    if RouteOf(e.kind) == Deleting && IdsToDelete(e.tags) != [] then RepliesAt(After(s, Statement.Delete(e)), e)
    else RepliesAt(s, e)
  }

  class EventStrategies {
    const webSocket: Socket
    const repository: EventRepository

    constructor (webSocket: Socket, repository: EventRepository)
      ensures this.webSocket == webSocket && this.repository == repository
    {
      this.webSocket, this.repository := webSocket, repository;
    }

    method Reply(e: Event, count: nat)
      modifies webSocket
      ensures webSocket.emitted == old(webSocket.emitted) + Outcome(e, count)
    {
      webSocket.Emit(Result(e.id, true, if count > 0 then "" else "duplicate:"));
      if count > 0 {
        webSocket.Emit(Broadcast(e));
      }
    }

    method ExecuteDefault(e: Event)
      requires repository.Valid() && RouteOf(e.kind) == Regular
      modifies webSocket, repository
      ensures repository.Valid() && repository.State() == RunFrom(old(repository.State()), StatementsOf(e))
      ensures webSocket.emitted == old(webSocket.emitted) + EmissionsOf(old(repository.State()), e)
    {
      hide InsertIgnore, WellFormed;
      var count := repository.Create(e);
      Reply(e, count);
    }

    method ExecuteEphemeral(e: Event)
      requires RouteOf(e.kind) == Ephemeral
      modifies webSocket
      ensures webSocket.emitted == old(webSocket.emitted) + EmissionsOf(repository.State(), e)
    {
      webSocket.Emit(Result(e.id, true, ""));
      webSocket.Emit(Broadcast(e));
    }

    method ExecuteDelete(e: Event)
      requires repository.Valid() && RouteOf(e.kind) == Deleting
      modifies webSocket, repository
      ensures repository.Valid() && repository.State() == RunFrom(old(repository.State()), StatementsOf(e))
      ensures webSocket.emitted == old(webSocket.emitted) + EmissionsOf(old(repository.State()), e)
    {
      hide InsertIgnore, SoftDelete, WellFormed, IsDeletableTag, ListsETags, IdsToDelete;
      var ids := CollectIds(e.tags);
      var s := repository.State();
      if ids != [] {
        repository.DeleteByPubkeyAndIds(e.pubkey, ids);
      }
      var count := repository.Create(e);
      Reply(e, count);
      DeleteStatements(s, e);
    }

    method ExecuteReplaceable(e: Event)
      requires repository.Valid() && RouteOf(e.kind) == Replaceable
      modifies webSocket, repository
      ensures repository.Valid() && repository.State() == RunFrom(old(repository.State()), StatementsOf(e))
      ensures webSocket.emitted == old(webSocket.emitted) + EmissionsOf(old(repository.State()), e)
    {
      hide EventStore.Upsert, WellFormed;
      var r := repository.Upsert(e, None);
      match r {
        case Ok(count) => Reply(e, count);
        case Err(_) => webSocket.Emit(Result(e.id, false, "rejected: event already exists"));
      }
    }

    /** Errors are not caught here: they reach the event message handler. */
    method ExecuteParameterized(e: Event) returns (r: Wrappers.Result<nat, DbError>)
      requires repository.Valid() && RouteOf(e.kind) == Parameterized
      modifies webSocket, repository
      ensures repository.Valid() && repository.State() == RunFrom(old(repository.State()), StatementsOf(e))
      ensures webSocket.emitted ==
        old(webSocket.emitted) + if r.Ok? then EmissionsOf(old(repository.State()), e) else []
      ensures r.Ok? <==> Execute(old(repository.State()), Put(e)).Ok?
    {
      hide EventStore.Upsert, WellFormed, Deduplication;
      r := repository.Upsert(e, Some(Deduplication(e.tags)));
      if r.Ok? {
        Reply(e, r.value);
      }
    }

    /**
     The end of EventMessageHandler.handleMessage: pick the strategy, run it, report what it throws.  From the
     tables of any run it leaves those of the run with the strategy's statements added.
     */
    method Dispatch(e: Event)
      requires repository.Valid()
      modifies webSocket, repository
      ensures forall h | old(repository.State()) == Run(h) :: repository.State() == Run(h + StatementsOf(e))
      ensures repository.Valid() && repository.State() == RunFrom(old(repository.State()), StatementsOf(e))
      ensures webSocket.emitted == old(webSocket.emitted) + EmissionsOf(old(repository.State()), e)
    {
      hide Execute, WellFormed, Run;
      ghost var before := repository.State();
      forall h | before == Run(h) ensures RunFrom(before, StatementsOf(e)) == Run(h + StatementsOf(e)) {
        RunFromIsRun(h, StatementsOf(e));
      }
      match RouteOf(e.kind) {
        case Replaceable => ExecuteReplaceable(e);
        case Ephemeral => ExecuteEphemeral(e);
        case Deleting => ExecuteDelete(e);
        case Parameterized =>
          var r := ExecuteParameterized(e);
          if r.Err? {
            webSocket.Emit(Result(e.id, false, "error: unable to process event"));
          }
        case Regular => ExecuteDefault(e);
      }
    }
  }

  /** The 64-digit lowercase hex texts that stand second in the e tags, and no others. */
  ghost predicate ListsETags(tags: seq<Tag>, ids: seq<string>) {
    forall id :: id in ids
      <==> |id| == 64 && IsLowerHex(id)
           && exists i | 0 <= i < |tags| :: |tags[i]| >= 2 && tags[i][0] == "e" && tags[i][1] == id
  }

  /** tags.reduce: the ids of the valid e tags */
  method CollectIds(tags: seq<Tag>) returns (ids: seq<string>)
    ensures ids == IdsToDelete(tags)
    ensures ListsETags(tags, ids)
  {
    ids := [];
    for i := 0 to |tags|
      invariant ids + IdsToDelete(tags[i..]) == IdsToDelete(tags)
    {
      assert tags[i..][1..] == tags[i + 1..];
      if IsDeletableTag(tags[i]) {
        ids := ids + [tags[i][1]];
      }
    }
    forall id ensures id in ids
      <==> |id| == 64 && IsLowerHex(id)
           && exists i | 0 <= i < |tags| :: |tags[i]| >= 2 && tags[i][0] == "e" && tags[i][1] == id
    {
      InIdsToDelete(tags, id);
    }
  }

  lemma DeleteStatements(s: Store, e: Event)
    requires RouteOf(e.kind) == Deleting
    ensures
      var first := if IdsToDelete(e.tags) == [] then s else After(s, Statement.Delete(e));
      RunFrom(s, StatementsOf(e)) == After(first, Statement.Create(e))
  {
    hide After;
    var c := Statement.Create(e);
    assert forall x :: RunFrom(x, [c]) == RunFrom(After(x, c), [c][1..]);
    assert [c][1..] == [];
    if IdsToDelete(e.tags) != [] {
      var d := Statement.Delete(e);
      assert [d, c][1..] == [c];
    }
  }

  /**
   In a run every accepted event is answered with OK true.  A new one, or one of kinds 20000 to 29999, gets an
   empty text and is broadcast after the reply; any other is a duplicate and is not.  New means that the run
   had received neither the event nor, for a slot, anything as new, whatever statements of other strategies
   ran before it, between its own statements included.
   */
  lemma RepliesInRuns(h: seq<Statement>, e: Event)
    requires if 20000 <= e.kind <= 29999 then History(h) else History(h + [StoringOf(e)])
    ensures RepliesAt(Run(h), e) ==
            if 20000 <= e.kind <= 29999 || !Beaten(h, StoringOf(e)) then [Result(e.id, true, ""), Broadcast(e)]
            else [Result(e.id, true, "duplicate:")]
    ensures !(20000 <= e.kind <= 29999) ==>
              (Broadcast(e) in RepliesAt(Run(h), e) <==> Fires(h + [StoringOf(e)], |h|))
  {
    hide Run, Execute, History, Count, Inv, Legal, Seen, Stores, Beaten;
    if RouteOf(e.kind) != Ephemeral {
      var c := StoringOf(e);
      UpsertsNeverViolate(h, c);
      LastLegal(h, c);
      Reachable(h);
      CountMeansNew(h, c, Run(h));
      SeenMeansReceived(h, c);
      OutcomeBroadcasts(e, Count(Run(h), c));
      assert (h + [c])[..|h|] == h;
    }
  }

  // ----- what a strategy leaves behind -----

  /** Which statements each kind leads to: none, one that stores, or a deletion first when ids are named. */
  lemma StatementsByKind(e: Event)
    ensures 20000 <= e.kind <= 29999 ==> StatementsOf(e) == []
    ensures e.kind in {0, 3, 41} || 10000 <= e.kind <= 19999 || 30000 <= e.kind <= 39999 ==> StatementsOf(e) == [Put(e)]
    ensures e.kind == 5 && (exists id :: id in IdsToDelete(e.tags)) ==>
              StatementsOf(e) == [Statement.Delete(e), Statement.Create(e)]
    ensures RouteOf(e.kind) == Regular || (e.kind == 5 && IdsToDelete(e.tags) == []) ==>
              StatementsOf(e) == [Statement.Create(e)]
    ensures RouteOf(e.kind) != Ephemeral ==>
              StatementsOf(e) != [] && StatementsOf(e)[|StatementsOf(e)| - 1] == StoringOf(e)
    ensures forall j | 0 <= j < |StatementsOf(e)| - 1 :: StatementsOf(e)[j].Delete?
  {
    hide IdsToDelete;
  }

  /** After its strategy the store has taken the event, or held something as new for its slot. */
  lemma DispatchStores(h: seq<Statement>, e: Event)
    requires RouteOf(e.kind) != Ephemeral && History(h + StatementsOf(e))
    ensures Seen(Run(h + StatementsOf(e)).events, StoringOf(e))
  {
    hide Run, Seen, History, StatementsOf;
    StatementsByKind(e);
    var all := h + StatementsOf(e);
    assert all[..|all|] == all && all[|all| - 1] == StoringOf(e);
    SeenAfterStatement(all, |all| - 1, |all|);
  }

  /** A deletion hides every stored event of its author that one of its e tags names. */
  lemma DeletionHides(h: seq<Statement>, e: Event, r: Row)
    requires e.kind == 5 && History(h + StatementsOf(e)) && r in Run(h).events
    requires ToNostrEvent(r).pubkey == e.pubkey && HasETag(e.tags, ToNostrEvent(r).id)
    ensures !Visible(Run(h + StatementsOf(e)).events, r.eventId)
  {
    hide Run, History, StatementsOf, ToNostrEvent, HasETag, RowFor;
    var all := h + StatementsOf(e);
    HistoryPrefix(all, |h|);
    assert all[..|h|] == h;
    var j := RowSource(h, r);
    RowEvent(h, j, r);
    InIdsToDelete(e.tags, ToNostrEvent(r).id);
    NamedIsListed(e, h[j]);
    StatementsByKind(e);
    assert all[|h|] == Statement.Delete(e) && all[j] == h[j];
    var rows := Run(all).events;
    forall k | 0 <= k < |rows| && rows[k].eventId == r.eventId ensures rows[k].deleted {
      var l := RowSource(all, rows[k]);
      KeysOfUndeleted(rows[k]);
      KeysOfUndeleted(r);
      SameIdSameRow(all, j, l);
      RowEvent(all, l, rows[k]);
      assert ReceivedAt(all, j, ToNostrEvent(rows[k])) && NamedAt(all, |h|, ToNostrEvent(rows[k]));
      TombstonesAreExact(all, rows[k]);
    }
  }

  lemma NamedIsListed(e: Event, c: Statement)
    requires Legal(c) && HasETag(e.tags, c.event.id)
    ensures c.event.id in IdsToDelete(e.tags)
  {
    InIdsToDelete(e.tags, c.event.id);
  }

  /** A new deletion event is itself visible afterwards, even one that names itself. */
  lemma DeletionIsKept(h: seq<Statement>, e: Event)
    requires e.kind == 5 && History(h + StatementsOf(e)) && !Beaten(h, Statement.Create(e))
    ensures Visible(Run(h + StatementsOf(e)).events, RowOf(e, None).eventId)
  {
    hide Run, History, StatementsOf, Execute, Inv, Seen;
    StatementsByKind(e);
    var all, c := h + StatementsOf(e), Statement.Create(e);
    var before := all[..|all| - 1];
    assert all == before + [c] && all[..|all|] == all;
    LastLegal(before, c);
    RunStep(all, |all| - 1);
    Reachable(before);
    SeenMeansReceived(before, c);
    assert forall j | |h| <= j < |before| :: before[j] == StatementsOf(e)[j - |h|];
    forall j | 0 <= j < |before| ensures !BeatenBy(before, j, c) {
      assert !BeatenBy(h, j, c);
      if j < |h| {
        assert before[j] == h[j];
      }
    }
    CountMeansNew(before, c, Run(before));
    var rows := Run(all).events;
    var k :| 0 <= k < |rows| && rows[k] == RowFor(c);
  }

  lemma OutcomeBroadcasts(e: Event, count: nat)
    ensures Broadcast(e) in Outcome(e, count) <==> count > 0
    ensures Outcome(e, count)[0] == Result(e.id, true, Outcome(e, count)[0].text)
  {
    if count > 0 {
      assert Outcome(e, count)[1] == Broadcast(e);
    }
  }

  lemma {:induction false} RunFromIsRun(h: seq<Statement>, cs: seq<Statement>)
    ensures RunFrom(Run(h), cs) == Run(h + cs)
    decreases |cs|
  {
    hide After;
    if cs == [] {
      assert h + cs == h;
    } else {
      assert (h + [cs[0]])[..|h|] == h && (h + [cs[0]]) + cs[1..] == h + cs;
      RunFromIsRun(h + [cs[0]], cs[1..]);
    }
  }
}
