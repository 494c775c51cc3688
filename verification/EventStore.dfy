/**
 The events table, its two unique indexes, the derived tag index, and the three statements the event
 repository issues against them.
 */
module EventStore {
  import opened Wrappers
  import opened Hex
  import opened Nostr
  import opened Sql

  datatype Store = Store(events: seq<Row>, eventTags: seq<TagRow>)

  const EMPTY := Store([], [])

  datatype DbError = UniqueViolation

  /** The predicate of the partial unique index replaceable_events_idx. */
  predicate InSlotIndex(kind: int) {
    kind == 0 || kind == 3 || kind == 41 || 10000 <= kind < 20000 || 30000 <= kind < 40000
  }

  /** Two rows collide in the partial index; NULL deduplication values never do. */
  predicate SameSlot(a: Row, b: Row) {
    InSlotIndex(a.kind) && a.dedup.Some? && a.pubkey == b.pubkey && a.kind == b.kind && a.dedup == b.dedup
  }

  predicate HasId(rows: seq<Row>, id: Bytes) {
    exists i | 0 <= i < |rows| :: rows[i].eventId == id
  }

  predicate HasSlot(rows: seq<Row>, r: Row) {
    exists i | 0 <= i < |rows| :: SameSlot(rows[i], r)
  }

  // ----- the tag trigger -----

  function WithoutId(index: seq<TagRow>, id: Bytes): seq<TagRow> {
    if index == [] then []
    else (if index[0].eventId == id then [] else [index[0]]) + WithoutId(index[1..], id)
  }

  function TagsFor(index: seq<TagRow>, id: Bytes): seq<TagRow> {
    if index == [] then []
    else (if index[0].eventId == id then [index[0]] else []) + TagsFor(index[1..], id)
  }

  /** process_event_tags: clear the old row's tags, write the new row's. */
  function AfterTrigger(index: seq<TagRow>, before: Option<Row>, after: Row): seq<TagRow> {
    (if before.Some? then WithoutId(index, before.value.eventId) else index) + IndexedTags(after.eventId, after.tags)
  }

  /** The row triggers of an UPDATE that turned the first n rows of `before` into those of `after`. */
  function FireTriggers(index: seq<TagRow>, before: seq<Row>, after: seq<Row>, n: nat): seq<TagRow>
    requires n <= |before| == |after|
  {
    if n == 0 then index
    else
      var rest := FireTriggers(index, before, after, n - 1);
      if before[n - 1] == after[n - 1] then rest else AfterTrigger(rest, Some(before[n - 1]), after[n - 1])
  }

  // ----- statements -----

  /** INSERT ... ON CONFLICT DO NOTHING */
  function InsertIgnore(s: Store, r: Row): (Store, nat) {
    if HasId(s.events, r.eventId) || HasSlot(s.events, r) then (s, 0)
    else (Store(s.events + [r], AfterTrigger(s.eventTags, None, r)), 1)
  }

  /** The slot's row replaced; the merge keeps the key columns, which are equal anyway. */
  function Merge(rows: seq<Row>, r: Row): seq<Row> {
    seq(|rows|, i requires 0 <= i < |rows| => if SameSlot(rows[i], r) then r else rows[i])
  }

  /** INSERT ... ON CONFLICT (slot) DO UPDATE ... WHERE events.event_created_at < the new one */
  function Upsert(s: Store, r: Row): Result<(Store, nat), DbError> {
    if HasSlot(s.events, r) then
      if exists i | 0 <= i < |s.events| :: SameSlot(s.events[i], r) && s.events[i].createdAt < r.createdAt then
        if exists i | 0 <= i < |s.events| :: !SameSlot(s.events[i], r) && s.events[i].eventId == r.eventId
        then Err(UniqueViolation)
        else
          var merged := Merge(s.events, r);
          Ok((Store(merged, FireTriggers(s.eventTags, s.events, merged, |merged|)), 1))
      else Ok((s, 0))
    else if HasId(s.events, r.eventId) then Err(UniqueViolation)
    else Ok((Store(s.events + [r], AfterTrigger(s.eventTags, None, r)), 1))
  }

  predicate Condemned(r: Row, pubkey: Bytes, ids: seq<Bytes>) {
    r.pubkey == pubkey && r.eventId in ids && !r.deleted
  }

  function Tombstoned(rows: seq<Row>, pubkey: Bytes, ids: seq<Bytes>): seq<Row> {
    seq(|rows|, i requires 0 <= i < |rows| =>
      if Condemned(rows[i], pubkey, ids) then rows[i].(deleted := true) else rows[i])
  }

  /** UPDATE ... SET deleted_at = now() */
  function SoftDelete(s: Store, pubkey: Bytes, ids: seq<Bytes>): Store {
    var after := Tombstoned(s.events, pubkey, ids);
    Store(after, FireTriggers(s.eventTags, s.events, after, |after|))
  }

  // ----- invariant -----

  predicate UniqueIds(rows: seq<Row>) {
    forall i, j | 0 <= i < j < |rows| :: rows[i].eventId != rows[j].eventId
  }

  predicate UniqueSlots(rows: seq<Row>) {
    forall i, j | 0 <= i < j < |rows| :: !SameSlot(rows[i], rows[j])
  }

  /** For every id, the tag index holds exactly the tag rows of the event with that id, in order. */
  ghost predicate IndexAgrees(rows: seq<Row>, index: seq<TagRow>) {
    && (forall i | 0 <= i < |rows| :: TagsFor(index, rows[i].eventId) == IndexedTags(rows[i].eventId, rows[i].tags))
    && (forall id: Bytes :: !HasId(rows, id) ==> TagsFor(index, id) == [])
  }

  ghost predicate WellFormed(s: Store) {
    UniqueIds(s.events) && UniqueSlots(s.events) && IndexAgrees(s.events, s.eventTags)
  }

  lemma {:induction false} TagsForAppend(a: seq<TagRow>, b: seq<TagRow>, id: Bytes)
    ensures TagsFor(a + b, id) == TagsFor(a, id) + TagsFor(b, id)
  {
    if a == [] {
      assert a + b == b;
    } else {
      assert (a + b)[1..] == a[1..] + b;
      TagsForAppend(a[1..], b, id);
    }
  }

  lemma {:induction false} TagsForWithout(index: seq<TagRow>, gone: Bytes, id: Bytes)
    ensures TagsFor(WithoutId(index, gone), id) == if id == gone then [] else TagsFor(index, id)
  {
    if index != [] {
      TagsForWithout(index[1..], gone, id);
      var first := if index[0].eventId == gone then [] else [index[0]];
      TagsForAppend(first, WithoutId(index[1..], gone), id);
    }
  }

  lemma {:induction false} TagsForIndexed(id: Bytes, tags: seq<Tag>, other: Bytes)
    ensures TagsFor(IndexedTags(id, tags), other) == if id == other then IndexedTags(id, tags) else []
  {
    hide IndexedTag;
    if tags != [] {
      TagsForIndexed(id, tags[1..], other);
      TagsForAppend(IndexedTag(id, tags[0]), IndexedTags(id, tags[1..]), other);
      TagsForOne(id, tags[0], other);
    }
  }

  lemma TagsForOne(id: Bytes, t: Tag, other: Bytes)
    ensures TagsFor(IndexedTag(id, t), other) == if id == other then IndexedTag(id, t) else []
  {
    hide Indexed;
  }

  lemma {:induction false} TagsForMember(index: seq<TagRow>, id: Bytes, t: TagRow)
    ensures t in TagsFor(index, id) <==> t in index && t.eventId == id
  {
    if index != [] {
      TagsForMember(index[1..], id, t);
    }
  }

  /** What one firing of the trigger does to the tags of every id. */
  lemma TriggerEffect(index: seq<TagRow>, before: Option<Row>, after: Row, id: Bytes)
    ensures TagsFor(AfterTrigger(index, before, after), id) ==
            (if before.Some? && before.value.eventId == id then [] else TagsFor(index, id))
            + (if after.eventId == id then IndexedTags(id, after.tags) else [])
  {
    var kept := if before.Some? then WithoutId(index, before.value.eventId) else index;
    TagsForAppend(kept, IndexedTags(after.eventId, after.tags), id);
    TagsForIndexed(after.eventId, after.tags, id);
    if before.Some? {
      TagsForWithout(index, before.value.eventId, id);
    }
  }

  lemma InsertKeepsIndex(rows: seq<Row>, index: seq<TagRow>, r: Row)
    requires IndexAgrees(rows, index) && !HasId(rows, r.eventId)
    ensures IndexAgrees(rows + [r], AfterTrigger(index, None, r))
  {
    hide IndexedTags, TagsFor, AfterTrigger;
    forall id ensures TagsFor(AfterTrigger(index, None, r), id) ==
      TagsFor(index, id) + (if r.eventId == id then IndexedTags(id, r.tags) else [])
    {
      TriggerEffect(index, None, r, id);
    }
    forall id | !HasId(rows + [r], id) ensures !HasId(rows, id) && id != r.eventId {
      assert (rows + [r])[|rows|] == r;
      assert forall i | 0 <= i < |rows| :: (rows + [r])[i] == rows[i];
    }
  }

  /** Replacing row n: only its old and its new id are touched, and no other row has either. */
  lemma ReplaceKeepsIndex(rows: seq<Row>, index: seq<TagRow>, n: nat, r: Row)
    requires n < |rows| && IndexAgrees(rows, index)
    requires UniqueIds(rows)
    requires forall i | 0 <= i < |rows| && i != n :: rows[i].eventId != r.eventId
    ensures IndexAgrees(rows[n := r], AfterTrigger(index, Some(rows[n]), r))
  {
    hide IndexedTags, TagsFor, AfterTrigger;
    var after := AfterTrigger(index, Some(rows[n]), r);
    forall id ensures TagsFor(after, id) ==
      (if rows[n].eventId == id then [] else TagsFor(index, id))
      + (if r.eventId == id then IndexedTags(id, r.tags) else [])
    {
      TriggerEffect(index, Some(rows[n]), r, id);
    }
    if r.eventId != rows[n].eventId {
      assert !HasId(rows, r.eventId);
    }
    forall id | !HasId(rows[n := r], id) ensures TagsFor(after, id) == [] {
      assert rows[n := r][n] == r;
      assert forall i | 0 <= i < |rows| && i != n :: rows[n := r][i] == rows[i];
    }
  }

  lemma {:induction false} FiringKeepsIndex(index: seq<TagRow>, before: seq<Row>, after: seq<Row>, n: nat)
    requires n <= |before| == |after|
    requires UniqueIds(before) && UniqueIds(after)
    requires forall i, j | 0 <= i < |before| && 0 <= j < |before| && i != j :: before[i].eventId != after[j].eventId
    requires IndexAgrees(before, index)
    ensures IndexAgrees(after[..n] + before[n..], FireTriggers(index, before, after, n))
  {
    hide IndexAgrees, AfterTrigger;
    if n == 0 {
      assert after[..0] + before[0..] == before;
    } else {
      FiringKeepsIndex(index, before, after, n - 1);
      var rows := after[..n - 1] + before[n - 1..];
      assert rows[n - 1] == before[n - 1];
      assert rows[n - 1 := after[n - 1]] == after[..n] + before[n..];
      assert UniqueIds(rows);
      if before[n - 1] != after[n - 1] {
        ReplaceKeepsIndex(rows, FireTriggers(index, before, after, n - 1), n - 1, after[n - 1]);
      } else {
        assert rows == after[..n] + before[n..];
      }
    }
  }

  lemma InsertIgnoreKeeps(s: Store, r: Row)
    requires WellFormed(s)
    ensures WellFormed(InsertIgnore(s, r).0)
  {
    if !HasId(s.events, r.eventId) && !HasSlot(s.events, r) {
      InsertKeepsIndex(s.events, s.eventTags, r);
    }
  }

  lemma SlotRowUnique(rows: seq<Row>, r: Row)
    requires UniqueSlots(rows)
    ensures forall i, j | 0 <= i < |rows| && 0 <= j < |rows| && SameSlot(rows[i], r) && SameSlot(rows[j], r) :: i == j
  {
    forall i, j | 0 <= i < j < |rows| ensures !(SameSlot(rows[i], r) && SameSlot(rows[j], r)) {
      assert !SameSlot(rows[i], rows[j]);
    }
  }

  lemma MergeKeepsKeys(rows: seq<Row>, r: Row)
    requires UniqueIds(rows) && UniqueSlots(rows)
    requires forall i | 0 <= i < |rows| && !SameSlot(rows[i], r) :: rows[i].eventId != r.eventId
    ensures UniqueIds(Merge(rows, r)) && UniqueSlots(Merge(rows, r))
  {
    var merged := Merge(rows, r);
    forall i, j | 0 <= i < j < |rows|
      ensures merged[i].eventId != merged[j].eventId && !SameSlot(merged[i], merged[j])
    {
      assert !SameSlot(rows[i], rows[j]);
    }
  }

  lemma UpsertKeeps(s: Store, r: Row)
    requires WellFormed(s)
    ensures Upsert(s, r).Ok? ==> WellFormed(Upsert(s, r).value.0)
  {
    hide IndexAgrees, FireTriggers, AfterTrigger;
    if Upsert(s, r).Ok? && Upsert(s, r).value.1 == 1 {
      if HasSlot(s.events, r) {
        var merged := Merge(s.events, r);
        MergeKeepsKeys(s.events, r);
        SlotRowUnique(s.events, r);
        forall i, j | 0 <= i < |s.events| && 0 <= j < |s.events| && i != j
          ensures s.events[i].eventId != merged[j].eventId
        {
          assert UniqueIds(s.events);
        }
        FiringKeepsIndex(s.eventTags, s.events, merged, |merged|);
        assert merged[..|merged|] + s.events[|merged|..] == merged;
      } else {
        InsertKeepsIndex(s.events, s.eventTags, r);
      }
    }
  }

  lemma SoftDeleteKeeps(s: Store, pubkey: Bytes, ids: seq<Bytes>)
    requires WellFormed(s)
    ensures WellFormed(SoftDelete(s, pubkey, ids))
  {
    hide IndexAgrees, FireTriggers;
    var after := Tombstoned(s.events, pubkey, ids);
    assert forall i | 0 <= i < |after| :: after[i].eventId == s.events[i].eventId;
    assert UniqueSlots(after);
    FiringKeepsIndex(s.eventTags, s.events, after, |after|);
    assert after[..|after|] + s.events[|after|..] == after;
  }
}
