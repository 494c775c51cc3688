/**
 Runs of the event store.  A run is any sequence of the statements the five strategies issue, so every
 interleaving of concurrent strategies is one.
 */
module StoreRuns {
  import opened Wrappers
  import opened Hex
  import opened Nostr
  import opened Sql
  import opened EventStore

  // ----- dispatch and keys -----

  datatype Route = Replaceable | Ephemeral | Deleting | Parameterized | Regular

  /** eventStrategyFactory */
  function RouteOf(kind: int): Route {
    if IsReplaceable(kind) then Replaceable
    else if IsEphemeral(kind) then Ephemeral
    else if kind == DELETE then Deleting
    else if IsParameterizedReplaceable(kind) then Parameterized
    else Regular
  }

  predicate IsTagOf(t: Tag, name: string) {
    |t| >= 2 && t[0] == name
  }

  /** tags.find(tag => tag.length >= 2 && tag[0] === name) */
  function FirstTag(tags: seq<Tag>, name: string): Option<Tag> {
    if tags == [] then None
    else if IsTagOf(tags[0], name) then Some(tags[0])
    else FirstTag(tags[1..], name)
  }

  /** The deduplication values of a parameterized event: all values of its first usable d tag. */
  function Deduplication(tags: seq<Tag>): seq<string> {
    match FirstTag(tags, "d")
    case Some(t) => if |t| >= 1 then t[1..] else []
    case None => [""]
  }

  function Texts(values: seq<string>): seq<Json> {
    seq(|values|, i requires 0 <= i < |values| => Text(values[i]))
  }

  function DedupOf(e: Event): seq<Json> {
    if RouteOf(e.kind) == Parameterized then Texts(Deduplication(e.tags)) else [Text(e.pubkey), Number(e.kind)]
  }

  predicate IsDeletableTag(t: Tag) {
    |t| >= 2 && t[0] == "e" && |t[1]| == 64 && IsLowerHex(t[1])
  }

  /** The ids named by the valid e tags, in order. */
  function IdsToDelete(tags: seq<Tag>): seq<string> {
    if tags == [] then []
    else (if IsDeletableTag(tags[0]) then [tags[0][1]] else []) + IdsToDelete(tags[1..])
  }

  /** The ids to delete are exactly the 64-digit lowercase hex texts that stand second in an e tag. */
  lemma {:induction false} InIdsToDelete(tags: seq<Tag>, id: string)
    ensures id in IdsToDelete(tags)
            <==> |id| == 64 && IsLowerHex(id)
                 && exists i | 0 <= i < |tags| :: |tags[i]| >= 2 && tags[i][0] == "e" && tags[i][1] == id
  {
    hide IsLowerHex;
    if tags != [] {
      InIdsToDelete(tags[1..], id);
      assert forall i | 0 < i < |tags| :: tags[i] == tags[1..][i - 1];
      if i :| 0 <= i < |tags| && |tags[i]| >= 2 && tags[i][0] == "e" && tags[i][1] == id {
        if i > 0 {
          assert tags[1..][i - 1] == tags[i];
        }
      }
    }
  }

  // ----- what routes and keys are, in literals -----

  /** Each route by its kinds. */
  lemma RoutesByKind(kind: int)
    ensures RouteOf(kind) == Replaceable
            <==> kind == 0 || kind == 3 || kind == 41 || 10000 <= kind <= 19999
    ensures RouteOf(kind) == Ephemeral <==> 20000 <= kind <= 29999
    ensures RouteOf(kind) == Deleting <==> kind == 5
    ensures RouteOf(kind) == Parameterized <==> 30000 <= kind <= 39999
    ensures IsEphemeral(kind) <==> 20000 <= kind <= 29999
  {
  }

  /** Tag i is the first of two entries or more whose first entry is the name. */
  predicate FirstNamed(tags: seq<Tag>, name: string, i: int) {
    && 0 <= i < |tags| && |tags[i]| >= 2 && tags[i][0] == name
    && forall j | 0 <= j < i :: !(|tags[j]| >= 2 && tags[j][0] == name)
  }

  predicate NoneNamed(tags: seq<Tag>, name: string) {
    forall j | 0 <= j < |tags| :: !(|tags[j]| >= 2 && tags[j][0] == name)
  }

  lemma {:induction false} FirstTagIsFirst(tags: seq<Tag>, name: string)
    ensures NoneNamed(tags, name) ==> FirstTag(tags, name) == None
    ensures forall i | FirstNamed(tags, name, i) :: FirstTag(tags, name) == Some(tags[i])
  {
    if tags != [] {
      var rest := tags[1..];
      FirstTagIsFirst(rest, name);
      assert forall j | 0 < j < |tags| :: tags[j] == rest[j - 1];
      assert forall j | 0 <= j < |rest| :: rest[j] == tags[j + 1];
      if NoneNamed(tags, name) {
        assert NoneNamed(rest, name);
      }
      forall i | FirstNamed(tags, name, i) ensures FirstTag(tags, name) == Some(tags[i]) {
        if i > 0 {
          assert tags[0] == tags[0];
          assert FirstNamed(rest, name, i - 1);
        }
      }
    }
  }

  /** The values of a parameterized event: what follows "d" in its first usable d tag, or one empty text. */
  ghost predicate DValues(tags: seq<Tag>, values: seq<string>) {
    if NoneNamed(tags, "d") then values == [""]
    else exists i :: FirstNamed(tags, "d", i) && tags[i] == ["d"] + values
  }

  lemma {:induction false} FirstNamedExists(tags: seq<Tag>, name: string) returns (i: nat)
    requires !NoneNamed(tags, name)
    ensures FirstNamed(tags, name, i)
  {
    i := 0;
    while !(|tags[i]| >= 2 && tags[i][0] == name)
      invariant i < |tags|
      invariant forall j | 0 <= j < i :: !(|tags[j]| >= 2 && tags[j][0] == name)
      decreases |tags| - i
    {
      i := i + 1;
    }
  }

  lemma DeduplicationIs(tags: seq<Tag>, values: seq<string>)
    ensures DValues(tags, values) <==> values == Deduplication(tags)
  {
    FirstTagIsFirst(tags, "d");
    if !NoneNamed(tags, "d") {
      var i := FirstNamedExists(tags, "d");
      assert tags[i] == ["d"] + tags[i][1..];
      assert (["d"] + values)[1..] == values;
      forall k | FirstNamed(tags, "d", k) ensures k == i {
      }
    }
  }

  /**
   The deduplication column an upsert writes: for kinds 30000 to 39999 the texts after "d" in the first
   usable d tag, or one empty text; for the other upserted kinds the author and the kind.
   */
  lemma DedupColumn(c: Statement, values: seq<string>)
    requires c.Put? && Legal(c) && DValues(c.event.tags, values)
    ensures RowFor(c).dedup.Some?
    ensures 30000 <= c.event.kind <= 39999 ==>
              |RowFor(c).dedup.value| == |values|
              && forall k | 0 <= k < |values| :: RowFor(c).dedup.value[k] == Text(values[k])
    ensures !(30000 <= c.event.kind <= 39999) ==>
              RowFor(c).dedup.value == [Text(c.event.pubkey), Number(c.event.kind)]
  {
    hide Deduplication, ToBuffer;
    DeduplicationIs(c.event.tags, values);
    RoutesByKind(c.event.kind);
  }

  // ----- statements and runs -----

  datatype Statement = Create(event: Event) | Put(event: Event) | Delete(event: Event)

  predicate Legal(c: Statement) {
    && ValidEvent(c.event)
    && match c
       case Create(e) => RouteOf(e.kind) in {Regular, Deleting}
       case Put(e) => RouteOf(e.kind) in {Replaceable, Parameterized}
       case Delete(e) => RouteOf(e.kind) == Deleting
  }

  /** The row a storing statement tries to write. */
  function RowFor(c: Statement): Row {
    RowOf(c.event, if c.Put? then Some(DedupOf(c.event)) else None)
  }

  /** The store after a statement, and the row count the driver reports for a storing one. */
  function Execute(s: Store, c: Statement): Result<(Store, nat), DbError> {
    match c
    case Create(_) => Ok(InsertIgnore(s, RowFor(c)))
    case Put(_) => Upsert(s, RowFor(c))
    case Delete(e) => Ok((SoftDelete(s, ToBuffer(e.pubkey), Buffers(IdsToDelete(e.tags))), 0))
  }

  /** A statement that fails changes nothing. */
  function After(s: Store, c: Statement): Store {
    match Execute(s, c)
    case Ok(r) => r.0
    case Err(_) => s
  }

  function Run(h: seq<Statement>): Store {
    if h == [] then EMPTY else After(Run(h[..|h| - 1]), h[|h| - 1])
  }

  /** A legal history; an event id is a hash, so it determines its event. */
  ghost predicate History(h: seq<Statement>) {
    && (forall i | 0 <= i < |h| :: Legal(h[i]))
    && (forall i, j | 0 <= i < |h| && 0 <= j < |h| && h[i].event.id == h[j].event.id :: h[i].event == h[j].event)
  }

  lemma HistoryPrefix(h: seq<Statement>, n: nat)
    requires History(h) && n <= |h|
    ensures History(h[..n])
  {
    assert forall i | 0 <= i < n :: h[..n][i] == h[i];
  }

  /** The strategies that upsert are the ones whose kinds the partial index covers. */
  lemma IndexCoversUpserts(kind: int)
    ensures InSlotIndex(kind) <==> RouteOf(kind) in {Replaceable, Parameterized}
  {
  }

  // ----- where rows come from -----

  function Undeleted(r: Row): Row {
    r.(deleted := false)
  }

  ghost predicate Source(h: seq<Statement>, r: Row, j: int) {
    0 <= j < |h| && !h[j].Delete? && Undeleted(r) == RowFor(h[j])
  }

  ghost predicate HasSource(h: seq<Statement>, r: Row) {
    exists j :: Source(h, r, j)
  }

  ghost predicate Sourced(h: seq<Statement>, rows: seq<Row>) {
    forall i | 0 <= i < |rows| :: HasSource(h, rows[i])
  }

  /** Statement j put the greatest timestamp of its slot, and was the first to put it. */
  ghost predicate Wins(h: seq<Statement>, j: int) {
    && 0 <= j < |h| && h[j].Put?
    && forall k | 0 <= k < |h| && h[k].Put? && SameSlot(RowFor(h[k]), RowFor(h[j])) ::
         && h[k].event.createdAt <= h[j].event.createdAt
         && (k < j ==> h[k].event.createdAt < h[j].event.createdAt)
  }

  /** Every row in a slot is its winner, every slot written to has a row, and every created event has one. */
  ghost predicate Settled(h: seq<Statement>, rows: seq<Row>) {
    && (forall i | 0 <= i < |rows| && rows[i].dedup.Some? :: exists j :: Wins(h, j) && Source(h, rows[i], j))
    && (forall j | 0 <= j < |h| && h[j].Put? :: HasSlot(rows, RowFor(h[j])))
    && (forall j | 0 <= j < |h| && h[j].Create? :: exists i | 0 <= i < |rows| :: Source(h, rows[i], j))
  }

  ghost predicate Inv(h: seq<Statement>, s: Store) {
    WellFormed(s) && Sourced(h, s.events) && Settled(h, s.events)
  }

  lemma SameIdSameRow(h: seq<Statement>, j: nat, k: nat)
    requires History(h) && j < |h| && k < |h| && !h[j].Delete? && !h[k].Delete?
    requires RowFor(h[j]).eventId == RowFor(h[k]).eventId
    ensures RowFor(h[j]) == RowFor(h[k]) && h[j] == h[k]
  {
    hide ToBuffer, IsLowerHex;
    assert Legal(h[j]) && Legal(h[k]);
    ToBufferInjective(h[j].event.id, h[k].event.id);
  }

  lemma PutRowInSlot(c: Statement)
    requires Legal(c) && c.Put?
    ensures SameSlot(RowFor(c), RowFor(c))
  {
    hide ValidEvent, DedupOf;
    IndexCoversUpserts(c.event.kind);
  }

  /** A row with the id of a put event sits in that event's slot. */
  lemma SameIdSameSlot(h: seq<Statement>, c: Statement, s: Store, i: nat)
    requires History(h + [c]) && c.Put? && Sourced(h, s.events)
    requires i < |s.events| && s.events[i].eventId == RowFor(c).eventId
    ensures SameSlot(s.events[i], RowFor(c)) && Undeleted(s.events[i]) == RowFor(c)
  {
    hide SameSlot, RowFor, Legal;
    var j :| Source(h, s.events[i], j);
    var all := h + [c];
    assert all[j] == h[j] && all[|h|] == c && Legal(all[|h|]);
    assert Undeleted(s.events[i]).eventId == s.events[i].eventId;
    SameIdSameRow(all, j, |h|);
    PutRowInSlot(c);
    SlotIgnoresDeleted(s.events[i], RowFor(c));
  }

  lemma SlotIgnoresDeleted(r: Row, x: Row)
    ensures SameSlot(r, x) == SameSlot(Undeleted(r), x) && SameSlot(x, r) == SameSlot(x, Undeleted(r))
  {
  }

  /** The unique violation the replaceable strategy guards against cannot occur in a run. */
  lemma NoUniqueViolation(h: seq<Statement>, c: Statement, s: Store)
    requires History(h + [c]) && Sourced(h, s.events)
    ensures Execute(s, c).Ok?
  {
    hide SameSlot, RowFor, Sourced, History;
    if c.Put? {
      forall i | 0 <= i < |s.events| && s.events[i].eventId == RowFor(c).eventId
        ensures SameSlot(s.events[i], RowFor(c))
      {
        SameIdSameSlot(h, c, s, i);
      }
    }
  }

  // ----- each statement keeps the invariant -----

  lemma SourceExtends(h: seq<Statement>, c: Statement, r: Row, j: int)
    requires Source(h, r, j)
    ensures Source(h + [c], r, j)
  {
  }

  lemma WinsExtends(h: seq<Statement>, c: Statement, j: int)
    requires Wins(h, j)
    requires c.Put? && SameSlot(RowFor(c), RowFor(h[j])) ==> c.event.createdAt <= h[j].event.createdAt
    ensures Wins(h + [c], j)
  {
    hide SameSlot, RowFor;
  }

  /** Rows that agree up to the tombstone flag have the same sources, winners and slots. */
  ghost predicate SameUpToDeleted(a: seq<Row>, b: seq<Row>) {
    |a| == |b| && forall i | 0 <= i < |a| :: Undeleted(a[i]) == Undeleted(b[i])
  }

  lemma SlotOfUndeleted(a: seq<Row>, b: seq<Row>, r: Row)
    requires SameUpToDeleted(a, b) && HasSlot(a, r)
    ensures HasSlot(b, r)
  {
    var i :| 0 <= i < |a| && SameSlot(a[i], r);
    SlotIgnoresDeleted(a[i], r);
    SlotIgnoresDeleted(b[i], r);
  }

  /** A statement that stores nothing new keeps provenance, provided the slot or id it names is taken. */
  lemma NothingNew(h: seq<Statement>, c: Statement, a: seq<Row>, b: seq<Row>)
    requires Sourced(h, a) && Settled(h, a) && SameUpToDeleted(a, b)
    requires c.Put? ==> HasSlot(a, RowFor(c))
    requires c.Put? ==> forall i | 0 <= i < |a| && SameSlot(a[i], RowFor(c)) :: c.event.createdAt <= a[i].createdAt
    requires c.Create? ==> exists i | 0 <= i < |a| :: Undeleted(a[i]) == RowFor(c)
    ensures Sourced(h + [c], b) && Settled(h + [c], b)
  {
    hide SameSlot, RowFor, Wins, HasSlot;
    var all := h + [c];
    forall i | 0 <= i < |b| ensures HasSource(all, b[i]) {
      assert HasSource(h, a[i]);
      var j :| Source(h, a[i], j);
      assert Source(all, b[i], j);
    }
    forall i | 0 <= i < |b| && b[i].dedup.Some? ensures exists j :: Wins(all, j) && Source(all, b[i], j) {
      assert Undeleted(a[i]).dedup == Undeleted(b[i]).dedup;
      var j :| Wins(h, j) && Source(h, a[i], j);
      if c.Put? {
        WinnerBeats(h, c, a, i, j);
      }
      WinsExtends(h, c, j);
      assert Source(all, b[i], j);
    }
    forall j | 0 <= j < |all| && all[j].Put? ensures HasSlot(b, RowFor(all[j])) {
      SlotOfUndeleted(a, b, RowFor(all[j]));
    }
    forall j | 0 <= j < |all| && all[j].Create? ensures exists i | 0 <= i < |b| :: Source(all, b[i], j) {
      if j < |h| {
        var i :| 0 <= i < |a| && Source(h, a[i], j);
        assert Source(all, b[i], j);
      } else {
        var i :| 0 <= i < |a| && Undeleted(a[i]) == RowFor(c);
        assert Source(all, b[i], j);
      }
    }
  }

  lemma SlotSymmetric(a: Row, b: Row)
    ensures SameSlot(a, b) == SameSlot(b, a)
  {
  }

  lemma WinnerBeats(h: seq<Statement>, c: Statement, rows: seq<Row>, i: nat, j: int)
    requires i < |rows| && Source(h, rows[i], j)
    requires forall i | 0 <= i < |rows| && SameSlot(rows[i], RowFor(c)) :: c.event.createdAt <= rows[i].createdAt
    ensures SameSlot(RowFor(c), RowFor(h[j])) ==> c.event.createdAt <= h[j].event.createdAt
  {
    SlotIgnoresDeleted(rows[i], RowFor(c));
    SlotSymmetric(RowFor(c), RowFor(h[j]));
    assert Undeleted(rows[i]).createdAt == rows[i].createdAt;
  }

  /** `b` is `a` with the row of c added, in place of the row of its slot if there was one. */
  ghost predicate Stores(c: Statement, a: seq<Row>, b: seq<Row>) {
    && !c.Delete?
    && RowFor(c) in b
    && (forall i | 0 <= i < |b| :: b[i] == RowFor(c) || (b[i] in a && !SameSlot(b[i], RowFor(c))))
    && (forall i | 0 <= i < |a| :: a[i] in b || SameSlot(a[i], RowFor(c)))
    && (forall i | 0 <= i < |a| && SameSlot(a[i], RowFor(c)) :: a[i].createdAt < c.event.createdAt)
  }

  lemma SlotTransitive(a: Row, b: Row, c: Row)
    requires SameSlot(a, b) && SameSlot(b, c)
    ensures SameSlot(a, c)
  {
  }

  lemma NewWinner(h: seq<Statement>, c: Statement, a: seq<Row>, b: seq<Row>)
    requires c.Put? && Settled(h, a) && Stores(c, a, b)
    ensures Wins(h + [c], |h|)
  {
    hide SameSlot, RowFor;
    var all := h + [c];
    forall k | 0 <= k < |all| && all[k].Put? && SameSlot(RowFor(all[k]), RowFor(c))
      ensures all[k].event.createdAt <= c.event.createdAt
      ensures k < |h| ==> all[k].event.createdAt < c.event.createdAt
    {
      if k < |h| {
        assert HasSlot(a, RowFor(h[k]));
        var i :| 0 <= i < |a| && SameSlot(a[i], RowFor(h[k]));
        OlderThanRow(h, a, i, k);
        SlotTransitive(a[i], RowFor(h[k]), RowFor(c));
      }
    }
  }

  /** No statement of a slot is newer than the slot's row. */
  lemma OlderThanRow(h: seq<Statement>, a: seq<Row>, i: nat, k: nat)
    requires Settled(h, a) && i < |a| && k < |h| && h[k].Put? && SameSlot(a[i], RowFor(h[k]))
    ensures h[k].event.createdAt <= a[i].createdAt
  {
    assert a[i].dedup.Some?;
    var j :| Wins(h, j) && Source(h, a[i], j);
    SlotIgnoresDeleted(a[i], RowFor(h[k]));
    SlotSymmetric(RowFor(h[j]), RowFor(h[k]));
    assert Undeleted(a[i]).createdAt == a[i].createdAt;
  }

  lemma NewRow(h: seq<Statement>, c: Statement, a: seq<Row>, b: seq<Row>)
    requires Sourced(h, a) && Settled(h, a) && Stores(c, a, b) && Legal(c)
    ensures Sourced(h + [c], b) && Settled(h + [c], b)
  {
    hide SameSlot, RowFor, Wins, Settled;
    var all := h + [c];
    forall i | 0 <= i < |b| ensures HasSource(all, b[i]) {
      NewRowSource(h, c, a, b, i);
    }
    NewRowSettled(h, c, a, b);
  }

  lemma OwnSource(h: seq<Statement>, c: Statement)
    requires !c.Delete?
    ensures Source(h + [c], RowFor(c), |h|)
  {
    hide DedupOf;
  }

  lemma NewRowSource(h: seq<Statement>, c: Statement, a: seq<Row>, b: seq<Row>, i: nat)
    requires Sourced(h, a) && Stores(c, a, b) && i < |b|
    ensures HasSource(h + [c], b[i])
  {
    hide SameSlot, RowFor;
    if b[i] == RowFor(c) {
      OwnSource(h, c);
    } else {
      var k :| 0 <= k < |a| && a[k] == b[i];
      assert HasSource(h, a[k]);
      var j :| Source(h, a[k], j);
      SourceExtends(h, c, b[i], j);
    }
  }

  lemma NewRowWinner(h: seq<Statement>, c: Statement, a: seq<Row>, b: seq<Row>, i: nat)
    requires Settled(h, a) && Stores(c, a, b) && i < |b| && b[i].dedup.Some?
    ensures exists j :: Wins(h + [c], j) && Source(h + [c], b[i], j)
  {
    hide SameSlot, RowFor;
    if b[i] == RowFor(c) && c.Put? {
      NewWinner(h, c, a, b);
      OwnSource(h, c);
    } else if b[i] == RowFor(c) {
      CreatedHasNoSlot(c);
      assert false;
    } else {
      var k :| 0 <= k < |a| && a[k] == b[i];
      var j :| Wins(h, j) && Source(h, a[k], j);
      SlotIgnoresDeleted(b[i], RowFor(c));
      SlotSymmetric(RowFor(h[j]), RowFor(c));
      WinsExtends(h, c, j);
      SourceExtends(h, c, b[i], j);
    }
  }

  lemma CreatedHasNoSlot(c: Statement)
    requires c.Create?
    ensures RowFor(c).dedup.None? && forall r :: !SameSlot(r, RowFor(c)) && !SameSlot(RowFor(c), r)
  {
  }

  lemma NewRowSettled(h: seq<Statement>, c: Statement, a: seq<Row>, b: seq<Row>)
    requires Settled(h, a) && Stores(c, a, b) && Legal(c)
    ensures Settled(h + [c], b)
  {
    hide SameSlot, RowFor, Wins, Legal;
    var all := h + [c];
    forall i | 0 <= i < |b| && b[i].dedup.Some? ensures exists j :: Wins(all, j) && Source(all, b[i], j) {
      NewRowWinner(h, c, a, b, i);
    }
    var n :| 0 <= n < |b| && b[n] == RowFor(c);
    forall j | 0 <= j < |all| && all[j].Put? ensures HasSlot(b, RowFor(all[j])) {
      if j == |h| {
        PutRowInSlot(c);
        assert SameSlot(b[n], RowFor(c));
      } else {
        var i :| 0 <= i < |a| && SameSlot(a[i], RowFor(h[j]));
        if a[i] in b {
        } else {
          SlotSymmetric(a[i], RowFor(c));
          SlotTransitive(RowFor(c), a[i], RowFor(h[j]));
          assert SameSlot(b[n], RowFor(h[j]));
        }
      }
    }
    forall j | 0 <= j < |all| && all[j].Create? ensures exists i | 0 <= i < |b| :: Source(all, b[i], j) {
      if j == |h| {
        OwnSource(h, c);
        assert Source(all, b[n], j);
      } else {
        var i :| 0 <= i < |a| && Source(h, a[i], j);
        CreatedHasNoSlot(h[j]);
        SlotIgnoresDeleted(a[i], RowFor(c));
        var k :| 0 <= k < |b| && b[k] == a[i];
        SourceExtends(h, c, b[k], j);
      }
    }
  }

  lemma CreateSettles(h: seq<Statement>, c: Statement, s: Store)
    requires History(h + [c]) && c.Create? && Sourced(h, s.events) && Settled(h, s.events)
    ensures Sourced(h + [c], After(s, c).events) && Settled(h + [c], After(s, c).events)
  {
    hide SameSlot, Settled, RowFor, AfterTrigger;
    var r, all := RowFor(c), h + [c];
    assert all[|h|] == c && Legal(all[|h|]);
    CreatedHasNoSlot(c);
    if HasId(s.events, r.eventId) {
      var i :| 0 <= i < |s.events| && s.events[i].eventId == r.eventId;
      assert HasSource(h, s.events[i]);
      var j :| Source(h, s.events[i], j);
      assert all[j] == h[j];
      SameIdSameRow(all, j, |h|);
      NothingNew(h, c, s.events, s.events);
    } else {
      var after := s.events + [r];
      assert after[|s.events|] == r;
      assert Stores(c, s.events, after);
      NewRow(h, c, s.events, after);
    }
  }

  lemma MergeStores(c: Statement, a: seq<Row>)
    requires c.Put? && Legal(c) && UniqueSlots(a)
    requires exists i | 0 <= i < |a| :: SameSlot(a[i], RowFor(c)) && a[i].createdAt < c.event.createdAt
    ensures Stores(c, a, Merge(a, RowFor(c)))
  {
    hide SameSlot, RowFor, Legal;
    var r, b := RowFor(c), Merge(a, RowFor(c));
    var i :| 0 <= i < |a| && SameSlot(a[i], r) && a[i].createdAt < c.event.createdAt;
    assert b[i] == r;
    forall k | 0 <= k < |a| && SameSlot(a[k], r) ensures k == i {
      SlotSymmetric(a[k], r);
      SlotSymmetric(a[i], r);
      SlotTransitive(a[k], r, a[i]);
      SlotTransitive(a[i], r, a[k]);
    }
    forall k | 0 <= k < |a| ensures a[k] in b || SameSlot(a[k], r) {
      assert b[k] == if SameSlot(a[k], r) then r else a[k];
    }
  }

  lemma PutSettles(h: seq<Statement>, c: Statement, s: Store)
    requires History(h + [c]) && c.Put? && Inv(h, s)
    ensures Sourced(h + [c], After(s, c).events) && Settled(h + [c], After(s, c).events)
  {
    hide SameSlot, Settled, RowFor, AfterTrigger, FireTriggers, History, Legal, IndexAgrees;
    NoUniqueViolation(h, c, s);
    LastLegal(h, c);
    RowTime(c);
    var r := RowFor(c);
    if HasSlot(s.events, r) {
      if exists i | 0 <= i < |s.events| :: SameSlot(s.events[i], r) && s.events[i].createdAt < r.createdAt {
        MergeStores(c, s.events);
        NewRow(h, c, s.events, Merge(s.events, r));
      } else {
        NothingNew(h, c, s.events, s.events);
      }
    } else {
      var after := s.events + [r];
      assert after[|s.events|] == r;
      assert Stores(c, s.events, after);
      NewRow(h, c, s.events, after);
    }
  }

  lemma LastLegal(h: seq<Statement>, c: Statement)
    requires History(h + [c])
    ensures Legal(c) && History(h)
  {
    var all := h + [c];
    assert all[|h|] == c && Legal(all[|h|]);
    HistoryPrefix(all, |h|);
    assert all[..|h|] == h;
  }

  lemma RowTime(c: Statement)
    ensures RowFor(c).createdAt == c.event.createdAt && !RowFor(c).deleted
  {
  }

  lemma InvStep(h: seq<Statement>, c: Statement, s: Store)
    requires History(h + [c]) && Inv(h, s)
    ensures Inv(h + [c], After(s, c))
  {
    hide Settled, Sourced, WellFormed, RowFor, History;
    match c {
      case Create(_) =>
        CreateSettles(h, c, s);
        InsertIgnoreKeeps(s, RowFor(c));
      case Put(_) =>
        NoUniqueViolation(h, c, s);
        PutSettles(h, c, s);
        UpsertKeeps(s, RowFor(c));
      case Delete(e) =>
        var pubkey, ids := ToBuffer(e.pubkey), Buffers(IdsToDelete(e.tags));
        SoftDeleteKeeps(s, pubkey, ids);
        NothingNew(h, c, s.events, Tombstoned(s.events, pubkey, ids));
    }
  }

  lemma InvEmpty()
    ensures Inv([], EMPTY)
  {
  }

  /** Every reachable store: unique ids and slots, an exact tag index, winners in slots, nothing lost. */
  lemma {:induction false} Reachable(h: seq<Statement>)
    requires History(h)
    ensures Inv(h, Run(h))
  {
    hide Inv, History, After;
    if h == [] {
      InvEmpty();
    } else {
      var n := |h| - 1;
      HistoryPrefix(h, n);
      Reachable(h[..n]);
      assert h == h[..n] + [h[n]];
      InvStep(h[..n], h[n], Run(h[..n]));
    }
  }
}
