/** What holds of every run of the store: slots, tombstones, single storing, the tag index, convergence. */
module StoreTheorems {
  import opened Wrappers
  import opened Hex
  import opened Nostr
  import opened Sql
  import opened EventStore
  import opened StoreRuns

  // ----- storing and being seen -----

  /** The row count the strategy reads: nonzero means stored, and stored means broadcast. */
  function Count(s: Store, c: Statement): nat {
    match Execute(s, c)
    case Ok(r) => r.1
    case Err(_) => 0
  }

  predicate Visible(rows: seq<Row>, id: Bytes) {
    exists i | 0 <= i < |rows| :: rows[i].eventId == id && !rows[i].deleted
  }

  /** The store has taken the statement's event, or something that beats it. */
  predicate Seen(rows: seq<Row>, c: Statement) {
    if c.Put? then exists i | 0 <= i < |rows| :: SameSlot(rows[i], RowFor(c)) && rows[i].createdAt >= c.event.createdAt
    else HasId(rows, RowFor(c).eventId)
  }

  /** A storing statement takes effect exactly when its event has not been seen. */
  lemma CountMeansNew(h: seq<Statement>, c: Statement, s: Store)
    requires History(h + [c]) && Inv(h, s) && !c.Delete?
    ensures Count(s, c) <= 1
    ensures Count(s, c) == 1 <==> !Seen(s.events, c)
    ensures Count(s, c) == 1 ==> Stores(c, s.events, After(s, c).events)
    ensures Count(s, c) == 0 ==> After(s, c) == s
  {
    hide SameSlot, Settled, RowFor, AfterTrigger, FireTriggers, IndexAgrees, Sourced, Legal;
    LastLegal(h, c);
    NoUniqueViolation(h, c, s);
    RowTime(c);
    var r := RowFor(c);
    if c.Create? {
      CreatedHasNoSlot(c);
      if !HasId(s.events, r.eventId) {
        assert (s.events + [r])[|s.events|] == r;
      }
    } else if HasSlot(s.events, r) {
      SlotRowUnique(s.events, r);
      if exists i | 0 <= i < |s.events| :: SameSlot(s.events[i], r) && s.events[i].createdAt < r.createdAt {
        MergeStores(c, s.events);
      }
    } else {
      assert (s.events + [r])[|s.events|] == r;
    }
  }

  lemma StoringIsSeen(c: Statement, a: seq<Row>, b: seq<Row>)
    requires Stores(c, a, b) && Legal(c)
    ensures Seen(b, c)
  {
    hide SameSlot, RowFor, Legal;
    var i :| 0 <= i < |b| && b[i] == RowFor(c);
    RowTime(c);
    if c.Put? {
      PutRowInSlot(c);
    }
  }

  /** Being seen is never undone: slots only move forward in time and rows are never removed. */
  lemma SeenStays(c: Statement, d: Statement, s: Store, h: seq<Statement>)
    requires History(h + [d]) && Inv(h, s) && !c.Delete? && Seen(s.events, c)
    requires exists j :: 0 <= j < |h| && h[j] == c
    ensures Seen(After(s, d).events, c)
  {
    hide SameSlot, RowFor, History, Execute, WellFormed, Settled;
    var a, b := s.events, After(s, d).events;
    LastLegal(h, d);
    if d.Delete? {
      DeleteOnlyMarks(s, d);
      SeenUpToDeleted(a, b, c);
    } else {
      CountMeansNew(h, d, s);
      if Count(s, d) == 1 {
        SeenAfterStore(h, c, d, a, b);
      }
    }
  }

  lemma DeleteOnlyMarks(s: Store, d: Statement)
    requires d.Delete?
    ensures SameUpToDeleted(s.events, After(s, d).events)
    ensures forall i | 0 <= i < |s.events| && s.events[i].deleted :: After(s, d).events[i].deleted
    ensures Count(s, d) == 0
  {
    hide FireTriggers;
  }

  lemma SeenUpToDeleted(a: seq<Row>, b: seq<Row>, c: Statement)
    requires SameUpToDeleted(a, b) && Seen(a, c)
    ensures Seen(b, c)
  {
    hide RowFor;
    if c.Put? {
      var i :| 0 <= i < |a| && SameSlot(a[i], RowFor(c)) && a[i].createdAt >= c.event.createdAt;
      SlotIgnoresDeleted(a[i], RowFor(c));
      SlotIgnoresDeleted(b[i], RowFor(c));
      assert Undeleted(a[i]).createdAt == Undeleted(b[i]).createdAt;
    } else {
      var i :| 0 <= i < |a| && a[i].eventId == RowFor(c).eventId;
      assert Undeleted(a[i]).eventId == Undeleted(b[i]).eventId;
    }
  }

  lemma SeenAfterStore(h: seq<Statement>, c: Statement, d: Statement, a: seq<Row>, b: seq<Row>)
    requires History(h) && Sourced(h, a) && !c.Delete? && Seen(a, c) && Stores(d, a, b)
    requires exists j :: 0 <= j < |h| && h[j] == c
    ensures Seen(b, c)
  {
    hide SameSlot, RowFor, History;
    if c.Put? {
      var i :| 0 <= i < |a| && SameSlot(a[i], RowFor(c)) && a[i].createdAt >= c.event.createdAt;
      if a[i] in b {
      } else {
        RowTime(d);
        SlotSymmetric(a[i], RowFor(d));
        SlotTransitive(RowFor(d), a[i], RowFor(c));
      }
    } else {
      var i :| 0 <= i < |a| && a[i].eventId == RowFor(c).eventId;
      CreatedRow(h, c, a, i);
      CreatedHasNoSlot(c);
      SlotIgnoresDeleted(a[i], RowFor(d));
      assert a[i] in b;
    }
  }

  /** The row with a stored event's id is that event's row. */
  lemma CreatedRow(h: seq<Statement>, c: Statement, a: seq<Row>, i: nat)
    requires History(h) && Sourced(h, a) && !c.Delete? && i < |a| && a[i].eventId == RowFor(c).eventId
    requires exists j :: 0 <= j < |h| && h[j] == c
    ensures Undeleted(a[i]) == RowFor(c)
  {
    hide RowFor, History;
    var j :| 0 <= j < |h| && h[j] == c;
    assert HasSource(h, a[i]);
    var k :| Source(h, a[i], k);
    assert Undeleted(a[i]).eventId == a[i].eventId;
    SameIdSameRow(h, j, k);
  }

  // ----- over whole runs -----

  lemma RunStep(h: seq<Statement>, n: nat)
    requires n < |h|
    ensures Run(h[..n + 1]) == After(Run(h[..n]), h[n])
    ensures h[..n + 1] == h[..n] + [h[n]]
  {
    hide After;
    assert h[..n + 1][..n] == h[..n];
  }

  /** The store after the first n statements. */
  function StateAt(h: seq<Statement>, n: nat): Store
    requires n <= |h|
  {
    Run(h[..n])
  }

  /** Statement i stored its event; the strategies broadcast in exactly these steps. */
  ghost predicate Fires(h: seq<Statement>, i: nat) {
    i < |h| && Count(StateAt(h, i), h[i]) == 1
  }

  lemma {:induction false} SeenStaysInRun(h: seq<Statement>, j: nat, n: nat, m: nat)
    requires History(h) && j < n <= m <= |h| && !h[j].Delete?
    requires Seen(StateAt(h, n).events, h[j])
    ensures Seen(StateAt(h, m).events, h[j])
  {
    hide Seen, History, Inv, Run;
    if n < m {
      SeenStaysInRun(h, j, n, m - 1);
      RunStep(h, m - 1);
      HistoryPrefix(h, m);
      HistoryPrefix(h, m - 1);
      Reachable(h[..m - 1]);
      assert h[..m - 1][j] == h[j];
      SeenStays(h[j], h[m - 1], Run(h[..m - 1]), h[..m - 1]);
    }
  }

  /** A storing statement leaves its event seen from then on. */
  lemma SeenAfterStatement(h: seq<Statement>, j: nat, m: nat)
    requires History(h) && j < m <= |h| && !h[j].Delete?
    ensures Seen(StateAt(h, m).events, h[j])
  {
    hide Seen, History, Inv, Run;
    RunStep(h, j);
    HistoryPrefix(h, j + 1);
    HistoryPrefix(h, j);
    Reachable(h[..j]);
    CountMeansNew(h[..j], h[j], Run(h[..j]));
    LastLegal(h[..j], h[j]);
    if Count(Run(h[..j]), h[j]) == 1 {
      StoringIsSeen(h[j], Run(h[..j]).events, Run(h[..j + 1]).events);
    }
    SeenStaysInRun(h, j, j + 1, m);
  }

  /** However often an event is sent again, replaced or deleted, it is stored and broadcast at most once. */
  lemma StoredAtMostOnce(h: seq<Statement>, i: nat, j: nat)
    requires History(h) && i < j && Fires(h, i) && Fires(h, j)
    ensures h[i].event.id != h[j].event.id
  {
    hide Seen, Inv, Run, RowFor;
    if h[i].event.id == h[j].event.id {
      DeleteFiresNothing(h, i);
      DeleteFiresNothing(h, j);
      SameEventSameStatement(h, i, j);
      SeenAfterStatement(h, i, j);
      HistoryPrefix(h, j);
      HistoryPrefix(h, j + 1);
      RunStep(h, j);
      Reachable(h[..j]);
      CountMeansNew(h[..j], h[j], Run(h[..j]));
    }
  }

  lemma DeleteFiresNothing(h: seq<Statement>, i: nat)
    requires Fires(h, i)
    ensures !h[i].Delete?
  {
    hide FireTriggers;
  }

  lemma SameEventSameStatement(h: seq<Statement>, i: nat, j: nat)
    requires History(h) && i < |h| && j < |h| && !h[i].Delete? && !h[j].Delete?
    requires h[i].event.id == h[j].event.id
    ensures h[i] == h[j]
  {
    assert Legal(h[i]) && Legal(h[j]);
  }

  /** A broadcast happens in exactly the step that brings the event's own row into the table. */
  lemma FiresMeansStores(h: seq<Statement>, i: nat)
    requires History(h) && i < |h| && !h[i].Delete?
    ensures Fires(h, i) <==>
            RowFor(h[i]) !in StateAt(h, i).events && RowFor(h[i]) in StateAt(h, i + 1).events
  {
    hide Inv, Run, RowFor, SameSlot;
    HistoryPrefix(h, i);
    HistoryPrefix(h, i + 1);
    RunStep(h, i);
    Reachable(h[..i]);
    LastLegal(h[..i], h[i]);
    CountMeansNew(h[..i], h[i], Run(h[..i]));
    RowTime(h[i]);
    if h[i].Put? {
      PutRowInSlot(h[i]);
    }
  }

  // ----- tombstones -----

  /** Once an event is soft-deleted, no later statement makes it visible again. */
  lemma {:induction false} TombstonesArePermanent(h: seq<Statement>, n: nat, m: nat, i: nat)
    requires History(h) && n <= m <= |h|
    requires i < |StateAt(h, n).events| && StateAt(h, n).events[i].deleted
    ensures !Visible(StateAt(h, m).events, StateAt(h, n).events[i].eventId)
  {
    hide Inv, Run, RowFor, Seen, History;
    var row := StateAt(h, n).events[i];
    HistoryPrefix(h, n);
    Reachable(h[..n]);
    TombstoneSource(h[..n], Run(h[..n]), i);
    if n < m {
      TombstonesArePermanent(h, n, m - 1, i);
      var j :| Source(h[..n], row, j);
      assert h[..n][j] == h[j];
      SeenAfterStatement(h, j, m - 1);
      StaysHidden(h, j, m - 1, row.eventId);
    }
  }

  lemma TombstoneSource(h: seq<Statement>, s: Store, i: nat)
    requires Inv(h, s) && i < |s.events| && s.events[i].deleted
    ensures HasSource(h, s.events[i]) && !Visible(s.events, s.events[i].eventId)
  {
    hide Settled, IndexAgrees, HasSource;
    assert UniqueIds(s.events);
  }

  /** A seen, invisible event stays invisible through one more statement. */
  lemma StaysHidden(h: seq<Statement>, j: nat, n: nat, id: Bytes)
    requires History(h) && j < n < |h| && !h[j].Delete? && RowFor(h[j]).eventId == id
    requires Seen(StateAt(h, n).events, h[j]) && !Visible(StateAt(h, n).events, id)
    ensures !Visible(StateAt(h, n + 1).events, id)
  {
    hide Inv, Run, RowFor, Seen, History, SameSlot;
    HistoryPrefix(h, n);
    HistoryPrefix(h, n + 1);
    RunStep(h, n);
    Reachable(h[..n]);
    var s, c := Run(h[..n]), h[n];
    if c.Delete? {
      DeleteOnlyMarks(s, c);
      var after := After(s, c).events;
      assert forall k | 0 <= k < |s.events| :: Undeleted(s.events[k]).eventId == Undeleted(after[k]).eventId;
    } else {
      CountMeansNew(h[..n], c, s);
      if Count(s, c) == 1 {
        if RowFor(c).eventId == id {
          SameIdSameRow(h, j, n);
        }
        var b := After(s, c).events;
        forall k | 0 <= k < |b| && b[k].eventId == id ensures b[k].deleted {
          assert b[k] in s.events;
        }
      }
    }
  }

  /** Statement n is a deletion by the row's own author that names the row while it is visible. */
  ghost predicate Condemns(h: seq<Statement>, n: nat, r: Row) {
    && n < |h| && h[n].Delete? && h[n].event.kind == DELETE
    && ToBuffer(h[n].event.pubkey) == r.pubkey
    && r.eventId in Buffers(IdsToDelete(h[n].event.tags))
    && Visible(StateAt(h, n).events, r.eventId)
  }

  lemma CondemnsExtends(g: seq<Statement>, h: seq<Statement>, n: nat, r: Row)
    requires g <= h && Condemns(g, n, r)
    ensures Condemns(h, n, r)
  {
    hide Run, Visible;
    assert g[..n] == h[..n];
  }

  /** A storing statement brings no tombstone. */
  lemma StoringIsUndeleted(h: seq<Statement>, c: Statement, r: Row)
    requires History(h + [c]) && Inv(h, Run(h)) && !c.Delete?
    requires r in After(Run(h), c).events && r !in Run(h).events
    ensures !r.deleted
  {
    hide Run, RowFor, History, After, Inv, Count;
    CountMeansNew(h, c, Run(h));
    RowTime(c);
  }

  /** A tombstone that was not there before the last statement was made by it. */
  lemma LastStatementCondemns(h: seq<Statement>, m: nat, r: Row)
    requires History(h) && |h| == m + 1 && r in StateAt(h, m + 1).events && r.deleted
    requires r !in StateAt(h, m).events
    ensures Condemns(h, m, r)
  {
    hide Run, History, After, Visible, Inv;
    var g, c := h[..m], h[m];
    RunStep(h, m);
    assert h == g + [c];
    LastLegal(g, c);
    Reachable(g);
    if c.Delete? {
      DeleteMakesTombstone(Run(g), c, r);
    } else {
      StoringIsUndeleted(g, c, r);
      assert false;
    }
  }

  lemma {:induction false} TombstonesWereCondemned(h: seq<Statement>, r: Row)
    requires History(h) && r in Run(h).events && r.deleted
    ensures exists n :: Condemns(h, n, r)
  {
    if h != [] {
      hide Run, History, Condemns;
      var m := |h| - 1;
      var g := h[..m];
      assert h[..|h|] == h;
      HistoryPrefix(h, m);
      if r in Run(g).events {
        TombstonesWereCondemned(g, r);
        var n: nat :| Condemns(g, n, r);
        CondemnsExtends(g, h, n, r);
      } else {
        LastStatementCondemns(h, m, r);
      }
    }
  }

  lemma DeleteMakesTombstone(s: Store, c: Statement, r: Row)
    requires Legal(c) && c.Delete? && r in After(s, c).events && r !in s.events
    ensures c.event.kind == DELETE && ToBuffer(c.event.pubkey) == r.pubkey
    ensures r.eventId in Buffers(IdsToDelete(c.event.tags)) && Visible(s.events, r.eventId)
  {
    hide FireTriggers, ValidEvent, ToBuffer;
    var after := After(s, c).events;
    var i :| 0 <= i < |after| && after[i] == r;
    assert s.events[i] in s.events;
  }

  /** A condemning deletion leaves a tombstone in the very next state. */
  lemma CondemnedIsTombstoned(h: seq<Statement>, n: nat, r: Row) returns (i: nat)
    requires History(h) && Condemns(h, n, r)
    requires forall k | 0 <= k < |StateAt(h, n).events| && StateAt(h, n).events[k].eventId == r.eventId ::
               StateAt(h, n).events[k].pubkey == r.pubkey
    ensures i < |StateAt(h, n + 1).events| && StateAt(h, n + 1).events[i].deleted
    ensures StateAt(h, n + 1).events[i].eventId == r.eventId
  {
    hide Run, FireTriggers, History;
    RunStep(h, n);
    var rows := StateAt(h, n).events;
    var k :| 0 <= k < |rows| && rows[k].eventId == r.eventId && !rows[k].deleted;
    i := k;
  }

  /** Rows with one id have one author, whenever in the run they are looked at. */
  lemma OneAuthor(h: seq<Statement>, n: nat, k: nat, r: Row)
    requires History(h) && n <= |h| && k < |StateAt(h, n).events| && r in Run(h).events
    requires StateAt(h, n).events[k].eventId == r.eventId
    ensures StateAt(h, n).events[k].pubkey == r.pubkey
  {
    hide Run, RowFor, History, Settled, WellFormed;
    HistoryPrefix(h, n);
    Reachable(h);
    Reachable(h[..n]);
    var x := StateAt(h, n).events[k];
    assert HasSource(h[..n], x);
    var i :| 0 <= i < |Run(h).events| && Run(h).events[i] == r;
    assert HasSource(h, r);
    var j :| Source(h[..n], x, j);
    var l :| Source(h, r, l);
    assert h[..n][j] == h[j];
    assert Undeleted(x).eventId == Undeleted(r).eventId;
    SameIdSameRow(h, j, l);
    assert Undeleted(x).pubkey == Undeleted(r).pubkey;
  }

  lemma CondemnedIsDeleted(h: seq<Statement>, n: nat, r: Row)
    requires History(h) && r in Run(h).events && Condemns(h, n, r)
    ensures r.deleted
  {
    hide Run, History;
    forall k | 0 <= k < |StateAt(h, n).events| && StateAt(h, n).events[k].eventId == r.eventId
      ensures StateAt(h, n).events[k].pubkey == r.pubkey
    {
      OneAuthor(h, n, k, r);
    }
    var i := CondemnedIsTombstoned(h, n, r);
    TombstonesArePermanent(h, n + 1, |h|, i);
    assert h[..|h|] == h;
  }

  // ----- slots -----

  /**
   Which put events share a slot: those of one author and kind and, for kinds 30000 to 39999, with the same
   texts after "d" in their first usable d tags, an event without one counting as having one empty text.
   */
  lemma SlotMeaning(c: Statement, d: Statement)
    requires Legal(c) && Legal(d) && c.Put? && d.Put?
    ensures SameSlot(RowFor(c), RowFor(d)) <==>
            && c.event.pubkey == d.event.pubkey && c.event.kind == d.event.kind
            && (30000 <= c.event.kind <= 39999 ==>
                  exists values :: DValues(c.event.tags, values) && DValues(d.event.tags, values))
  {
    hide ToBuffer, Deduplication, IsLowerHex, DValues;
    IndexCoversUpserts(c.event.kind);
    RoutesByKind(c.event.kind);
    if ToBuffer(c.event.pubkey) == ToBuffer(d.event.pubkey) {
      ToBufferInjective(c.event.pubkey, d.event.pubkey);
    }
    var a, b := Deduplication(c.event.tags), Deduplication(d.event.tags);
    TextsInjective(a, b);
    forall values ensures DValues(c.event.tags, values) <==> values == a
      ensures DValues(d.event.tags, values) <==> values == b
    {
      DeduplicationIs(c.event.tags, values);
      DeduplicationIs(d.event.tags, values);
    }
    assert DValues(c.event.tags, a);
  }

  lemma TextsInjective(a: seq<string>, b: seq<string>)
    ensures Texts(a) == Texts(b) <==> a == b
  {
    if Texts(a) == Texts(b) {
      assert |a| == |Texts(a)| == |b|;
      assert forall i | 0 <= i < |a| :: Texts(a)[i] == Text(a[i]) && Texts(b)[i] == Text(b[i]);
    }
  }

  lemma WinnerUnique(h: seq<Statement>, j: int, k: int)
    requires Wins(h, j) && Wins(h, k) && SameSlot(RowFor(h[j]), RowFor(h[k]))
    ensures j == k
  {
    hide SameSlot, RowFor;
    SlotSymmetric(RowFor(h[j]), RowFor(h[k]));
  }

  /**
   Whatever deletions are interleaved, a slot that was ever written has exactly one row, and it is the
   event with the greatest timestamp the slot received, the first of them on a tie.
   */
  lemma SlotHoldsTheWinner(h: seq<Statement>, j: nat) returns (i: nat, w: nat)
    requires History(h) && j < |h| && h[j].Put?
    ensures i < |Run(h).events| && SameSlot(Run(h).events[i], RowFor(h[j]))
    ensures forall k | 0 <= k < |Run(h).events| && SameSlot(Run(h).events[k], RowFor(h[j])) :: k == i
    ensures Wins(h, w) && Undeleted(Run(h).events[i]) == RowFor(h[w]) && SameSlot(RowFor(h[w]), RowFor(h[j]))
  {
    hide RowFor, Run, IndexAgrees;
    Reachable(h);
    var rows := Run(h).events;
    assert HasSlot(rows, RowFor(h[j]));
    i :| 0 <= i < |rows| && SameSlot(rows[i], RowFor(h[j]));
    SlotRowUnique(rows, RowFor(h[j]));
    var k :| Wins(h, k) && Source(h, rows[i], k);
    w := k;
    SlotIgnoresDeleted(rows[i], RowFor(h[j]));
  }

  // ----- the table as a function of what was received -----

  /** A row is in the table, up to its tombstone flag. */
  ghost predicate Holds(rows: seq<Row>, r: Row) {
    exists i | 0 <= i < |rows| :: Undeleted(rows[i]) == r
  }

  /** Up to tombstones, the table is exactly the regular events received and the winners of the slots. */
  lemma TableIsWhatWasReceived(h: seq<Statement>, r: Row)
    requires History(h)
    ensures Holds(Run(h).events, r) <==>
            exists j | 0 <= j < |h| :: (h[j].Create? || Wins(h, j)) && r == RowFor(h[j])
  {
    hide RowFor, Run, IndexAgrees, SameSlot;
    Reachable(h);
    var rows := Run(h).events;
    if i :| 0 <= i < |rows| && Undeleted(rows[i]) == r {
      if rows[i].dedup.Some? {
        var j :| Wins(h, j) && Source(h, rows[i], j);
        assert 0 <= j < |h| && r == RowFor(h[j]);
      } else {
        assert HasSource(h, rows[i]);
        var j :| Source(h, rows[i], j);
        PutHasSlot(h[j]);
        assert 0 <= j < |h| && h[j].Create? && r == RowFor(h[j]);
      }
    }
    if j :| 0 <= j < |h| && (h[j].Create? || Wins(h, j)) && r == RowFor(h[j]) {
      if h[j].Create? {
        var i :| 0 <= i < |rows| && Source(h, rows[i], j);
      } else {
        var i, w := SlotHoldsTheWinner(h, j);
        WinnerUnique(h, w, j);
      }
    }
  }

  lemma PutHasSlot(c: Statement)
    ensures c.Put? <==> RowFor(c).dedup.Some?
  {
  }

  // ----- what counts as new -----

  /** The run has received the very event, or for an upsert something at least as new for its slot. */
  ghost predicate Beaten(h: seq<Statement>, c: Statement) {
    exists j :: BeatenBy(h, j, c)
  }

  predicate BeatenBy(h: seq<Statement>, j: int, c: Statement) {
    0 <= j < |h|
    && if c.Put? then h[j].Put? && SameSlot(RowFor(h[j]), RowFor(c)) && h[j].event.createdAt >= c.event.createdAt
       else h[j] == c
  }

  lemma SeenPutWasReceived(h: seq<Statement>, c: Statement, i: nat)
    requires c.Put? && Settled(h, Run(h).events) && i < |Run(h).events|
    requires SameSlot(Run(h).events[i], RowFor(c)) && Run(h).events[i].createdAt >= c.event.createdAt
    ensures Beaten(h, c)
  {
    hide Run, RowFor, SameSlot;
    var r := Run(h).events[i];
    SlotHasDedup(r, RowFor(c));
    var j :| Wins(h, j) && Source(h, r, j);
    SlotIgnoresDeleted(r, RowFor(c));
    RowTime(h[j]);
    assert Undeleted(r).createdAt == r.createdAt;
    WinsIsIndex(h, j);
    assert BeatenBy(h, j, c);
  }

  lemma SlotHasDedup(a: Row, b: Row)
    requires SameSlot(a, b)
    ensures a.dedup.Some?
  {
  }

  lemma ReceivedPutIsSeen(h: seq<Statement>, c: Statement, j: nat)
    requires c.Put? && Settled(h, Run(h).events) && BeatenBy(h, j, c)
    ensures Seen(Run(h).events, c)
  {
    hide Run, RowFor, SameSlot;
    var rows := Run(h).events;
    assert HasSlot(rows, RowFor(h[j]));
    var i :| 0 <= i < |rows| && SameSlot(rows[i], RowFor(h[j]));
    OlderThanRow(h, rows, i, j);
    SlotTransitive(rows[i], RowFor(h[j]), RowFor(c));
  }

  lemma PutIsBeaten(h: seq<Statement>, c: Statement)
    requires c.Put? && Inv(h, Run(h))
    ensures Seen(Run(h).events, c) <==> Beaten(h, c)
  {
    hide Run, RowFor, SameSlot, IndexAgrees, BeatenBy, Settled, Sourced, WellFormed;
    var rows := Run(h).events;
    if i :| 0 <= i < |rows| && SameSlot(rows[i], RowFor(c)) && rows[i].createdAt >= c.event.createdAt {
      SeenPutWasReceived(h, c, i);
    }
    if j :| BeatenBy(h, j, c) {
      BeatenIndex(h, j, c);
      ReceivedPutIsSeen(h, c, j);
    }
  }

  lemma BeatenIndex(h: seq<Statement>, j: int, c: Statement)
    requires BeatenBy(h, j, c)
    ensures 0 <= j < |h|
  {
  }

  lemma CreateIsBeaten(h: seq<Statement>, c: Statement)
    requires History(h + [c]) && c.Create? && Inv(h, Run(h))
    ensures Seen(Run(h).events, c) <==> Beaten(h, c)
  {
    hide Run, RowFor, History, IndexAgrees;
    var rows, all := Run(h).events, h + [c];
    assert all[|h|] == c;
    if i :| 0 <= i < |rows| && rows[i].eventId == RowFor(c).eventId {
      assert HasSource(h, rows[i]);
      var j :| Source(h, rows[i], j);
      assert Undeleted(rows[i]).eventId == rows[i].eventId && all[j] == h[j];
      SameIdSameRow(all, j, |h|);
      assert BeatenBy(h, j, c);
    }
    if j :| BeatenBy(h, j, c) {
      var i :| 0 <= i < |rows| && Source(h, rows[i], j);
      assert Undeleted(rows[i]).eventId == rows[i].eventId;
    }
  }

  /** Being seen, from what was received alone. */
  lemma SeenMeansReceived(h: seq<Statement>, c: Statement)
    requires History(h + [c]) && !c.Delete?
    ensures Seen(Run(h).events, c) <==> Beaten(h, c)
  {
    hide Run, History, Seen, Beaten;
    LastLegal(h, c);
    Reachable(h);
    if c.Put? {
      PutIsBeaten(h, c);
    } else {
      CreateIsBeaten(h, c);
    }
  }

  // ----- tombstones as a function of what was received -----

  predicate ReceivedAt(h: seq<Statement>, j: int, e: Event) {
    0 <= j < |h| && !h[j].Delete? && h[j].event == e
  }

  /** Some e tag carries the id. */
  predicate HasETag(tags: seq<Tag>, id: string) {
    exists i | 0 <= i < |tags| :: |tags[i]| >= 2 && tags[i][0] == "e" && tags[i][1] == id
  }

  /** Statement n is a deletion by the event's author with an e tag that carries the event's id. */
  predicate NamedAt(h: seq<Statement>, n: int, e: Event) {
    0 <= n < |h| && h[n].Delete? && h[n].event.pubkey == e.pubkey && HasETag(h[n].event.tags, e.id)
  }

  /** The event was received before a deletion by its author that names it. */
  ghost predicate DeletedAfter(h: seq<Statement>, e: Event) {
    exists j, n :: j < n && ReceivedAt(h, j, e) && NamedAt(h, n, e)
  }

  lemma LegalAt(h: seq<Statement>, i: nat)
    requires History(h) && i < |h|
    ensures Legal(h[i])
  {
  }

  lemma DedupOfRow(c: Statement)
    ensures RowFor(c) == RowOf(c.event, RowFor(c).dedup)
  {
  }

  lemma IgnoresDeleted(r: Row)
    ensures ToNostrEvent(Undeleted(r)) == ToNostrEvent(r)
  {
  }

  /** The event a row rebuilds is that of the statement the row came from. */
  lemma RowEvent(h: seq<Statement>, j: nat, r: Row)
    requires History(h) && Source(h, r, j)
    ensures Legal(h[j]) && ReceivedAt(h, j, ToNostrEvent(r)) && Undeleted(r) == RowFor(h[j])
  {
    hide RowOf, ToNostrEvent, ValidEvent, DedupOf;
    LegalAt(h, j);
    DedupOfRow(h[j]);
    RowRoundTrip(h[j].event, RowFor(h[j]).dedup);
    IgnoresDeleted(r);
  }

  lemma RowSource(h: seq<Statement>, r: Row) returns (j: nat)
    requires History(h) && r in Run(h).events
    ensures Source(h, r, j)
  {
    hide Run, RowFor, WellFormed, Settled, History;
    Reachable(h);
    var i :| 0 <= i < |Run(h).events| && Run(h).events[i] == r;
    assert HasSource(h, r);
    j :| Source(h, r, j);
  }

  /** Naming an event by text is naming its row by bytes. */
  lemma NamedBytes(h: seq<Statement>, n: nat, c: Statement)
    requires History(h) && n < |h| && Legal(c) && h[n].Delete?
    ensures NamedAt(h, n, c.event)
            <==> ToBuffer(h[n].event.pubkey) == RowFor(c).pubkey
                 && RowFor(c).eventId in Buffers(IdsToDelete(h[n].event.tags))
    ensures h[n].event.kind == 5
  {
    hide ToBuffer, IdsToDelete, IsLowerHex, DedupOf;
    LegalAt(h, n);
    var d, ids := h[n].event, IdsToDelete(h[n].event.tags);
    InIdsToDelete(d.tags, c.event.id);
    if ToBuffer(d.pubkey) == ToBuffer(c.event.pubkey) {
      ToBufferInjective(d.pubkey, c.event.pubkey);
    }
    if c.event.id in ids {
      var i :| 0 <= i < |ids| && ids[i] == c.event.id;
      assert Buffers(ids)[i] == RowFor(c).eventId;
    }
    if i :| 0 <= i < |ids| && Buffers(ids)[i] == RowFor(c).eventId {
      assert ids[i] in ids;
      InIdsToDelete(d.tags, ids[i]);
      ToBufferInjective(ids[i], c.event.id);
    }
  }

  lemma CondemnedWasNamed(h: seq<Statement>, n: nat, r: Row)
    requires History(h) && r in Run(h).events && Condemns(h, n, r)
    ensures DeletedAfter(h, ToNostrEvent(r))
  {
    hide Run, RowFor, History, Visible, ToNostrEvent;
    var l := RowSource(h, r);
    RowEvent(h, l, r);
    var rows := StateAt(h, n).events;
    var k := VisibleIndex(rows, r.eventId);
    HistoryPrefix(h, n);
    assert rows[k] in rows;
    var j := RowSource(h[..n], rows[k]);
    assert h[..n][j] == h[j] && Undeleted(rows[k]).eventId == Undeleted(r).eventId;
    SameIdSameRow(h, j, l);
    KeysOfUndeleted(r);
    NamedBytes(h, n, h[l]);
    assert ReceivedAt(h, j, ToNostrEvent(r));
  }

  /** Every tombstone was named, while visible, by an e tag of a kind-5 event of the same author. */
  lemma TombstonesAreJustified(h: seq<Statement>, r: Row)
    requires History(h) && r in Run(h).events && r.deleted
    ensures exists n: nat :: NamedAt(h, n, ToNostrEvent(r)) && h[n].event.kind == 5
              && Visible(StateAt(h, n).events, r.eventId)
  {
    hide Run, RowFor, History, Visible, ToNostrEvent, NamedAt;
    TombstonesWereCondemned(h, r);
    var n: nat :| Condemns(h, n, r);
    var l := RowSource(h, r);
    RowEvent(h, l, r);
    KeysOfUndeleted(r);
    NamedBytes(h, n, h[l]);
  }

  lemma VisibleIndex(rows: seq<Row>, id: Bytes) returns (k: nat)
    requires Visible(rows, id)
    ensures k < |rows| && rows[k].eventId == id && !rows[k].deleted
  {
    k :| 0 <= k < |rows| && rows[k].eventId == id && !rows[k].deleted;
  }

  lemma KeysOfUndeleted(r: Row)
    ensures Undeleted(r).eventId == r.eventId && Undeleted(r).pubkey == r.pubkey
  {
  }

  lemma WinsInPrefix(h: seq<Statement>, w: nat, n: nat)
    requires Wins(h, w) && w < n <= |h|
    ensures Wins(h[..n], w)
  {
    hide RowFor, SameSlot;
  }

  /** A row of the table has been there since its event was first received. */
  lemma HeldSinceReceived(h: seq<Statement>, j: nat, n: nat, r: Row)
    requires History(h) && r in Run(h).events && j < n <= |h|
    requires !h[j].Delete? && RowFor(h[j]) == Undeleted(r)
    ensures Holds(StateAt(h, n).events, Undeleted(r))
  {
    hide Run, RowFor, History, Wins, SameSlot;
    HistoryPrefix(h, n);
    assert h[..n][j] == h[j];
    TableIsWhatWasReceived(h[..n], Undeleted(r));
    if h[j].Put? {
      TableIsWhatWasReceived(h, Undeleted(r));
      InTableIsHeld(Run(h).events, r);
      var w :| 0 <= w < |h| && (h[w].Create? || Wins(h, w)) && Undeleted(r) == RowFor(h[w]);
      PutHasSlot(h[j]);
      PutHasSlot(h[w]);
      WinnerIsFirst(h, j, w);
      WinsInPrefix(h, w, n);
      assert h[..n][w] == h[w];
    }
  }

  lemma InTableIsHeld(rows: seq<Row>, r: Row)
    requires r in rows
    ensures Holds(rows, Undeleted(r))
  {
    var i :| 0 <= i < |rows| && rows[i] == r;
  }

  lemma WinnerIsFirst(h: seq<Statement>, j: nat, w: nat)
    requires History(h) && Wins(h, w) && j < |h| && h[j].Put? && RowFor(h[j]) == RowFor(h[w])
    ensures w <= j && h[w] == h[j]
  {
    hide RowFor, SameSlot;
    SameIdSameRow(h, j, w);
    LegalAt(h, w);
    PutRowInSlot(h[w]);
  }

  lemma NamedIsDeleted(h: seq<Statement>, j: nat, n: nat, r: Row)
    requires History(h) && r in Run(h).events
    requires j < n && ReceivedAt(h, j, ToNostrEvent(r)) && NamedAt(h, n, ToNostrEvent(r))
    ensures r.deleted
  {
    hide Run, RowFor, History, Condemns, ToNostrEvent, IdsToDelete;
    var l := RowSource(h, r);
    RowEvent(h, l, r);
    SameEventSameStatement(h, j, l);
    HeldSinceReceived(h, j, n, r);
    var rows := StateAt(h, n).events;
    var k :| 0 <= k < |rows| && Undeleted(rows[k]) == Undeleted(r);
    KeysOfUndeleted(rows[k]);
    KeysOfUndeleted(r);
    NamedBytes(h, n, h[l]);
    if rows[k].deleted {
      TombstonesArePermanent(h, n, |h|, k);
      assert h[..|h|] == h;
      var i :| 0 <= i < |Run(h).events| && Run(h).events[i] == r;
    } else {
      VisibleCondemns(h, n, k, r);
      CondemnedIsDeleted(h, n, r);
    }
  }

  lemma VisibleCondemns(h: seq<Statement>, n: nat, k: nat, r: Row)
    requires n < |h| && h[n].Delete? && h[n].event.kind == DELETE
    requires ToBuffer(h[n].event.pubkey) == r.pubkey && r.eventId in Buffers(IdsToDelete(h[n].event.tags))
    requires k < |StateAt(h, n).events| && StateAt(h, n).events[k].eventId == r.eventId
    requires !StateAt(h, n).events[k].deleted
    ensures Condemns(h, n, r)
  {
    hide Run;
  }

  /**
   The tombstones of a run, from what was received alone: a row of the table is one if and only if its event
   was received before a deletion by its author that names it.
   */
  lemma TombstonesAreExact(h: seq<Statement>, r: Row)
    requires History(h) && r in Run(h).events
    ensures r.deleted <==> DeletedAfter(h, ToNostrEvent(r))
  {
    hide Run, History, Condemns, ToNostrEvent, ReceivedAt, NamedAt;
    if r.deleted {
      TombstonesWereCondemned(h, r);
      var n: nat :| Condemns(h, n, r);
      CondemnedWasNamed(h, n, r);
    }
    if j, n :| j < n && ReceivedAt(h, j, ToNostrEvent(r)) && NamedAt(h, n, ToNostrEvent(r)) {
      IndexOfReceived(h, j, ToNostrEvent(r));
      NamedIsDeleted(h, j, n, r);
    }
  }

  lemma IndexOfReceived(h: seq<Statement>, j: int, e: Event)
    requires ReceivedAt(h, j, e)
    ensures 0 <= j < |h|
  {
  }

  // ----- convergence -----

  /** The greatest timestamp a slot received belongs to one event. */
  ghost predicate OneLatest(h: seq<Statement>) {
    forall i, j | 0 <= i < |h| && 0 <= j < |h| && Latest(h, i) && Latest(h, j)
      && SameSlot(RowFor(h[i]), RowFor(h[j])) :: h[i] == h[j]
  }

  /** Statement j put a timestamp that no put of its slot exceeds. */
  ghost predicate Latest(h: seq<Statement>, j: int) {
    && 0 <= j < |h| && h[j].Put?
    && forall k | 0 <= k < |h| && h[k].Put? && SameSlot(RowFor(h[k]), RowFor(h[j])) ::
         h[k].event.createdAt <= h[j].event.createdAt
  }

  ghost predicate SameStored(h: seq<Statement>, g: seq<Statement>) {
    forall c: Statement | !c.Delete? :: c in h <==> c in g
  }

  lemma LatestMoves(h: seq<Statement>, g: seq<Statement>, j: int, k: int)
    requires SameStored(h, g) && Latest(h, j) && 0 <= k < |g| && g[k] == h[j]
    ensures Latest(g, k)
  {
    hide SameSlot, RowFor;
    forall l | 0 <= l < |g| && g[l].Put? && SameSlot(RowFor(g[l]), RowFor(g[k]))
      ensures g[l].event.createdAt <= g[k].event.createdAt
    {
      assert g[l] in g;
      var i :| 0 <= i < |h| && h[i] == g[l];
    }
  }

  /** A winner wins in every other order, at its first occurrence. */
  lemma WinnerMoves(h: seq<Statement>, g: seq<Statement>, j: int) returns (k: int)
    requires Wins(h, j) && SameStored(h, g) && OneLatest(h)
    ensures Wins(g, k) && g[k] == h[j]
  {
    hide SameSlot, RowFor;
    var c := h[j];
    assert c in h;
    k := FirstIndex(g, c);
    LatestMoves(h, g, j, k);
    forall l | 0 <= l < k && g[l].Put? && SameSlot(RowFor(g[l]), RowFor(c))
      ensures g[l].event.createdAt < c.event.createdAt
    {
      assert g[l] in g && g[l] in g[..k];
      var i :| 0 <= i < |h| && h[i] == g[l];
      if g[l].event.createdAt == c.event.createdAt {
        TiedIsLatest(h, i, j);
      }
    }
  }

  lemma TiedIsLatest(h: seq<Statement>, i: int, j: int)
    requires Latest(h, j) && 0 <= i < |h| && h[i].Put? && SameSlot(RowFor(h[i]), RowFor(h[j]))
    requires h[i].event.createdAt == h[j].event.createdAt
    ensures Latest(h, i)
  {
    hide SameSlot, RowFor;
    forall k | 0 <= k < |h| && h[k].Put? && SameSlot(RowFor(h[k]), RowFor(h[i]))
      ensures h[k].event.createdAt <= h[i].event.createdAt
    {
      SlotTransitive(RowFor(h[k]), RowFor(h[i]), RowFor(h[j]));
    }
  }

  lemma FirstIndex(g: seq<Statement>, c: Statement) returns (k: nat)
    requires c in g
    ensures k < |g| && g[k] == c && c !in g[..k]
  {
    k := 0;
    while g[k] != c
      invariant k < |g| && c !in g[..k]
      decreases |g| - k
    {
      var i :| 0 <= i < |g| && g[i] == c;
      assert c in g[k..] by {
        assert g == g[..k] + g[k..];
      }
      assert k + 1 < |g|;
      assert g[..k + 1] == g[..k] + [g[k]];
      k := k + 1;
    }
  }

  lemma ConvergesOneWay(h: seq<Statement>, g: seq<Statement>, r: Row)
    requires History(h) && History(g) && SameStored(h, g) && OneLatest(h)
    requires Holds(Run(h).events, r)
    ensures Holds(Run(g).events, r)
  {
    hide RowFor, Run, SameSlot, History, Holds, Wins;
    TableIsWhatWasReceived(h, r);
    TableIsWhatWasReceived(g, r);
    var j :| 0 <= j < |h| && (h[j].Create? || Wins(h, j)) && r == RowFor(h[j]);
    if h[j].Create? {
      assert h[j] in h;
      var k :| 0 <= k < |g| && g[k] == h[j];
    } else {
      WinsIsIndex(h, j);
      var k := WinnerMoves(h, g, j);
      WinsIsIndex(g, k);
    }
  }

  lemma WinsIsIndex(h: seq<Statement>, j: int)
    requires Wins(h, j)
    ensures 0 <= j < |h| && h[j].Put?
  {
  }

  /**
   Two orders of receiving the same events end in the same table up to tombstones, whatever deletions
   each contains, when the greatest timestamp of every slot belongs to one event.
   */
  lemma OrdersConverge(h: seq<Statement>, g: seq<Statement>, r: Row)
    requires History(h) && History(g) && SameStored(h, g) && OneLatest(h)
    ensures Holds(Run(h).events, r) <==> Holds(Run(g).events, r)
  {
    hide RowFor, Run, SameSlot, History, Holds;
    if Holds(Run(h).events, r) {
      ConvergesOneWay(h, g, r);
    }
    if Holds(Run(g).events, r) {
      OneLatestMoves(h, g);
      ConvergesOneWay(g, h, r);
    }
  }

  lemma OneLatestMoves(h: seq<Statement>, g: seq<Statement>)
    requires SameStored(h, g) && OneLatest(h)
    ensures OneLatest(g)
  {
    hide RowFor, SameSlot, Latest;
    forall i, j | 0 <= i < |g| && 0 <= j < |g| && Latest(g, i) && Latest(g, j)
      && SameSlot(RowFor(g[i]), RowFor(g[j])) ensures g[i] == g[j]
    {
      var a := MovedIndex(g, h, i);
      var b := MovedIndex(g, h, j);
      LatestMoves(g, h, i, a);
      LatestMoves(g, h, j, b);
    }
  }

  lemma MovedIndex(g: seq<Statement>, h: seq<Statement>, i: int) returns (a: nat)
    requires SameStored(h, g) && Latest(g, i)
    ensures a < |h| && h[a] == g[i]
  {
    assert g[i] in g;
    a :| 0 <= a < |h| && h[a] == g[i];
  }

  /**
   Then the two orders end in the very same rows if and only if, of the events that keep a row, both received
   the same ones before a deletion by the author that names them.
   */
  lemma OrdersEndEqual(h: seq<Statement>, g: seq<Statement>)
    requires History(h) && History(g) && SameStored(h, g) && OneLatest(h)
    ensures (forall r :: r in Run(h).events <==> r in Run(g).events)
            <==> forall j | 0 <= j < |h| && (h[j].Create? || Wins(h, j)) ::
                   DeletedAfter(h, h[j].event) <==> DeletedAfter(g, h[j].event)
  {
    hide Run, RowFor, History, DeletedAfter, SameStored, OneLatest, Wins, ToNostrEvent;
    if forall j | 0 <= j < |h| && (h[j].Create? || Wins(h, j)) ::
         DeletedAfter(h, h[j].event) <==> DeletedAfter(g, h[j].event)
    {
      forall r ensures r in Run(h).events <==> r in Run(g).events {
        OrdersConverge(h, g, Undeleted(r));
        RowIsHeld(h, r);
        RowIsHeld(g, r);
        if Holds(Run(h).events, Undeleted(r)) {
          var j := KeptEvent(h, r);
        }
      }
    }
    if forall r :: r in Run(h).events <==> r in Run(g).events {
      forall j | 0 <= j < |h| && (h[j].Create? || Wins(h, j))
        ensures DeletedAfter(h, h[j].event) <==> DeletedAfter(g, h[j].event)
      {
        var x := KeptRow(h, j);
        TombstonesAreExact(h, x);
        TombstonesAreExact(g, x);
      }
    }
  }

  /** The event of a held row is one that was created or wins its slot. */
  lemma KeptEvent(h: seq<Statement>, r: Row) returns (j: nat)
    requires History(h) && Holds(Run(h).events, Undeleted(r))
    ensures j < |h| && (h[j].Create? || Wins(h, j)) && h[j].event == ToNostrEvent(r)
  {
    hide Run, RowFor, History, ToNostrEvent, Holds, Wins;
    TableIsWhatWasReceived(h, Undeleted(r));
    j :| 0 <= j < |h| && (h[j].Create? || Wins(h, j)) && Undeleted(r) == RowFor(h[j]);
    StoresSomething(h, j);
    RowEvent(h, j, r);
  }

  lemma StoresSomething(h: seq<Statement>, j: nat)
    requires j < |h| && (h[j].Create? || Wins(h, j))
    ensures !h[j].Delete?
  {
  }

  lemma KeptRow(h: seq<Statement>, j: nat) returns (x: Row)
    requires History(h) && j < |h| && (h[j].Create? || Wins(h, j))
    ensures x in Run(h).events && ToNostrEvent(x) == h[j].event
  {
    hide Run, RowFor, History, ToNostrEvent, Wins;
    TableIsWhatWasReceived(h, RowFor(h[j]));
    var rows := Run(h).events;
    var i :| 0 <= i < |rows| && Undeleted(rows[i]) == RowFor(h[j]);
    x := rows[i];
    StoresSomething(h, j);
    RowEvent(h, j, x);
  }

  /** A row is in the table iff its undeleted form is held and its flag says whether its event was deleted. */
  lemma RowIsHeld(h: seq<Statement>, r: Row)
    requires History(h)
    ensures r in Run(h).events
            <==> Holds(Run(h).events, Undeleted(r)) && (r.deleted <==> DeletedAfter(h, ToNostrEvent(r)))
  {
    hide Run, History, DeletedAfter, ToNostrEvent;
    if r in Run(h).events {
      InTableIsHeld(Run(h).events, r);
      TombstonesAreExact(h, r);
    } else if Holds(Run(h).events, Undeleted(r)) {
      var i :| 0 <= i < |Run(h).events| && Undeleted(Run(h).events[i]) == Undeleted(r);
      var x := Run(h).events[i];
      TombstonesAreExact(h, x);
      IgnoresDeleted(x);
      IgnoresDeleted(r);
      assert x.(deleted := r.deleted) == r;
    }
  }

  /** A statement moved to the front of a history is received first, and nothing else changes. */
  lemma FrontKeeps(h: seq<Statement>, j: nat)
    requires History(h) && j < |h|
    ensures History([h[j]] + h) && SameStored(h, [h[j]] + h)
  {
    hide Legal;
    var g := [h[j]] + h;
    assert forall i | 0 <= i < |g| :: g[i] == if i == 0 then h[j] else h[i - 1];
  }

  lemma FrontWins(h: seq<Statement>, j: nat)
    requires Latest(h, j)
    ensures Wins([h[j]] + h, 0)
  {
    hide RowFor, SameSlot;
    var g := [h[j]] + h;
    assert forall i | 0 <= i < |g| :: g[i] == if i == 0 then h[j] else h[i - 1];
  }

  /** Two events tied at the top of a slot: received first, either one keeps the other out of the table. */
  lemma TiesDiverge(h: seq<Statement>, i: nat, j: nat)
    requires History(h) && i < |h| && j < |h| && Latest(h, i) && Latest(h, j) && h[i] != h[j]
    requires SameSlot(RowFor(h[i]), RowFor(h[j]))
    ensures History([h[i]] + h) && SameStored(h, [h[i]] + h) && History([h[j]] + h) && SameStored(h, [h[j]] + h)
    ensures Holds(Run([h[i]] + h).events, RowFor(h[i])) && !Holds(Run([h[j]] + h).events, RowFor(h[i]))
  {
    hide RowFor, SameSlot, Run, Latest, History, Holds, Wins;
    FrontKeeps(h, i);
    FrontKeeps(h, j);
    FrontWins(h, i);
    FrontWins(h, j);
    WinsIsIndex([h[i]] + h, 0);
    TableIsWhatWasReceived([h[i]] + h, RowFor(h[i]));
    var g := [h[j]] + h;
    TableIsWhatWasReceived(g, RowFor(h[i]));
    forall k | 0 <= k < |g| && (g[k].Create? || Wins(g, k)) ensures RowFor(h[i]) != RowFor(g[k]) {
      TiedRowIsNot(h, i, j, k);
    }
  }

  lemma TiedRowIsNot(h: seq<Statement>, i: nat, j: nat, k: nat)
    requires History(h) && Latest(h, i) && Latest(h, j) && h[i] != h[j]
    requires SameSlot(RowFor(h[i]), RowFor(h[j])) && k < |[h[j]] + h|
    requires ([h[j]] + h)[k].Create? || Wins([h[j]] + h, k)
    ensures RowFor(h[i]) != RowFor(([h[j]] + h)[k])
  {
    hide RowFor, SameSlot;
    var g := [h[j]] + h;
    FrontKeeps(h, j);
    if RowFor(h[i]) == RowFor(g[k]) {
      PutHasSlot(h[i]);
      PutHasSlot(g[k]);
      FrontWins(h, j);
      WinnerUnique(g, k, 0);
      SameIdSameRow(h, i, j);
      assert false;
    }
  }

  /** The same rows up to tombstones. */
  ghost predicate SameTable(h: seq<Statement>, g: seq<Statement>) {
    forall r :: Holds(Run(h).events, r) <==> Holds(Run(g).events, r)
  }

  /**
   The order of receiving a history's events never matters to its table, up to tombstones, if and only if
   the greatest timestamp of every slot belongs to one event.
   */
  lemma ConvergenceIsExact(h: seq<Statement>)
    requires History(h)
    ensures (forall g | History(g) && SameStored(h, g) :: SameTable(h, g)) <==> OneLatest(h)
  {
    hide RowFor, SameSlot, Run, Latest, History, Holds, SameStored;
    if OneLatest(h) {
      forall g | History(g) && SameStored(h, g) ensures SameTable(h, g) {
        forall r ensures Holds(Run(h).events, r) <==> Holds(Run(g).events, r) {
          OrdersConverge(h, g, r);
        }
      }
    } else {
      var i, j :| 0 <= i < |h| && 0 <= j < |h| && Latest(h, i) && Latest(h, j)
        && SameSlot(RowFor(h[i]), RowFor(h[j])) && h[i] != h[j];
      TiesDiverge(h, i, j);
      assert !SameTable(h, [h[i]] + h) || !SameTable(h, [h[j]] + h);
    }
  }

  /** Without deletions no row is a tombstone, so the two orders end in the same rows. */
  lemma DeleteFreeOrdersConverge(h: seq<Statement>, g: seq<Statement>, r: Row)
    requires History(h) && History(g) && SameStored(h, g) && OneLatest(h)
    requires forall i | 0 <= i < |h| :: !h[i].Delete?
    requires forall i | 0 <= i < |g| :: !g[i].Delete?
    ensures r in Run(h).events <==> r in Run(g).events
  {
    hide RowFor, Run, SameSlot, History;
    NoTombstones(h);
    NoTombstones(g);
    OrdersConverge(h, g, r);
    if r in Run(h).events {
      assert Undeleted(r) == r && Holds(Run(h).events, r);
    }
    if r in Run(g).events {
      assert Undeleted(r) == r && Holds(Run(g).events, r);
    }
  }

  lemma NoTombstones(h: seq<Statement>)
    requires History(h) && forall i | 0 <= i < |h| :: !h[i].Delete?
    ensures forall r | r in Run(h).events :: !r.deleted
  {
    hide Run, History;
    forall r | r in Run(h).events ensures !r.deleted {
      if r.deleted {
        TombstonesWereCondemned(h, r);
        assert false;
      }
    }
  }

  /** Deletions themselves do not commute with what they name: a delete that comes first has no effect. */
  lemma DeletesDoNotCommute(e: Event, d: Event)
    requires Legal(Create(e)) && Legal(Delete(d)) && e.pubkey == d.pubkey && HasETag(d.tags, e.id)
    ensures !Visible(Run([Create(e), Delete(d)]).events, ToBuffer(e.id))
    ensures Visible(Run([Delete(d), Create(e)]).events, ToBuffer(e.id))
  {
    hide AfterTrigger, FireTriggers, ToBuffer, IdsToDelete;
    var c, x := Create(e), Delete(d);
    var r := RowFor(c);
    assert [c, x][..1] == [c] && [c][..0] == [] && [x, c][..1] == [x] && [x][..0] == [];
    assert Run([c]).events == [r];
    assert Run([x]).events == [];
    assert Run([x, c]).events == [r] && [r][0] == r;
    var ids := IdsToDelete(d.tags);
    InIdsToDelete(d.tags, e.id);
    var i :| 0 <= i < |ids| && ids[i] == e.id;
    assert Buffers(ids)[i] == r.eventId;
    assert Condemned(r, ToBuffer(d.pubkey), Buffers(ids));
    assert Run([c, x]).events == [r.(deleted := true)];
  }

  // ----- the tag index -----

  lemma {:induction false} TagCount(index: seq<TagRow>, t: TagRow)
    ensures multiset(index)[t] == multiset(TagsFor(index, t.eventId))[t]
  {
    if index != [] {
      TagCount(index[1..], t);
      assert index == [index[0]] + index[1..];
    }
  }

  /** After any run the tag index is, as a bag, the indexable tags of the rows in the table and nothing else. */
  lemma TagIndexIsExact(h: seq<Statement>, t: TagRow)
    requires History(h)
    ensures forall i | 0 <= i < |Run(h).events| && Run(h).events[i].eventId == t.eventId ::
              multiset(Run(h).eventTags)[t] == multiset(IndexedTags(t.eventId, Run(h).events[i].tags))[t]
    ensures !HasId(Run(h).events, t.eventId) ==> t !in Run(h).eventTags
  {
    hide Run, IndexedTags, TagsFor, Settled;
    Reachable(h);
    TagCount(Run(h).eventTags, t);
  }

  /** In a run no upsert ever meets another row with its event id, so its "already exists" reply is dead code. */
  lemma UpsertsNeverViolate(h: seq<Statement>, c: Statement)
    requires History(h + [c])
    ensures Execute(Run(h), c).Ok?
  {
    hide Run, Execute, History;
    LastLegal(h, c);
    Reachable(h);
    NoUniqueViolation(h, c, Run(h));
  }
}
