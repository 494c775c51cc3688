/**
 EventRepository.findByFilters: a filter becomes a WHERE clause over byte columns and one joined row of
 the tag index.  The clause is given a meaning here and proved to select what the live matcher accepts.
 */
module FilterQuery {
  import opened Wrappers
  import opened Hex
  import opened Nostr
  import opened Sql

  datatype Column = EventId | EventPubkey

  datatype Cond =
    | Never
    | ColumnIn(column: Column, values: seq<Bytes>)
    | SubstringIs(column: Column, n: nat, bytes: Bytes)
    | SubstringBetween(column: Column, n: nat, lo: Bytes, hi: Bytes)
    | KindIn(kinds: seq<int>)
    | CreatedFrom(time: int)
    | CreatedTo(time: int)
    | TagIs(name: string, value: string)
    | AnyOf(conds: seq<Cond>)

  /** `tagWhere` holds one conjunct for each generic tag key of the filter. */
  datatype Query = Query(
    where: seq<Cond>, tagWhere: map<char, Cond>, joined: bool, limit: nat, newestFirst: bool)

  // ----- meaning -----

  function ColumnOf(r: Row, column: Column): Bytes {
    match column
    case EventId => r.eventId
    case EventPubkey => r.pubkey
  }

  /** Whether SQL finds the condition true of a row joined with `t`; a NULL tag row makes TagIs not true. */
  predicate Holds(c: Cond, r: Row, t: Option<TagRow>) {
    match c
    case Never => false
    case ColumnIn(column, values) => ColumnOf(r, column) in values
    case SubstringIs(column, n, bytes) => Substring(ColumnOf(r, column), n) == bytes
    case SubstringBetween(column, n, lo, hi) => Between(lo, Substring(ColumnOf(r, column), n), hi)
    case KindIn(kinds) => r.kind in kinds
    case CreatedFrom(time) => r.createdAt >= time
    case CreatedTo(time) => r.createdAt <= time
    case TagIs(name, value) => t.Some? && t.value.name == name && t.value.value == value
    case AnyOf(conds) => exists i | 0 <= i < |conds| :: Holds(conds[i], r, t)
  }

  /** The rows a LEFT JOIN pairs with an event row: its tag rows, or one NULL row when it has none. */
  ghost predicate LeftJoins(r: Row, index: seq<TagRow>, t: Option<TagRow>) {
    match t
    case Some(row) => row in index && row.eventId == r.eventId
    case None => forall row | row in index :: row.eventId != r.eventId
  }

  ghost predicate SelectsWith(q: Query, r: Row, t: Option<TagRow>) {
    && (forall i | 0 <= i < |q.where| :: Holds(q.where[i], r, t))
    && (forall k | k in q.tagWhere :: Holds(q.tagWhere[k], r, t))
  }

  ghost predicate Selects(q: Query, r: Row, index: seq<TagRow>) {
    if q.joined then exists t :: LeftJoins(r, index, t) && SelectsWith(q, r, t)
    else SelectsWith(q, r, None)
  }

  /** The union of the subqueries of one REQ. */
  ghost predicate SelectsAny(qs: seq<Query>, r: Row, index: seq<TagRow>) {
    exists i | 0 <= i < |qs| :: Selects(qs[i], r, index)
  }

  // ----- compilation -----

  datatype LengthGroup = Exact | Even | Odd

  function GroupOf(prefix: string): LengthGroup {
    if |prefix| == 64 then Exact else if |prefix| % 2 == 0 then Even else Odd
  }

  /** groupByLengthSpec */
  function InGroup(prefixes: seq<string>, g: LengthGroup): seq<string> {
    if prefixes == [] then []
    else (if GroupOf(prefixes[0]) == g then [prefixes[0]] else []) + InGroup(prefixes[1..], g)
  }

  function PrefixCond(column: Column, prefix: string): Cond {
    if |prefix| % 2 == 0 then SubstringIs(column, |prefix| / 2, ToBuffer(prefix))
    else SubstringBetween(column, |prefix| / 2 + 1, ToBuffer(prefix + "0"), ToBuffer(prefix + "f"))
  }

  function PrefixConds(column: Column, prefixes: seq<string>): seq<Cond> {
    seq(|prefixes|, i requires 0 <= i < |prefixes| => PrefixCond(column, prefixes[i]))
  }

  function Alternatives(column: Column, prefixes: seq<string>): seq<Cond> {
    var exact := InGroup(prefixes, Exact);
    (if exact == [] then [] else [ColumnIn(column, Buffers(exact))])
    + PrefixConds(column, InGroup(prefixes, Even))
    + PrefixConds(column, InGroup(prefixes, Odd))
  }

  function PrefixClause(column: Column, prefixes: Option<seq<string>>): seq<Cond> {
    match prefixes
    case None => []
    case Some(ps) => if ps == [] then [Never] else [AnyOf(Alternatives(column, ps))]
  }

  function TagConds(key: char, criteria: seq<string>): seq<Cond> {
    seq(|criteria|, i requires 0 <= i < |criteria| => TagIs([key], criteria[i]))
  }

  function TagClause(key: char, criteria: seq<string>): Cond {
    if criteria == [] then Never else AnyOf(TagConds(key, criteria))
  }

  function TagClauses(tags: map<char, seq<string>>): map<char, Cond> {
    map k | k in tags :: TagClause(k, tags[k])
  }

  function Compile(f: Filter): Query {
    Query(
      PrefixClause(EventPubkey, f.authors) + PrefixClause(EventId, f.ids)
      + ScalarClauses(f),
      TagClauses(f.tags),
      f.tags != map[],
      if f.limit.Some? then f.limit.value else 500,
      f.limit.Some?)
  }

  function CompileAll(filters: seq<Filter>): seq<Query> {
    seq(|filters|, i requires 0 <= i < |filters| => Compile(filters[i]))
  }

  // ----- the query builder -----

  class QueryBuilder {
    var where: seq<Cond>
    var tagWhere: map<char, Cond>
    var joined: bool
    var limit: nat
    var newestFirst: bool

    constructor ()
      ensures where == [] && tagWhere == map[] && !joined && limit == 500 && !newestFirst
    {
      where, tagWhere, joined, limit, newestFirst := [], map[], false, 500, false;
    }

    function ToQuery(): Query
      reads this
    {
      Query(where, tagWhere, joined, limit, newestFirst)
    }

    /** One substring comparison for each prefix of even length. */
    method EvenAlternatives(column: Column, even: seq<string>) returns (alternatives: seq<Cond>)
      requires forall p | p in even :: |p| % 2 == 0
      ensures alternatives == PrefixConds(column, even)
    {
      hide ToBuffer;
      alternatives := [];
      for i := 0 to |even|
        invariant alternatives == PrefixConds(column, even)[..i]
      {
        alternatives := alternatives + [SubstringIs(column, |even[i]| / 2, ToBuffer(even[i]))];
      }
    }

    /** One range for each prefix of odd length. */
    method OddAlternatives(column: Column, odd: seq<string>) returns (alternatives: seq<Cond>)
      requires forall p | p in odd :: |p| % 2 == 1
      ensures alternatives == PrefixConds(column, odd)
    {
      hide ToBuffer;
      alternatives := [];
      for i := 0 to |odd|
        invariant alternatives == PrefixConds(column, odd)[..i]
      {
        alternatives := alternatives
          + [SubstringBetween(column, |odd[i]| / 2 + 1, ToBuffer(odd[i] + "0"), ToBuffer(odd[i] + "f"))];
      }
    }

    method AndWherePrefixes(column: Column, prefixes: Option<seq<string>>)
      modifies this`where
      ensures where == old(where) + PrefixClause(column, prefixes)
    {
      if prefixes.None? {
        return;
      }
      if prefixes.value == [] {
        where := where + [Never];
        return;
      }
      hide ToBuffer, InGroup, PrefixConds;
      GroupLengths(prefixes.value);
      var alternatives: seq<Cond> := [];
      var exact := InGroup(prefixes.value, Exact);
      if exact != [] {
        alternatives := [ColumnIn(column, Buffers(exact))];
      }
      var even := EvenAlternatives(column, InGroup(prefixes.value, Even));
      var odd := OddAlternatives(column, InGroup(prefixes.value, Odd));
      where := where + [AnyOf(alternatives + even + odd)];
    }

    method AndWhereScalars(f: Filter)
      requires limit == 500 && !newestFirst
      modifies this`where, this`limit, this`newestFirst
      ensures where == old(where) + ScalarClauses(f)
      ensures limit == (if f.limit.Some? then f.limit.value else 500) && newestFirst == f.limit.Some?
    {
      if f.kinds.Some? {
        where := where + [KindIn(f.kinds.value)];
      }
      if f.since.Some? {
        where := where + [CreatedFrom(f.since.value)];
      }
      if f.until.Some? {
        where := where + [CreatedTo(f.until.value)];
      }
      if f.limit.Some? {
        limit, newestFirst := f.limit.value, true;
      }
    }

    method BuildTagClause(key: char, criteria: seq<string>) returns (clause: Cond)
      ensures clause == TagClause(key, criteria)
    {
      if criteria == [] {
        return Never;
      }
      var alternatives: seq<Cond> := [];
      for i := 0 to |criteria|
        invariant alternatives == TagConds(key, criteria)[..i]
      {
        alternatives := alternatives + [TagIs([key], criteria[i])];
      }
      assert alternatives == TagConds(key, criteria);
      return AnyOf(alternatives);
    }

    method AndWhereTags(tags: map<char, seq<string>>)
      modifies this`tagWhere, this`joined
      requires tagWhere == map[] && !joined
      ensures tagWhere == TagClauses(tags)
      ensures joined <==> tags != map[]
    {
      hide TagClause, TagClauses;
      NoTagClauses(tags);
      var keys := tags.Keys;
      while keys != {}
        invariant keys <= tags.Keys
        invariant tagWhere == TagClauses(tags - keys)
        invariant !joined ==> keys == tags.Keys
        invariant joined ==> tags != map[]
        decreases |keys|
      {
        var key :| key in keys;
        OneTagClauseMore(tags, keys, key);
        joined := true;
        var clause := BuildTagClause(key, tags[key]);
        tagWhere := tagWhere[key := clause];
        keys := keys - {key};
      }
      assert tags - {} == tags;
    }
  }

  lemma NoTagClauses(tags: map<char, seq<string>>)
    ensures TagClauses(tags - tags.Keys) == map[]
  {
    assert tags - tags.Keys == map[];
  }

  lemma OneTagClauseMore(tags: map<char, seq<string>>, keys: set<char>, key: char)
    requires key in keys && keys <= tags.Keys
    ensures TagClauses(tags - (keys - {key})) == TagClauses(tags - keys)[key := TagClause(key, tags[key])]
  {
    hide TagClause;
  }

  lemma {:induction false} GroupParity(prefixes: seq<string>, p: string)
    ensures forall g :: p in InGroup(prefixes, g) <==> p in prefixes && GroupOf(p) == g
  {
    if prefixes != [] {
      GroupParity(prefixes[1..], p);
      assert p in prefixes <==> p == prefixes[0] || p in prefixes[1..];
    }
  }

  lemma GroupLengths(prefixes: seq<string>)
    ensures forall p | p in InGroup(prefixes, Even) :: |p| % 2 == 0
    ensures forall p | p in InGroup(prefixes, Odd) :: |p| % 2 == 1
  {
    forall p ensures forall g :: p in InGroup(prefixes, g) <==> p in prefixes && GroupOf(p) == g {
      GroupParity(prefixes, p);
    }
  }

  function ScalarClauses(f: Filter): seq<Cond> {
    (if f.kinds.Some? then [KindIn(f.kinds.value)] else [])
    + (if f.since.Some? then [CreatedFrom(f.since.value)] else [])
    + (if f.until.Some? then [CreatedTo(f.until.value)] else [])
  }

  method BuildQuery(f: Filter) returns (q: Query)
    ensures q == Compile(f)
  {
    var builder := new QueryBuilder();
    builder.AndWherePrefixes(EventPubkey, f.authors);
    builder.AndWherePrefixes(EventId, f.ids);
    builder.AndWhereScalars(f);
    builder.AndWhereTags(f.tags);
    q := builder.ToQuery();
  }

  method FindByFilters(filters: seq<Filter>) returns (r: Result<seq<Query>, string>)
    ensures filters == [] <==> r.Err?
    ensures r.Ok? ==> r.value == CompileAll(filters)
  {
    if filters == [] {
      return Err("Filters cannot be empty");
    }
    var queries: seq<Query> := [];
    for i := 0 to |filters|
      invariant queries == CompileAll(filters)[..i]
    {
      var q := BuildQuery(filters[i]);
      queries := queries + [q];
    }
    return Ok(queries);
  }

  // ----- the compiled clause means what the matcher means -----

  /** The tag index holds, for this row, what the trigger writes for it. */
  ghost predicate IndexHolds(r: Row, index: seq<TagRow>) {
    forall t :: t in index && t.eventId == r.eventId <==> t in IndexedTags(r.eventId, r.tags)
  }

  /** Criteria that JSON writes as they are. */
  predicate PlainCriteria(f: Filter) {
    forall k | k in f.tags :: forall i | 0 <= i < |f.tags[k]| :: Plain(f.tags[k][i])
  }

  lemma PrefixCondMeans(column: Column, prefixes: seq<string>, g: LengthGroup, i: nat, r: Row, t: Option<TagRow>)
    requires g != Exact && i < |InGroup(prefixes, g)|
    ensures Holds(PrefixConds(column, InGroup(prefixes, g))[i], r, t)
            <==> PrefixTest(InGroup(prefixes, g)[i], ColumnOf(r, column))
    ensures InGroup(prefixes, g)[i] in prefixes
  {
    hide Substring, FromBuffer, ToBuffer, Between;
    GroupParity(prefixes, InGroup(prefixes, g)[i]);
    assert InGroup(prefixes, g)[i] in InGroup(prefixes, g);
  }

  lemma ExactMeans(prefixes: seq<string>, bytes: Bytes)
    ensures bytes in Buffers(InGroup(prefixes, Exact))
            <==> exists p | p in prefixes :: GroupOf(p) == Exact && PrefixTest(p, bytes)
  {
    hide ToBuffer;
    var exact := InGroup(prefixes, Exact);
    if i :| 0 <= i < |exact| && Buffers(exact)[i] == bytes {
      GroupParity(prefixes, exact[i]);
      assert exact[i] in exact;
      assert exact[i] in prefixes && PrefixTest(exact[i], bytes);
    }
    if p :| p in prefixes && GroupOf(p) == Exact && PrefixTest(p, bytes) {
      GroupParity(prefixes, p);
      var i :| 0 <= i < |exact| && exact[i] == p;
      assert Buffers(exact)[i] == bytes;
    }
  }

  lemma PrefixCondsLength(column: Column, prefixes: seq<string>)
    ensures |PrefixConds(column, prefixes)| == |prefixes|
  {
  }

  lemma AlternativesSound(column: Column, prefixes: seq<string>, r: Row, t: Option<TagRow>)
    requires Holds(AnyOf(Alternatives(column, prefixes)), r, t)
    ensures exists p | p in prefixes :: PrefixTest(p, ColumnOf(r, column))
  {
    hide PrefixTest, InGroup, PrefixConds, Buffers;
    var conds, bytes := Alternatives(column, prefixes), ColumnOf(r, column);
    var exact, even, odd := InGroup(prefixes, Exact), InGroup(prefixes, Even), InGroup(prefixes, Odd);
    var n := if exact == [] then 0 else 1;
    PrefixCondsLength(column, even);
    PrefixCondsLength(column, odd);
    var i :| 0 <= i < |conds| && Holds(conds[i], r, t);
    if i < n {
      ExactMeans(prefixes, bytes);
    } else if i < n + |even| {
      assert conds[i] == PrefixConds(column, even)[i - n];
      PrefixCondMeans(column, prefixes, Even, i - n, r, t);
    } else {
      assert conds[i] == PrefixConds(column, odd)[i - n - |even|];
      PrefixCondMeans(column, prefixes, Odd, i - n - |even|, r, t);
    }
  }

  lemma AlternativesComplete(column: Column, prefixes: seq<string>, p: string, r: Row, t: Option<TagRow>)
    requires p in prefixes && PrefixTest(p, ColumnOf(r, column))
    ensures Holds(AnyOf(Alternatives(column, prefixes)), r, t)
  {
    hide PrefixTest, InGroup;
    var conds, bytes := Alternatives(column, prefixes), ColumnOf(r, column);
    var exact, even, odd := InGroup(prefixes, Exact), InGroup(prefixes, Even), InGroup(prefixes, Odd);
    var n := if exact == [] then 0 else 1;
    GroupParity(prefixes, p);
    match GroupOf(p) {
      case Exact =>
        ExactMeans(prefixes, bytes);
        assert Holds(conds[0], r, t);
      case Even =>
        var j :| 0 <= j < |even| && even[j] == p;
        PrefixCondMeans(column, prefixes, Even, j, r, t);
        assert Holds(conds[n + j], r, t);
      case Odd =>
        var j :| 0 <= j < |odd| && odd[j] == p;
        PrefixCondMeans(column, prefixes, Odd, j, r, t);
        assert Holds(conds[n + |even| + j], r, t);
    }
  }

  lemma AlternativesMean(column: Column, prefixes: seq<string>, r: Row, t: Option<TagRow>)
    requires forall p | p in prefixes :: ValidPrefix(p)
    requires ColumnWidths(r)
    ensures Holds(AnyOf(Alternatives(column, prefixes)), r, t)
            <==> SomePrefix(prefixes, FromBuffer(ColumnOf(r, column)))
  {
    hide Alternatives, Holds, PrefixTest;
    var bytes := ColumnOf(r, column);
    forall p | p in prefixes ensures PrefixTest(p, bytes) <==> p <= FromBuffer(bytes) {
      PrefixTestIsTextPrefix(p, bytes);
    }
    if Holds(AnyOf(Alternatives(column, prefixes)), r, t) {
      AlternativesSound(column, prefixes, r, t);
    }
    if p :| p in prefixes && PrefixTest(p, bytes) {
      AlternativesComplete(column, prefixes, p, r, t);
    }
  }

  lemma TagClauseMeans(key: char, criteria: seq<string>, r: Row, t: Option<TagRow>)
    ensures Holds(TagClause(key, criteria), r, t) <==> t.Some? && t.value.name == [key] && t.value.value in criteria
  {
    var conds := TagConds(key, criteria);
    if t.Some? && t.value.name == [key] && t.value.value in criteria {
      var i :| 0 <= i < |criteria| && criteria[i] == t.value.value;
      assert Holds(conds[i], r, t);
    }
  }

  /** A tag as the trigger indexes it: both texts in JSON form, without their outer quotes. */
  predicate IndexedTagMatches(t: Tag, key: char, criteria: seq<string>) {
    |t| >= 2 && Indexed(t[0]) == [key] && Indexed(t[1]) in criteria
  }

  predicate SomeIndexedTag(tags: seq<Tag>, key: char, criteria: seq<string>) {
    exists t | t in tags :: IndexedTagMatches(t, key, criteria)
  }

  /** A row has an index entry among the criteria exactly when it carries a tag whose indexed form is one of them. */
  lemma IndexedTagMeans(r: Row, index: seq<TagRow>, key: char, criteria: seq<string>)
    requires IndexHolds(r, index) && "" !in criteria
    ensures (exists t | t in index :: t.eventId == r.eventId && t.name == [key] && t.value in criteria)
            <==> SomeIndexedTag(r.tags, key, criteria)
  {
    hide Indexed;
    if row :| row in index && row.eventId == r.eventId && row.name == [key] && row.value in criteria {
      InIndexedTags(r.eventId, r.tags, row);
      var t :| t in r.tags && IndexedTag(r.eventId, t) == [row];
      assert [row][0] == TagRow(r.eventId, Indexed(t[0]), Indexed(t[1]));
      assert IndexedTagMatches(t, key, criteria);
    }
    if t :| t in r.tags && IndexedTagMatches(t, key, criteria) {
      var row := TagRow(r.eventId, Indexed(t[0]), Indexed(t[1]));
      assert IndexedTag(r.eventId, t) == [row];
      InIndexedTags(r.eventId, r.tags, row);
    }
  }

  /** Plain criteria are found in the index exactly as they are found in the tags. */
  lemma PlainTagMeans(tags: seq<Tag>, key: char, criteria: seq<string>)
    requires 'a' <= key <= 'z' && "" !in criteria && forall i | 0 <= i < |criteria| :: Plain(criteria[i])
    ensures SomeIndexedTag(tags, key, criteria) <==> SomeTag(tags, key, criteria)
  {
    hide Indexed;
    forall t | t in tags && |t| >= 2 ensures IndexedTagMatches(t, key, criteria) <==> TagMatches(t, key, criteria) {
      IndexedIsPlainText(t[0], [key]);
      assert Plain([key]);
      forall c | c in criteria ensures Indexed(t[1]) == c <==> t[1] == c {
        IndexedIsPlainText(t[1], c);
      }
    }
  }

  lemma PrefixClauseMeans(column: Column, prefixes: Option<seq<string>>, r: Row, t: Option<TagRow>)
    requires prefixes.Some? ==> forall p | p in prefixes.value :: ValidPrefix(p)
    requires ColumnWidths(r)
    ensures (forall i | 0 <= i < |PrefixClause(column, prefixes)| :: Holds(PrefixClause(column, prefixes)[i], r, t))
            <==> (prefixes.Some? ==> SomePrefix(prefixes.value, FromBuffer(ColumnOf(r, column))))
  {
    hide Alternatives, ValidPrefix;
    if prefixes.Some? && prefixes.value != [] {
      AlternativesMean(column, prefixes.value, r, t);
      var clause := PrefixClause(column, prefixes);
      assert clause == [AnyOf(Alternatives(column, prefixes.value))];
      assert clause[0] == AnyOf(Alternatives(column, prefixes.value));
    } else if prefixes.Some? {
      assert PrefixClause(column, prefixes)[0] == Never;
    }
  }

  /** The part of the clause that does not look at tags. */
  predicate MatchesUntagged(f: Filter, e: Event) {
    Matches(f.(tags := map[]), e)
  }

  lemma ScalarClausesMean(f: Filter, r: Row, t: Option<TagRow>)
    ensures (forall i | 0 <= i < |ScalarClauses(f)| :: Holds(ScalarClauses(f)[i], r, t))
            <==> (f.kinds.Some? ==> r.kind in f.kinds.value)
                 && (f.since.Some? ==> r.createdAt >= f.since.value)
                 && (f.until.Some? ==> r.createdAt <= f.until.value)
  {
    var a := if f.kinds.Some? then [KindIn(f.kinds.value)] else [];
    var b := if f.since.Some? then [CreatedFrom(f.since.value)] else [];
    var c := if f.until.Some? then [CreatedTo(f.until.value)] else [];
    var all := ScalarClauses(f);
    assert all == a + b + c;
    assert f.kinds.Some? ==> all[0] == a[0];
    assert f.since.Some? ==> all[|a|] == b[0];
    assert f.until.Some? ==> all[|a| + |b|] == c[0];
  }

  lemma AllOfAppend(a: seq<Cond>, b: seq<Cond>, r: Row, t: Option<TagRow>)
    ensures (forall i | 0 <= i < |a + b| :: Holds((a + b)[i], r, t))
            <==> (forall i | 0 <= i < |a| :: Holds(a[i], r, t)) && (forall i | 0 <= i < |b| :: Holds(b[i], r, t))
  {
    hide Holds;
    assert forall i | 0 <= i < |a| :: a[i] == (a + b)[i];
    assert forall i | 0 <= i < |b| :: b[i] == (a + b)[|a| + i];
  }

  lemma WhereMeans(f: Filter, r: Row, t: Option<TagRow>)
    requires ValidFilter(f) && ColumnWidths(r)
    ensures (forall i | 0 <= i < |Compile(f).where| :: Holds(Compile(f).where[i], r, t))
            <==> MatchesUntagged(f, ToNostrEvent(r))
  {
    hide Holds, PrefixClause, ScalarClauses;
    var a, b, c := PrefixClause(EventPubkey, f.authors), PrefixClause(EventId, f.ids), ScalarClauses(f);
    PrefixClauseMeans(EventPubkey, f.authors, r, t);
    PrefixClauseMeans(EventId, f.ids, r, t);
    ScalarClausesMean(f, r, t);
    AllOfAppend(a + b, c, r, t);
    AllOfAppend(a, b, r, t);
    assert Compile(f).where == a + b + c;
  }

  predicate TagRowFits(f: Filter, t: Option<TagRow>) {
    forall k | k in f.tags :: t.Some? && t.value.name == [k] && t.value.value in f.tags[k]
  }

  lemma NoTagsFit(f: Filter)
    requires f.tags == map[]
    ensures TagRowFits(f, None) && forall e :: MatchesUntagged(f, e) <==> Matches(f, e)
  {
    assert f.(tags := map[]) == f;
  }

  lemma SelectsWithMeans(f: Filter, r: Row, t: Option<TagRow>)
    requires ValidFilter(f) && ColumnWidths(r)
    ensures SelectsWith(Compile(f), r, t) <==> MatchesUntagged(f, ToNostrEvent(r)) && TagRowFits(f, t)
  {
    hide Holds, MatchesUntagged;
    WhereMeans(f, r, t);
    forall k | k in f.tags
      ensures Holds(Compile(f).tagWhere[k], r, t) <==> t.Some? && t.value.name == [k] && t.value.value in f.tags[k]
    {
      TagClauseMeans(k, f.tags[k], r, t);
    }
    assert Compile(f).tagWhere.Keys == f.tags.Keys;
  }

  lemma OneKey(f: Filter, k: char)
    requires k in f.tags
    ensures |f.tags| <= 1 <==> f.tags.Keys == {k}
  {
    assert |f.tags| == |f.tags.Keys|;
    if f.tags.Keys != {k} {
      assert f.tags.Keys == {k} + (f.tags.Keys - {k});
      var j :| j in f.tags.Keys - {k};
      assert f.tags.Keys == {j, k} + (f.tags.Keys - {j, k});
    }
  }

  /** Whether some row joined by the query fits all tag keys of the filter at once. */
  lemma JoinedTagsMean(f: Filter, k: char, r: Row, index: seq<TagRow>)
    requires ValidFilter(f) && IndexHolds(r, index) && k in f.tags
    ensures (exists t :: LeftJoins(r, index, t) && TagRowFits(f, t))
            <==> |f.tags| <= 1 && SomeIndexedTag(r.tags, k, f.tags[k])
  {
    hide IndexHolds, SomeIndexedTag;
    OneKey(f, k);
    IndexedTagMeans(r, index, k, f.tags[k]);
    if t :| LeftJoins(r, index, t) && TagRowFits(f, t) {
      forall j | j in f.tags ensures j == k {
        assert [j] == t.value.name == [k];
        assert [j][0] == [k][0];
      }
      assert f.tags.Keys == {k};
    }
    if |f.tags| <= 1 && SomeIndexedTag(r.tags, k, f.tags[k]) {
      var row :| row in index && row.eventId == r.eventId && row.name == [k] && row.value in f.tags[k];
      assert LeftJoins(r, index, Some(row)) && TagRowFits(f, Some(row));
    }
  }

  /** The matcher with tags compared in the form the trigger indexes. */
  predicate MatchesIndexed(f: Filter, e: Event) {
    MatchesUntagged(f, e) && forall k | k in f.tags :: SomeIndexedTag(e.tags, k, f.tags[k])
  }

  /**
   What the compiled query selects, for every valid filter: nothing when the filter has two generic tag
   keys, because the query asks one joined tag row to carry both names; and with at most one, the rows
   whose event matches once its tags are read as the trigger indexes them.
   */
  lemma CompiledQuerySelects(f: Filter, r: Row, index: seq<TagRow>)
    requires ValidFilter(f) && ColumnWidths(r) && IndexHolds(r, index)
    ensures Selects(Compile(f), r, index) <==> |f.tags| <= 1 && MatchesIndexed(f, ToNostrEvent(r))
  {
    hide IndexHolds, SelectsWith, TagRowFits, LeftJoins, ValidFilter, ColumnWidths, SomeIndexedTag;
    var e := ToNostrEvent(r);
    forall t: Option<TagRow>
      ensures SelectsWith(Compile(f), r, t) <==> MatchesUntagged(f, e) && TagRowFits(f, t)
    {
      SelectsWithMeans(f, r, t);
    }
    if f.tags == map[] {
      NoTagsFit(f);
    } else {
      var k :| k in f.tags;
      JoinedTagsMean(f, k, r, index);
      OneKey(f, k);
    }
  }

  lemma PlainMatches(f: Filter, e: Event)
    requires ValidFilter(f) && PlainCriteria(f)
    ensures MatchesIndexed(f, e) <==> Matches(f, e)
  {
    hide SomeIndexedTag, SomeTag, Plain;
    forall k | k in f.tags ensures SomeIndexedTag(e.tags, k, f.tags[k]) <==> SomeTag(e.tags, k, f.tags[k]) {
      PlainTagMeans(e.tags, k, f.tags[k]);
    }
  }

  /**
   The compiled query and the live matcher agree on every row, for every valid filter with plain
   criteria, exactly when the filter has at most one generic tag key or does not match.
   */
  lemma CompiledQueryMeans(f: Filter, r: Row, index: seq<TagRow>)
    requires ValidFilter(f) && PlainCriteria(f)
    requires ColumnWidths(r) && IndexHolds(r, index)
    ensures Selects(Compile(f), r, index) <==> |f.tags| <= 1 && Matches(f, ToNostrEvent(r))
  {
    hide Selects, MatchesIndexed, Matches, Compile;
    CompiledQuerySelects(f, r, index);
    PlainMatches(f, ToNostrEvent(r));
  }

  /**
   The query of a whole REQ selects a row exactly when one of its filters with at most one tag key matches
   with tags read in indexed form, which for plain criteria is when such a filter matches.
   */
  lemma UnionMeans(filters: seq<Filter>, r: Row, index: seq<TagRow>)
    requires forall f | f in filters :: ValidFilter(f)
    requires ColumnWidths(r) && IndexHolds(r, index)
    ensures SelectsAny(CompileAll(filters), r, index)
            <==> exists f | f in filters :: |f.tags| <= 1 && MatchesIndexed(f, ToNostrEvent(r))
    ensures (forall f | f in filters :: PlainCriteria(f)) ==>
              (SelectsAny(CompileAll(filters), r, index)
               <==> exists f | f in filters :: |f.tags| <= 1 && Matches(f, ToNostrEvent(r)))
  {
    hide Selects, Compile, Matches, MatchesIndexed, ValidFilter, PlainCriteria, IndexHolds;
    forall f | f in filters
      ensures Selects(Compile(f), r, index) <==> |f.tags| <= 1 && MatchesIndexed(f, ToNostrEvent(r))
      ensures PlainCriteria(f) ==> (MatchesIndexed(f, ToNostrEvent(r)) <==> Matches(f, ToNostrEvent(r)))
    {
      CompiledQuerySelects(f, r, index);
      if PlainCriteria(f) {
        PlainMatches(f, ToNostrEvent(r));
      }
    }
    if f :| f in filters && Selects(Compile(f), r, index) {
      var i :| 0 <= i < |filters| && filters[i] == f;
      assert Selects(CompileAll(filters)[i], r, index);
    }
    if i :| 0 <= i < |filters| && Selects(CompileAll(filters)[i], r, index) {
      assert filters[i] in filters && Selects(Compile(filters[i]), r, index);
    }
  }

  // ----- criteria that JSON escapes -----

  function Weight(s: string): nat {
    2 * |s| + if s != "" && s[|s| - 1] == '"' then 0 else 1
  }

  lemma {:induction false} EscapeLengthens(s: string)
    ensures |Escape(s)| >= |s|
    ensures !Plain(s) ==> |Escape(s)| > |s|
  {
    hide EscapeChar;
    if s != "" {
      EscapeLengthens(s[1..]);
      if JsonPlain(s[0]) && Plain(s[1..]) {
        assert forall i | 0 <= i < |s| :: i > 0 ==> s[i] == s[1..][i - 1];
      }
    }
  }

  /** Indexing an escaped text never leads back: the indexed text is escaped again and weighs more. */
  lemma IndexedGrows(s: string)
    requires !Plain(s)
    ensures !Plain(Indexed(s)) && Weight(Indexed(s)) > Weight(s)
  {
    hide Indexed, Escape, EscapeChar;
    var front, last := s[..|s| - 1], s[|s| - 1];
    assert s == front + [last];
    EscapeLengthens(s);
    EscapeLengthens(front);
    if last == '"' {
      IndexedAfterQuote(front);
      assert Indexed(s)[|Indexed(s)| - 1] == '\\';
    } else {
      IndexedAfterOther(front, last);
      EscapePlain(s);
      EscapeSnoc(front, last);
      var tail := EscapeChar(last);
      assert Indexed(s)[|Indexed(s)| - 1] == tail[|tail| - 1];
      var i :| 0 <= i < |Escape(s)| && Escape(s)[i] == '\\';
      assert !JsonPlain(Indexed(s)[i]);
    }
  }

  /** A criterion that a stored tag can carry, and that JSON escapes. */
  predicate Escapes(c: string) {
    !Plain(c) && NulFree(c)
  }

  lemma {:induction false} HeaviestEscaped(criteria: seq<string>) returns (c: string)
    requires exists i :: 0 <= i < |criteria| && Escapes(criteria[i])
    ensures c in criteria && Escapes(c)
    ensures forall i | 0 <= i < |criteria| && Escapes(criteria[i]) :: Weight(criteria[i]) <= Weight(c)
  {
    hide Escapes, Weight;
    var n := |criteria| - 1;
    if exists i :: 0 <= i < n && Escapes(criteria[i]) {
      c := HeaviestEscaped(criteria[..n]);
      if Escapes(criteria[n]) && Weight(c) < Weight(criteria[n]) {
        c := criteria[n];
      }
    } else {
      c := criteria[n];
    }
  }

  /**
   The plainness of criteria is needed as well: whenever a criterion needs escaping, some storable event
   that matches live is not found by the query once it is stored.
   */
  lemma EscapedCriteriaMissed(f: Filter, key: char, r: Row) returns (tags: seq<Tag>)
    requires ValidFilter(f) && f.tags.Keys == {key}
    requires exists i :: 0 <= i < |f.tags[key]| && Escapes(f.tags[key][i])
    requires ColumnWidths(r) && MatchesUntagged(f, ToNostrEvent(r))
    ensures Storable(tags) && Matches(f, ToNostrEvent(r.(tags := tags)))
    ensures !Selects(Compile(f), r.(tags := tags), IndexedTags(r.eventId, tags))
  {
    hide Holds, Weight, Plain, Indexed, Storable;
    var c := HeaviestEscaped(f.tags[key]);
    IndexedGrows(c);
    IndexedNulFree(c);
    assert Indexed(c) !in f.tags[key];
    tags := [[[key], c]];
    OneTagStorable(key, c);
    var row, index := r.(tags := tags), IndexedTags(r.eventId, tags);
    assert TagMatches(tags[0], key, f.tags[key]);
    forall t | LeftJoins(row, index, t) ensures !SelectsWith(Compile(f), row, t) {
      SelectsWithMeans(f, row, t);
      if t.Some? {
        InIndexedTags(r.eventId, tags, t.value);
      }
    }
  }

  lemma OneTagStorable(key: char, c: string)
    requires 'a' <= key <= 'z' && NulFree(c)
    ensures Storable([[[key], c]])
  {
  }

  // ----- when exactly the two agree -----

  /** On this row, given these tags, the query and the matcher agree. */
  ghost predicate Agree(f: Filter, r: Row, tags: seq<Tag>) {
    Selects(Compile(f), r.(tags := tags), IndexedTags(r.eventId, tags))
    <==> Matches(f, ToNostrEvent(r.(tags := tags)))
  }

  lemma OwnIndexHolds(r: Row, tags: seq<Tag>)
    ensures IndexHolds(r.(tags := tags), IndexedTags(r.eventId, tags))
  {
    hide Indexed;
    var index := IndexedTags(r.eventId, tags);
    forall t | t in index ensures t.eventId == r.eventId {
      InIndexedTags(r.eventId, tags, t);
    }
  }

  /** A tag query no storable tag can satisfy: it is empty, or every criterion holds a NUL. */
  predicate Dead(criteria: seq<string>) {
    forall i | 0 <= i < |criteria| :: !NulFree(criteria[i])
  }

  predicate NoneEscapes(criteria: seq<string>) {
    forall i | 0 <= i < |criteria| :: !Escapes(criteria[i])
  }

  /** Storable tags that satisfy every tag query whose key is in the set. */
  lemma {:induction false} SatisfyingTags(criteria: map<char, seq<string>>, keys: set<char>) returns (tags: seq<Tag>)
    requires keys <= criteria.Keys && forall k | k in criteria :: 'a' <= k <= 'z' && !Dead(criteria[k])
    ensures Storable(tags) && forall k | k in keys :: SomeTag(tags, k, criteria[k])
    decreases |keys|
  {
    tags := [];
    if keys != {} {
      var key :| key in keys;
      var rest := SatisfyingTags(criteria, keys - {key});
      var i :| 0 <= i < |criteria[key]| && NulFree(criteria[key][i]);
      var tag := [[key], criteria[key][i]];
      tags := [tag] + rest;
      OneTagStorable(key, criteria[key][i]);
      assert TagMatches(tag, key, criteria[key]);
      forall k | k in keys ensures SomeTag(tags, k, criteria[k]) {
        if k == key {
          assert tags[0] == tag;
        } else {
          var t :| t in rest && TagMatches(t, k, criteria[k]);
          assert t in tags;
        }
      }
    }
  }

  lemma TagsDoNotMatter(f: Filter, r: Row, tags: seq<Tag>)
    ensures MatchesUntagged(f, ToNostrEvent(r.(tags := tags))) == MatchesUntagged(f, ToNostrEvent(r))
    ensures Matches(f, ToNostrEvent(r.(tags := tags))) <==>
            MatchesUntagged(f, ToNostrEvent(r)) && forall k | k in f.tags :: SomeTag(tags, k, f.tags[k])
  {
    hide SomePrefix, FromBuffer, SomeTag;
  }

  /** With two keys or more, storable tags that match live are not found by the query. */
  lemma SeveralKeysMissed(f: Filter, r: Row) returns (tags: seq<Tag>)
    requires ValidFilter(f) && ColumnWidths(r) && MatchesUntagged(f, ToNostrEvent(r))
    requires |f.tags| > 1 && forall k | k in f.tags :: !Dead(f.tags[k])
    ensures Storable(tags) && !Agree(f, r, tags)
  {
    hide Selects, Compile, Matches, MatchesUntagged, SomeTag, IndexHolds, MatchesIndexed, Dead, Storable;
    tags := SatisfyingTags(f.tags, f.tags.Keys);
    TagsDoNotMatter(f, r, tags);
    OwnIndexHolds(r, tags);
    CompiledQuerySelects(f, r.(tags := tags), IndexedTags(r.eventId, tags));
  }

  /** A dead tag query is satisfied by no storable tags, in the table or live. */
  lemma DeadAgrees(f: Filter, k: char, r: Row, tags: seq<Tag>)
    requires ValidFilter(f) && ColumnWidths(r) && Storable(tags) && k in f.tags && Dead(f.tags[k])
    ensures Agree(f, r, tags)
  {
    hide Selects, Compile, Matches, MatchesUntagged, IndexHolds, ValidFilter, Indexed;
    TagsDoNotMatter(f, r, tags);
    OwnIndexHolds(r, tags);
    CompiledQuerySelects(f, r.(tags := tags), IndexedTags(r.eventId, tags));
    forall t | t in tags && |t| >= 2
      ensures !TagMatches(t, k, f.tags[k]) && !IndexedTagMatches(t, k, f.tags[k])
    {
      assert t[1] in t;
      IndexedNulFree(t[1]);
    }
  }

  lemma UnescapedTagMeans(tags: seq<Tag>, key: char, criteria: seq<string>)
    requires 'a' <= key <= 'z' && "" !in criteria && NoneEscapes(criteria) && Storable(tags)
    ensures SomeIndexedTag(tags, key, criteria) <==> SomeTag(tags, key, criteria)
  {
    hide Indexed;
    forall t | t in tags && |t| >= 2 ensures IndexedTagMatches(t, key, criteria) <==> TagMatches(t, key, criteria) {
      assert t[1] in t;
      IndexedIsPlainText(t[0], [key]);
      IndexedNulFree(t[1]);
      forall i | 0 <= i < |criteria| ensures Indexed(t[1]) == criteria[i] <==> t[1] == criteria[i] {
        if Plain(criteria[i]) {
          IndexedIsPlainText(t[1], criteria[i]);
        }
      }
    }
  }

  lemma UnescapedAgrees(f: Filter, r: Row, tags: seq<Tag>)
    requires ValidFilter(f) && ColumnWidths(r) && Storable(tags)
    requires |f.tags| <= 1 && forall k | k in f.tags :: NoneEscapes(f.tags[k])
    ensures Agree(f, r, tags)
  {
    hide Selects, Compile, Matches, MatchesUntagged, IndexHolds, SomeTag, SomeIndexedTag, NoneEscapes, Storable;
    TagsDoNotMatter(f, r, tags);
    OwnIndexHolds(r, tags);
    CompiledQuerySelects(f, r.(tags := tags), IndexedTags(r.eventId, tags));
    forall k | k in f.tags ensures SomeIndexedTag(tags, k, f.tags[k]) <==> SomeTag(tags, k, f.tags[k]) {
      UnescapedTagMeans(tags, k, f.tags[k]);
    }
  }

  lemma UnmatchedAgrees(f: Filter, r: Row, tags: seq<Tag>)
    requires ValidFilter(f) && ColumnWidths(r) && !MatchesUntagged(f, ToNostrEvent(r))
    ensures Agree(f, r, tags)
  {
    hide Selects, Compile, Matches, MatchesUntagged, IndexHolds, ValidFilter;
    TagsDoNotMatter(f, r, tags);
    OwnIndexHolds(r, tags);
    CompiledQuerySelects(f, r.(tags := tags), IndexedTags(r.eventId, tags));
  }

  /**
   A filter and a row are answered alike by the query and the matcher, whatever storable tags the row has, if
   and only if the other fields of the filter do not match the row, or one of its tag queries cannot be
   satisfied at all, or it has at most one tag key and none of its criteria is a text that JSON escapes.
   */
  lemma AgreementIsExact(f: Filter, r: Row)
    requires ValidFilter(f) && ColumnWidths(r)
    ensures (forall tags | Storable(tags) :: Agree(f, r, tags))
            <==> !MatchesUntagged(f, ToNostrEvent(r))
                 || (exists k | k in f.tags :: Dead(f.tags[k]))
                 || (|f.tags| <= 1 && forall k | k in f.tags :: NoneEscapes(f.tags[k]))
  {
    hide Agree, MatchesUntagged, ValidFilter, Escapes, Storable, Dead;
    if !MatchesUntagged(f, ToNostrEvent(r)) {
      forall tags | Storable(tags) ensures Agree(f, r, tags) {
        UnmatchedAgrees(f, r, tags);
      }
    } else if k :| k in f.tags && Dead(f.tags[k]) {
      forall tags | Storable(tags) ensures Agree(f, r, tags) {
        DeadAgrees(f, k, r, tags);
      }
    } else if |f.tags| > 1 {
      var tags := SeveralKeysMissed(f, r);
    } else if key :| key in f.tags && !NoneEscapes(f.tags[key]) {
      OneKey(f, key);
      var tags := EscapedCriteriaMissed(f, key, r);
      MissedDisagrees(f, r, tags);
    } else {
      forall tags | Storable(tags) ensures Agree(f, r, tags) {
        UnescapedAgrees(f, r, tags);
      }
    }
  }

  lemma MissedDisagrees(f: Filter, r: Row, tags: seq<Tag>)
    requires Matches(f, ToNostrEvent(r.(tags := tags)))
    requires !Selects(Compile(f), r.(tags := tags), IndexedTags(r.eventId, tags))
    ensures !Agree(f, r, tags)
  {
  }
}
