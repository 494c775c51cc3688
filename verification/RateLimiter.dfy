/** The sliding-window rate limiter over a cache of sorted sets. */
module RateLimiter {
  import opened Wrappers

  /** The member the limiter writes as timestamp:step; its score is the timestamp. */
  datatype Member = Member(timestamp: nat, step: int)

  /** A key's sorted set, and the time in milliseconds at which the cache drops it. */
  datatype SortedSet = SortedSet(scores: map<Member, int>, expiresAt: Option<int>)

  const EMPTY := SortedSet(map[], None)

  // ----- the specification -----

  function Live(s: SortedSet, now: int): SortedSet {
    if s.expiresAt.Some? && s.expiresAt.value <= now then EMPTY else s
  }

  function RemoveRange(scores: map<Member, int>, min: int, max: int): map<Member, int> {
    map m | m in scores && !(min <= scores[m] <= max) :: scores[m]
  }

  /** EXPIRE counts in seconds, and drops the key at once for a count that is not positive. */
  function Expire(s: SortedSet, now: int, seconds: int): SortedSet {
    if seconds <= 0 then EMPTY else s.(expiresAt := Some(now + 1000 * seconds))
  }

  /** The members a hit counts: the old ones outside the removed range, and its own. */
  function Counted(s: SortedSet, hit: Member, period: int): map<Member, int> {
    RemoveRange(Live(s, hit.timestamp).scores, 0, hit.timestamp - period)[hit := hit.timestamp]
  }

  function Hit(s: SortedSet, hit: Member, period: int): SortedSet {
    Expire(SortedSet(Counted(s, hit, period), Live(s, hit.timestamp).expiresAt), hit.timestamp, period)
  }

  ghost function StepSum(s: set<Member>): int {
    if s == {} then 0
    else
      var m :| m in s;
      m.step + StepSum(s - {m})
  }

  // ----- the cache and the limiter -----

  class Cache {
    var sets: map<string, SortedSet>

    constructor ()
      ensures sets == map[]
    {
      sets := map[];
    }

    function At(key: string): SortedSet
      reads this
    {
      if key in sets then sets[key] else EMPTY
    }

    /** Keys whose time has come are gone when the cache is next used. */
    method DropExpired(key: string, now: int)
      modifies this
      ensures At(key) == Live(old(At(key)), now)
      ensures sets == old(sets)[key := At(key)]
    {
      sets := sets[key := Live(At(key), now)];
    }

    method RemoveRangeByScore(key: string, min: int, max: int)
      modifies this
      ensures At(key) == old(At(key)).(scores := RemoveRange(old(At(key)).scores, min, max))
      ensures sets == old(sets)[key := At(key)]
    {
      sets := sets[key := At(key).(scores := RemoveRange(At(key).scores, min, max))];
    }

    method Add(key: string, member: Member, score: int)
      modifies this
      ensures At(key) == old(At(key)).(scores := old(At(key)).scores[member := score])
      ensures sets == old(sets)[key := At(key)]
    {
      sets := sets[key := At(key).(scores := At(key).scores[member := score])];
    }

    /** All members, in some order. */
    method Range(key: string) returns (entries: seq<Member>)
      ensures forall i, j | 0 <= i < j < |entries| :: entries[i] != entries[j]
      ensures forall m :: m in entries <==> m in At(key).scores
    {
      entries := [];
      var left := At(key).scores.Keys;
      while left != {}
        invariant left <= At(key).scores.Keys
        invariant forall i, j | 0 <= i < j < |entries| :: entries[i] != entries[j]
        invariant forall m :: m in entries <==> m in At(key).scores && m !in left
      {
        var m :| m in left;
        entries := entries + [m];
        left := left - {m};
      }
    }

    method SetExpiry(key: string, now: int, seconds: int)
      modifies this
      ensures At(key) == Expire(old(At(key)), now, seconds)
      ensures sets == old(sets)[key := At(key)]
    {
      sets := sets[key := Expire(At(key), now, seconds)];
    }
  }

  class SlidingWindowRateLimiter {
    const cache: Cache

    constructor (cache: Cache)
      ensures this.cache == cache
    {
      this.cache := cache;
    }

    /** `now` is the clock's reading in milliseconds. */
    method RecordHit(key: string, step: int, now: nat, period: int, rate: int) returns (limited: bool)
      modifies cache
      ensures cache.sets == old(cache.sets)[key := Hit(old(cache.At(key)), Member(now, step), period)]
      ensures limited <==> StepSum(Counted(old(cache.At(key)), Member(now, step), period).Keys) > rate
    {
      hide Live, RemoveRange, Expire, StepSum;
      ghost var before := cache.sets;
      cache.DropExpired(key, now);
      cache.RemoveRangeByScore(key, 0, now - period);
      cache.Add(key, Member(now, step), now);
      ghost var counted := cache.At(key).scores;
      assert counted == Counted(old(cache.At(key)), Member(now, step), period);
      assert cache.sets == before[key := cache.At(key)];
      var entries := cache.Range(key);
      assert Elements(entries) == counted.Keys;
      cache.SetExpiry(key, now, period);
      var hits := Sum(entries);
      return hits > rate;
    }
  }

  function Elements(s: seq<Member>): set<Member> {
    set m | m in s
  }

  method Sum(entries: seq<Member>) returns (hits: int)
    requires forall i, j | 0 <= i < j < |entries| :: entries[i] != entries[j]
    ensures hits == StepSum(Elements(entries))
  {
    hits := 0;
    for i := 0 to |entries|
      invariant hits == StepSum(Elements(entries[..i]))
    {
      assert entries[..i + 1] == entries[..i] + [entries[i]];
      assert Elements(entries[..i + 1]) == Elements(entries[..i]) + {entries[i]};
      StepSumAdds(Elements(entries[..i]), entries[i]);
      hits := hits + entries[i].step;
    }
    assert entries[..|entries|] == entries;
  }

  // ----- sums over members -----

  lemma {:induction false} StepSumRemoves(s: set<Member>, m: Member)
    requires m in s
    ensures StepSum(s) == m.step + StepSum(s - {m})
    decreases |s|
  {
    var pick :| pick in s && StepSum(s) == pick.step + StepSum(s - {pick});
    if pick != m {
      StepSumRemoves(s - {pick}, m);
      StepSumRemoves(s - {m}, pick);
      assert s - {pick} - {m} == s - {m} - {pick};
    }
  }

  lemma StepSumAdds(s: set<Member>, m: Member)
    requires m !in s
    ensures StepSum(s + {m}) == StepSum(s) + m.step
  {
    StepSumRemoves(s + {m}, m);
    assert s + {m} - {m} == s;
  }

  lemma {:induction false} StepSumGrows(a: set<Member>, b: set<Member>)
    requires a <= b && forall m | m in b :: m.step >= 0
    ensures StepSum(a) <= StepSum(b)
    decreases |b|
  {
    if b != {} {
      var m :| m in b;
      StepSumRemoves(b, m);
      if m in a {
        StepSumRemoves(a, m);
        StepSumGrows(a - {m}, b - {m});
      } else {
        StepSumGrows(a, b - {m});
      }
    }
  }

  lemma {:induction false} StepSumCounts(s: set<Member>)
    requires forall m | m in s :: m.step == 1
    ensures StepSum(s) == |s|
    decreases |s|
  {
    if s != {} {
      var m :| m in s;
      StepSumRemoves(s, m);
      StepSumCounts(s - {m});
    }
  }

  // ----- runs of hits on one key -----

  predicate Ordered(hits: seq<Member>) {
    forall i, j | 0 <= i < j < |hits| :: hits[i].timestamp <= hits[j].timestamp
  }

  function After(hits: seq<Member>, period: int): SortedSet {
    if hits == [] then EMPTY else Hit(After(hits[..|hits| - 1], period), hits[|hits| - 1], period)
  }

  /** The last hit of the run is answered with "limited". */
  ghost predicate Limited(hits: seq<Member>, period: int, rate: int)
    requires hits != []
  {
    StepSum(Counted(After(hits[..|hits| - 1], period), hits[|hits| - 1], period).Keys) > rate
  }

  /** The members that should be counted at time t. */
  predicate Recent(hits: seq<Member>, m: Member, t: int, period: int) {
    m in hits && t - period < m.timestamp
  }

  ghost predicate Exact(s: SortedSet, hits: seq<Member>, period: int)
    requires hits != []
  {
    var t := hits[|hits| - 1].timestamp;
    s.expiresAt == Some(t + 1000 * period)
    && (forall m :: m in s.scores <==> Recent(hits, m, t, period))
    && forall m | m in s.scores :: s.scores[m] == m.timestamp
  }

  lemma HitKeepsExact(s: SortedSet, hits: seq<Member>, hit: Member, period: int)
    requires period > 0 && Ordered(hits + [hit])
    requires if hits == [] then s == EMPTY else Exact(s, hits, period)
    ensures Exact(Hit(s, hit, period), hits + [hit], period)
    ensures Hit(s, hit, period).scores == Counted(s, hit, period)
  {
    var t, all := hit.timestamp, hits + [hit];
    assert all[|hits|] == hit;
    assert forall i | 0 <= i < |hits| :: all[i] == hits[i];
    forall m ensures m in Counted(s, hit, period) <==> Recent(all, m, t, period) {
      assert m in all <==> m in hits || m == hit;
      if m in hits {
        LastIsLatest(hits, m);
      }
    }
  }

  lemma LastIsLatest(hits: seq<Member>, m: Member)
    requires Ordered(hits) && m in hits
    ensures m.timestamp <= hits[|hits| - 1].timestamp
  {
    var i :| 0 <= i < |hits| && hits[i] == m;
    if i < |hits| - 1 {
      assert hits[i].timestamp <= hits[|hits| - 1].timestamp;
    }
  }

  /** After a hit at t the set holds exactly the distinct members of (t - period, t], expiry or not. */
  lemma {:induction false} WindowIsExact(hits: seq<Member>, period: int)
    requires period > 0 && Ordered(hits) && hits != []
    ensures Exact(After(hits, period), hits, period)
    ensures After(hits, period).scores == Counted(After(hits[..|hits| - 1], period), hits[|hits| - 1], period)
  {
    hide Exact, Hit, Counted;
    var front, last := hits[..|hits| - 1], hits[|hits| - 1];
    assert front + [last] == hits;
    if front != [] {
      WindowIsExact(front, period);
    }
    HitKeepsExact(After(front, period), front, last, period);
  }

  // ----- the bound -----

  /** The last hit of a run with steps of one is limited exactly when its window holds more than `rate` members. */
  lemma LimitedExactly(hits: seq<Member>, period: int, rate: int)
    requires period > 0 && Ordered(hits) && hits != [] && forall m | m in hits :: m.step == 1
    ensures Limited(hits, period, rate)
            <==> |set m | m in hits && hits[|hits| - 1].timestamp - period < m.timestamp| > rate
  {
    hide After, Counted, Ordered;
    WindowIsExact(hits, period);
    var recent := set m | m in hits && hits[|hits| - 1].timestamp - period < m.timestamp;
    assert After(hits, period).scores.Keys == recent;
    StepSumCounts(recent);
  }

  /** The distinct members of hits in (start, start + period] that were let through. */
  ghost function LetThrough(hits: seq<Member>, start: int, period: int, rate: int): set<Member> {
    if hits == [] then {}
    else
      var last := hits[|hits| - 1];
      LetThrough(hits[..|hits| - 1], start, period, rate)
      + (if !Limited(hits, period, rate) && start < last.timestamp <= start + period then {last} else {})
  }

  lemma {:induction false} LetThroughWereHits(hits: seq<Member>, start: int, period: int, rate: int)
    ensures forall m | m in LetThrough(hits, start, period, rate) ::
              m in hits && start < m.timestamp <= start + period
  {
    hide Limited;
    if hits != [] {
      LetThroughWereHits(hits[..|hits| - 1], start, period, rate);
    }
  }

  /**
   * In every window of one period, the steps of the distinct hits let through
   * sum to no more than the rate, although limited hits are recorded as well.
   */
  lemma {:induction false} RateIsKept(hits: seq<Member>, start: int, period: int, rate: int)
    requires period > 0 && rate >= 0 && Ordered(hits)
    requires forall m | m in hits :: m.step >= 0
    ensures StepSum(LetThrough(hits, start, period, rate)) <= rate
  {
    if hits != [] {
      hide After, Counted;
      var front, last := hits[..|hits| - 1], hits[|hits| - 1];
      if !Limited(hits, period, rate) && start < last.timestamp <= start + period {
        WindowIsExact(hits, period);
        LetThroughWereHits(hits, start, period, rate);
        StepSumGrows(LetThrough(hits, start, period, rate), After(hits, period).scores.Keys);
      } else {
        RateIsKept(front, start, period, rate);
        assert LetThrough(hits, start, period, rate) == LetThrough(front, start, period, rate);
      }
    }
  }

  /** With steps of one: at most `rate` distinct milliseconds of a window hold a hit that was let through. */
  lemma DistinctMillisecondsAreBounded(hits: seq<Member>, start: int, period: int, rate: int)
    requires period > 0 && rate >= 0 && Ordered(hits)
    requires forall m | m in hits :: m.step == 1
    ensures |set m | m in LetThrough(hits, start, period, rate) :: m.timestamp| <= rate
  {
    hide LetThrough, Ordered;
    var through := LetThrough(hits, start, period, rate);
    LetThroughWereHits(hits, start, period, rate);
    RateIsKept(hits, start, period, rate);
    StepSumCounts(through);
    ImageIsNoLarger(through);
  }

  lemma {:induction false} ImageIsNoLarger(s: set<Member>)
    ensures |set m | m in s :: m.timestamp| <= |s|
    decreases |s|
  {
    if s != {} {
      var m :| m in s;
      ImageIsNoLarger(s - {m});
      var smaller := set x | x in s - {m} :: x.timestamp;
      assert (set x | x in s :: x.timestamp) == smaller + {m.timestamp};
    }
  }

  /** A run and the run with its last hit repeated ask for the same set. */
  lemma ExactAgain(s: SortedSet, t: SortedSet, hits: seq<Member>, period: int)
    requires hits != [] && Exact(s, hits, period) && Exact(t, hits + [hits[|hits| - 1]], period)
    ensures s == t
  {
    var last := hits[|hits| - 1];
    var again := hits + [last];
    assert again[|again| - 1] == last;
    forall m ensures m in again <==> m in hits {
    }
    assert s.scores == t.scores;
  }

  /** Hits of one step in one millisecond share a member: sending the last hit again gets the last answer again. */
  lemma SameMillisecondCollapses(hits: seq<Member>, period: int, rate: int)
    requires period > 0 && Ordered(hits) && hits != []
    ensures var again := hits + [hits[|hits| - 1]];
            After(again, period) == After(hits, period)
            && (Limited(again, period, rate) <==> Limited(hits, period, rate))
  {
    hide After, Counted, Exact, StepSum;
    var last := hits[|hits| - 1];
    var again := hits + [last];
    assert again[..|again| - 1] == hits;
    WindowIsExact(hits, period);
    WindowIsExact(again, period);
    ExactAgain(After(hits, period), After(again, period), hits, period);
  }
}
