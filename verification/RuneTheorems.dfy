/** The printed form of a rune is read back, the readers' results are canonical, and joining texts conjoins tests. */
module RuneTheorems {
  import opened Wrappers
  import opened Runes

  // ----- white space -----

  lemma {:induction false} StripFrees(s: string)
    ensures Free(Strip(s), IsSpace)
    ensures Free(s, IsSpace) <==> Strip(s) == s
    ensures |Strip(s)| <= |s|
  {
    hide IsSpace;
    if s != "" {
      StripFrees(s[1..]);
      assert s == [s[0]] + s[1..];
    }
  }

  lemma {:induction false} StripConcat(a: string, b: string)
    ensures Strip(a + b) == Strip(a) + Strip(b)
  {
    hide IsSpace;
    if a == "" {
      assert a + b == b;
    } else {
      assert (a + b)[1..] == a[1..] + b;
      StripConcat(a[1..], b);
    }
  }

  lemma {:induction false} StripKeepsFree(s: string, p: char -> bool)
    requires Free(s, p)
    ensures Free(Strip(s), p)
  {
    hide IsSpace;
    if s != "" {
      StripKeepsFree(s[1..], p);
    }
  }

  function EscapeChar(c: char): string {
    if NeedsEscape(c) then ['\\', c] else [c]
  }

  lemma StripOne(c: char)
    ensures Strip(EscapeChar(c)) == if IsSpace(c) then "" else EscapeChar(c)
  {
    assert Strip([c]) == if IsSpace(c) then "" else [c];
    if NeedsEscape(c) {
      assert ['\\', c][1..] == [c];
      assert Strip(['\\', c]) == ['\\'] + Strip([c]);
    }
  }

  lemma {:induction false} StripEscape(value: string)
    ensures Strip(Escape(value)) == Escape(Strip(value))
  {
    hide IsSpace, NeedsEscape;
    if value != "" {
      var c, rest := value[0], value[1..];
      StripEscape(rest);
      StripConcat(EscapeChar(c), Escape(rest));
      StripOne(c);
      if IsSpace(c) {
        assert Strip(value) == Strip(rest);
        assert "" + Strip(Escape(rest)) == Strip(Escape(rest));
      } else {
        EscapeCons(c, Strip(rest));
      }
    }
  }

  lemma EscapeCons(c: char, rest: string)
    ensures Escape([c] + rest) == EscapeChar(c) + Escape(rest)
  {
    assert ([c] + rest)[1..] == rest;
  }

  lemma StripAlternativeText(a: Alternative)
    requires IsCond(a.cond)
    ensures Strip(EncodeAlternative(a)) == EncodeAlternative(StripAlternative(a))
  {
    StripEscape(a.value);
    StripConcat(a.field + [a.cond], Escape(a.value));
    StripConcat(a.field, [a.cond]);
    assert Strip([a.cond]) == [a.cond];
  }

  lemma {:induction false} StripAlternativesText(s: seq<Alternative>)
    requires forall i | 0 <= i < |s| :: ValidAlternative(s[i])
    ensures Strip(EncodeAlternatives(s)) == EncodeAlternatives(StripAlternatives(s))
  {
    hide EncodeAlternative, StripAlternative;
    if s != [] {
      assert IsCond(s[0].cond);
      StripAlternativeText(s[0]);
      if |s| > 1 {
        StripAlternativesText(s[1..]);
        assert StripAlternatives(s)[1..] == StripAlternatives(s[1..]);
        StripJoin(EncodeAlternative(s[0]), '|', EncodeAlternatives(s[1..]));
      }
    }
  }

  lemma StripJoin(a: string, separator: char, b: string)
    requires !IsSpace(separator)
    ensures Strip(a + [separator] + b) == Strip(a) + [separator] + Strip(b)
  {
    StripConcat(a + [separator], b);
    StripConcat(a, [separator]);
  }

  lemma {:induction false} StripRestrictionsText(s: seq<Restriction>)
    requires forall i | 0 <= i < |s| :: ValidRestriction(s[i])
    ensures Strip(EncodeRestrictions(s)) == EncodeRestrictions(StripRestrictions(s))
  {
    hide EncodeAlternatives, StripAlternatives, ValidAlternative;
    if s != [] {
      StripAlternativesText(s[0].alternatives);
      if |s| > 1 {
        StripRestrictionsText(s[1..]);
        assert StripRestrictions(s)[1..] == StripRestrictions(s[1..]);
        StripJoin(EncodeAlternatives(s[0].alternatives), '&', EncodeRestrictions(s[1..]));
      }
    }
  }

  // ----- reading back -----

  /** The texts at which a value ends. */
  predicate Ends(tail: string) {
    tail == "" || tail[0] == '|' || tail[0] == '&'
  }

  function AfterEnd(tail: string): string {
    if tail != "" && tail[0] == '|' then tail[1..] else tail
  }

  lemma EscapedCharIsRead(c: char, rest: string)
    ensures ReadValue(EscapeChar(c) + rest) == ([c] + ReadValue(rest).0, ReadValue(rest).1)
  {
    var text := EscapeChar(c) + rest;
    if NeedsEscape(c) {
      assert text[0] == '\\' && text[1] == c && text[2..] == rest;
    } else {
      assert text[0] == c && text[1..] == rest;
    }
  }

  lemma {:induction false} EscapedIsRead(value: string, tail: string)
    requires Ends(tail)
    ensures ReadValue(Escape(value) + tail) == (value, AfterEnd(tail))
  {
    if value == "" {
      assert Escape(value) + tail == tail;
    } else {
      hide ReadValue, NeedsEscape;
      EscapedIsRead(value[1..], tail);
      EscapedCharIsRead(value[0], Escape(value[1..]) + tail);
      assert Escape(value) + tail == EscapeChar(value[0]) + (Escape(value[1..]) + tail);
      assert [value[0]] + value[1..] == value;
    }
  }

  lemma {:induction false} FieldIsFound(field: string, rest: string)
    requires Free(field, IsPunctuation)
    requires rest == "" || IsPunctuation(rest[0])
    ensures FieldEnd(field + rest) == |field|
  {
    hide IsPunctuation;
    if field == "" {
      assert field + rest == rest;
    } else {
      assert (field + rest)[1..] == field[1..] + rest;
      FieldIsFound(field[1..], rest);
    }
  }

  lemma PrintedIsRead(a: Alternative, tail: string)
    requires ValidAlternative(a) && Ends(tail)
    ensures ReadAlternative(EncodeAlternative(a) + tail) == Ok((a, AfterEnd(tail)))
  {
    hide ReadValue, Escape, FieldEnd;
    var rest := [a.cond] + (Escape(a.value) + tail);
    var text := EncodeAlternative(a) + tail;
    assert text == a.field + rest;
    FieldIsFound(a.field, rest);
    EscapedIsRead(a.value, tail);
    assert text[|a.field| + 1..] == Escape(a.value) + tail;
    assert text[..|a.field|] == a.field;
  }

  /** The text of an alternative starts in its field or with its operator, and neither is an ampersand. */
  lemma PrintedStarts(a: Alternative, tail: string)
    requires ValidAlternative(a)
    ensures var text := EncodeAlternative(a) + tail; text != "" && text[0] != '&'
  {
    hide Escape;
    assert EncodeAlternative(a)[0] == if a.field == "" then a.cond else a.field[0];
  }

  lemma {:induction false} AlternativesAreRead(s: seq<Alternative>, tail: string)
    requires s != [] && forall i | 0 <= i < |s| :: ValidAlternative(s[i])
    requires tail == "" || tail[0] == '&'
    ensures ReadAlternatives(EncodeAlternatives(s) + tail) == Ok((s, if tail == "" then "" else tail[1..]))
    ensures EncodeAlternatives(s) + tail != ""
  {
    hide EncodeAlternative, ReadAlternative, ValidAlternative;
    if |s| == 1 {
      PrintedStarts(s[0], tail);
      PrintedIsRead(s[0], tail);
      assert [s[0]] + [] == s;
    } else {
      var more := "|" + (EncodeAlternatives(s[1..]) + tail);
      assert EncodeAlternatives(s) + tail == EncodeAlternative(s[0]) + more;
      PrintedStarts(s[0], more);
      PrintedIsRead(s[0], more);
      assert more[1..] == EncodeAlternatives(s[1..]) + tail;
      AlternativesAreRead(s[1..], tail);
      assert s == [s[0]] + s[1..];
    }
  }

  lemma RestrictionIsRead(r: Restriction, tail: string)
    requires ValidRestriction(r) && (tail == "" || tail[0] == '&')
    ensures var text := EncodeAlternatives(r.alternatives) + tail;
            text != "" && ReadRestriction(text) == Ok((r, if tail == "" then "" else tail[1..]))
  {
    hide EncodeAlternatives, ReadAlternatives, ValidAlternative;
    AlternativesAreRead(r.alternatives, tail);
  }

  lemma ReadOneMore(text: string, r: Restriction, rest: string, more: seq<Restriction>)
    requires text != "" && ReadRestriction(text) == Ok((r, rest)) && ReadRestrictions(rest) == Ok(more)
    ensures ReadRestrictions(text) == Ok([r] + more)
  {
    hide ReadRestriction;
  }

  /** What follows the first restriction in the text of a rune. */
  function Remainder(s: seq<Restriction>): (tail: string)
    ensures tail == "" || tail[0] == '&'
    ensures (if tail == "" then "" else tail[1..]) == EncodeRestrictions(s)
  {
    if s == [] then "" else "&" + EncodeRestrictions(s)
  }

  lemma Reassociate(a: string, b: string)
    ensures a + "&" + b == a + ("&" + b)
  {
  }

  lemma FirstAndRemainder(r: Restriction, more: seq<Restriction>)
    ensures EncodeRestrictions([r] + more) == EncodeAlternatives(r.alternatives) + Remainder(more)
  {
    hide EncodeAlternatives;
    var s, first := [r] + more, EncodeAlternatives(r.alternatives);
    assert s[0] == r && s[1..] == more;
    if more == [] {
      assert first + "" == first;
    } else {
      Reassociate(first, EncodeRestrictions(more));
    }
  }

  lemma {:induction false} RestrictionsAreRead(s: seq<Restriction>)
    requires forall i | 0 <= i < |s| :: ValidRestriction(s[i])
    ensures ReadRestrictions(EncodeRestrictions(s)) == Ok(s)
  {
    if s != [] {
      hide EncodeAlternatives, EncodeRestrictions, Remainder, ReadRestriction, ReadRestrictions, ValidRestriction;
      var r, more := s[0], s[1..];
      RestrictionsAreRead(more);
      assert s == [r] + more;
      FirstAndRemainder(r, more);
      RestrictionIsRead(r, Remainder(more));
      ReadOneMore(EncodeRestrictions(s), r, EncodeRestrictions(more), more);
    }
  }

  lemma StripKeepsValid(r: RuneLike)
    requires ValidRune(r)
    ensures ValidRune(StripRune(r))
  {
    hide IsPunctuation, IsCond;
    forall i | 0 <= i < |r.restrictions| ensures ValidRestriction(StripRune(r).restrictions[i]) {
      var s := r.restrictions[i].alternatives;
      assert ValidRestriction(r.restrictions[i]);
      forall j | 0 <= j < |s| ensures ValidAlternative(StripAlternatives(s)[j]) {
        assert ValidAlternative(s[j]);
        StripKeepsFree(s[j].field, IsPunctuation);
      }
    }
  }

  /** Reading a printed rune gives it back without the white space of its fields and values. */
  lemma RoundTrip(r: RuneLike)
    requires ValidRune(r)
    ensures From(Encode(r)) == Ok(StripRune(r))
  {
    hide ReadRestrictions, EncodeRestrictions, ValidRestriction;
    StripRestrictionsText(r.restrictions);
    StripKeepsValid(r);
    RestrictionsAreRead(StripRune(r).restrictions);
  }

  // ----- canonical form -----

  predicate Spaceless(a: Alternative) {
    Free(a.field, IsSpace) && Free(a.value, IsSpace)
  }

  predicate SpacelessAll(s: seq<Alternative>) {
    forall i | 0 <= i < |s| :: Spaceless(s[i])
  }

  predicate SpacelessRune(r: RuneLike) {
    forall i | 0 <= i < |r.restrictions| :: SpacelessAll(r.restrictions[i].alternatives)
  }

  lemma SpacelessIsKept(a: Alternative)
    ensures StripAlternative(a) == a <==> Spaceless(a)
  {
    StripFrees(a.field);
    StripFrees(a.value);
  }

  lemma SpacelessAllIsKept(s: seq<Alternative>)
    ensures StripAlternatives(s) == s <==> SpacelessAll(s)
  {
    hide StripAlternative, Spaceless;
    forall i | 0 <= i < |s| ensures StripAlternatives(s)[i] == s[i] <==> Spaceless(s[i]) {
      SpacelessIsKept(s[i]);
    }
  }

  lemma SpacelessRuneIsKept(r: RuneLike)
    ensures StripRune(r) == r <==> SpacelessRune(r)
  {
    hide StripAlternatives, SpacelessAll;
    forall i | 0 <= i < |r.restrictions|
      ensures StripRestrictions(r.restrictions)[i] == r.restrictions[i]
              <==> SpacelessAll(r.restrictions[i].alternatives)
    {
      SpacelessAllIsKept(r.restrictions[i].alternatives);
    }
    if SpacelessRune(r) {
      assert StripRestrictions(r.restrictions) == r.restrictions;
    } else {
      assert StripRestrictions(r.restrictions) == r.restrictions ==> SpacelessRune(r);
    }
  }

  /** The text carries a rune over unchanged exactly when the rune holds no white space. */
  lemma RoundTripIsExact(r: RuneLike)
    requires ValidRune(r)
    ensures From(Encode(r)) == Ok(r) <==> SpacelessRune(r)
  {
    hide From, Encode, StripRune, SpacelessRune, ValidRune;
    RoundTrip(r);
    SpacelessRuneIsKept(r);
  }

  lemma {:induction false} ValueKeepsSpaceless(s: string)
    requires Free(s, IsSpace)
    ensures Free(ReadValue(s).0, IsSpace) && Free(ReadValue(s).1, IsSpace)
  {
    if s != "" && s[0] != '|' && s[0] != '&' {
      if s[0] != '\\' {
        ValueKeepsSpaceless(s[1..]);
      } else if |s| > 1 {
        ValueKeepsSpaceless(s[2..]);
      }
    }
  }

  lemma AlternativeKeepsSpaceless(s: string)
    requires Free(s, IsSpace) && ReadAlternative(s).Ok?
    ensures var (a, rest) := ReadAlternative(s).value; ValidAlternative(a) && Spaceless(a) && Free(rest, IsSpace)
  {
    hide IsSpace, IsPunctuation, IsCond, ReadValue;
    ValueKeepsSpaceless(s[FieldEnd(s) + 1..]);
  }

  predicate GoodAll(s: seq<Alternative>) {
    SpacelessAll(s) && forall i | 0 <= i < |s| :: ValidAlternative(s[i])
  }

  lemma {:induction false} AlternativesKeepSpaceless(s: string)
    requires Free(s, IsSpace) && ReadAlternatives(s).Ok?
    ensures var (alternatives, rest) := ReadAlternatives(s).value; GoodAll(alternatives) && Free(rest, IsSpace)
    decreases |s|
  {
    hide IsSpace, ReadAlternative, ValidAlternative, Spaceless;
    if s != "" && s[0] != '&' {
      AlternativeKeepsSpaceless(s);
      AlternativesKeepSpaceless(ReadAlternative(s).value.1);
    }
  }

  lemma {:induction false} RestrictionsKeepSpaceless(s: string)
    requires Free(s, IsSpace) && ReadRestrictions(s).Ok?
    ensures var r := RuneLike(ReadRestrictions(s).value); ValidRune(r) && SpacelessRune(r)
    decreases |s|
  {
    hide IsSpace, ReadAlternatives, ValidAlternative, SpacelessAll;
    if s != "" {
      AlternativesKeepSpaceless(s);
      RestrictionsKeepSpaceless(ReadRestriction(s).value.1);
    }
  }

  /** Whatever text was read, the rune is one the constructors accept, and its own text reads as the same rune. */
  lemma ReadIsCanonical(s: string)
    requires From(s).Ok?
    ensures ValidRune(From(s).value)
    ensures From(Encode(From(s).value)) == Ok(From(s).value)
  {
    hide IsSpace, ReadRestrictions, ValidRune, SpacelessRune, Encode;
    StripFrees(s);
    RestrictionsKeepSpaceless(Strip(s));
    RoundTripIsExact(From(s).value);
  }

  // ----- joining -----

  lemma {:induction false} EncodeConcat(a: seq<Restriction>, b: seq<Restriction>)
    requires a != [] && b != []
    ensures EncodeRestrictions(a + b) == EncodeRestrictions(a) + "&" + EncodeRestrictions(b)
  {
    assert (a + b)[1..] == a[1..] + b;
    if |a| == 1 {
      assert a[1..] + b == b;
    } else {
      EncodeConcat(a[1..], b);
    }
  }

  /** Joining two printed runes with an ampersand adds restrictions, so the result passes iff both pass. */
  lemma JoinConjoins(a: RuneLike, b: RuneLike, env: Environment)
    requires ValidRune(a) && ValidRune(b) && a.restrictions != [] && b.restrictions != []
    ensures
      var joined := From(Encode(a) + "&" + Encode(b));
      joined == Ok(RuneLike(StripRune(a).restrictions + StripRune(b).restrictions))
      && (RunePasses(joined.value, env) <==> RunePasses(StripRune(a), env) && RunePasses(StripRune(b), env))
  {
    hide ValidRestriction, EncodeRestrictions, ReadRestrictions, RestrictionPasses;
    EncodeConcat(a.restrictions, b.restrictions);
    var both := RuneLike(a.restrictions + b.restrictions);
    RoundTrip(both);
    assert StripRestrictions(both.restrictions)
        == StripRestrictions(a.restrictions) + StripRestrictions(b.restrictions);
  }

  // ----- the shorthand reader -----

  lemma {:induction false} EscapedPunctuation(value: string)
    ensures Free(value, IsPunctuation) ==> Escape(value) == value
    ensures Free(Escape(value), IsPunctuation) ==> Free(value, IsPunctuation)
  {
    if value != "" {
      hide IsPunctuation, NeedsEscape;
      var c, rest := value[0], value[1..];
      EscapedPunctuation(rest);
      EscapedCharPunctuation(c);
      FreeConcat(EscapeChar(c), Escape(rest), IsPunctuation);
      FreeConcat([c], rest, IsPunctuation);
      assert value == [c] + rest;
    }
  }

  lemma EscapedCharPunctuation(c: char)
    ensures if IsPunctuation(c) then !Free(EscapeChar(c), IsPunctuation) else EscapeChar(c) == [c]
  {
    assert EscapeChar(c)[0] == '\\' || EscapeChar(c)[0] == c;
  }

  lemma FreeConcat(a: string, b: string, p: char -> bool)
    ensures Free(a + b, p) <==> Free(a, p) && Free(b, p)
  {
    assert forall i | 0 <= i < |a| :: (a + b)[i] == a[i];
    if Free(a + b, p) {
      forall i | 0 <= i < |b| ensures !p(b[i]) {
        assert (a + b)[|a| + i] == b[i];
      }
    }
  }

  /**
   * Alternative.from cuts the value at its first operator character, so it reads
   * a printed alternative back exactly when the value holds none.
   */
  lemma ShorthandIsExact(a: Alternative)
    requires ValidAlternative(a)
    ensures AlternativeFrom(EncodeAlternative(a)) == Ok(StripAlternative(a))
            <==> Free(Strip(a.value), IsPunctuation)
  {
    hide IsPunctuation, IsSpace, Strip, Escape, FieldEnd;
    StripAlternativeText(a);
    var field, value := Strip(a.field), Strip(a.value);
    var text := EncodeAlternative(StripAlternative(a));
    StripKeepsFree(a.field, IsPunctuation);
    CondIsPunctuation(a.cond);
    assert text == field + ([a.cond] + Escape(value));
    FieldIsFound(field, [a.cond] + Escape(value));
    assert text[..|field|] == field && text[|field| + 1..] == Escape(value);
    EscapedPunctuation(value);
    if Free(value, IsPunctuation) {
      FieldIsFound(value, "");
      assert value + "" == value;
    }
  }

  lemma CondIsPunctuation(c: char)
    requires IsCond(c)
    ensures IsPunctuation(c)
  {
  }

  // ----- what the operators test -----

  predicate PassesOn(field: string, cond: char, value: string, val: string, env: Environment)
    requires field in env.values && env.values[field] == Text(val)
  {
    Passes(Alternative(field, cond, value), env)
  }

  /** Equality and its negation, presence and the comment, on a field that holds a text. */
  lemma EqualityOperators(field: string, value: string, val: string, env: Environment)
    requires field in env.values && env.values[field] == Text(val)
    ensures PassesOn(field, '=', value, val, env) <==> val == value
    ensures PassesOn(field, '/', value, val, env) <==> val != value
    ensures !PassesOn(field, '!', value, val, env) && PassesOn(field, '#', value, val, env)
  {
  }

  /** The part tests: the value starts, ends, or occurs in the field's text. */
  lemma PartOperators(field: string, value: string, val: string, env: Environment)
    requires field in env.values && env.values[field] == Text(val)
    ensures PassesOn(field, '^', value, val, env) <==> exists rest :: val == value + rest
    ensures PassesOn(field, '$', value, val, env) <==> exists start :: val == start + value
    ensures PassesOn(field, '~', value, val, env) <==> exists start, rest :: val == start + value + rest
  {
    hide Contains;
    StartsMeans(value, val);
    EndsMeans(value, val);
    ContainsMeans(value, val);
  }

  lemma StartsMeans(value: string, val: string)
    ensures value <= val <==> exists rest :: val == value + rest
  {
    if value <= val {
      assert val == value + val[|value|..];
    }
  }

  lemma EndsMeans(value: string, val: string)
    ensures |value| <= |val| && val[|val| - |value|..] == value <==> exists start :: val == start + value
  {
    if |value| <= |val| && val[|val| - |value|..] == value {
      assert val == val[..|val| - |value|] + value;
    }
  }

  lemma ContainsMeans(value: string, val: string)
    ensures Contains(val, value) <==> exists start, rest :: val == start + value + rest
  {
    if Contains(val, value) {
      var i :| 0 <= i <= |val| - |value| && OccursAt(val, value, i);
      assert val == val[..i] + value + val[i + |value|..];
    }
    if start, rest :| val == start + value + rest {
      assert OccursAt(val, value, |start|);
    }
  }

  /** The integer comparisons: both texts have to read as integers, and then one is below the other. */
  lemma IntegerOperators(field: string, value: string, val: string, env: Environment)
    requires field in env.values && env.values[field] == Text(val)
    ensures PassesOn(field, '<', value, val, env)
            <==> exists x, y :: env.parseInt(val) == Some(x) && env.parseInt(value) == Some(y) && x < y
    ensures PassesOn(field, '>', value, val, env)
            <==> exists x, y :: env.parseInt(val) == Some(x) && env.parseInt(value) == Some(y) && x > y
  {
  }

  /** `a` leaves `b` after k common characters, and is the smaller there: it ends, or its next character is. */
  predicate BelowAt(a: string, b: string, k: nat) {
    k <= |a| && k < |b| && a[..k] == b[..k] && (k == |a| || a[k] < b[k])
  }

  lemma BelowShares(a: string, b: string)
    ensures forall k: nat | k > 0 && BelowAt(a, b, k) :: a != "" && b != "" && a[0] == b[0]
  {
    forall k: nat | k > 0 && BelowAt(a, b, k) ensures a != "" && b != "" && a[0] == b[0] {
      assert a[..k][0] == b[..k][0];
    }
  }

  lemma BelowShifts(a: string, b: string, k: nat)
    requires a != "" && b != "" && a[0] == b[0]
    ensures BelowAt(a[1..], b[1..], k) <==> BelowAt(a, b, k + 1)
  {
    if k <= |a| - 1 && k <= |b| - 1 {
      assert a[..k + 1] == [a[0]] + a[1..][..k] && b[..k + 1] == [b[0]] + b[1..][..k];
      assert a[..k + 1][1..] == a[1..][..k] && b[..k + 1][1..] == b[1..][..k];
    }
  }

  lemma {:induction false} BeforeMeans(a: string, b: string)
    ensures Before(a, b) <==> exists k: nat :: BelowAt(a, b, k)
  {
    BelowShares(a, b);
    if b != "" && a != "" && a[0] == b[0] {
      BeforeMeans(a[1..], b[1..]);
      if k: nat :| BelowAt(a[1..], b[1..], k) {
        BelowShifts(a, b, k);
      }
      if k: nat :| BelowAt(a, b, k) && k > 0 {
        BelowShifts(a, b, k - 1);
      }
    } else if Before(a, b) {
      assert BelowAt(a, b, 0);
    }
  }

  lemma {:induction false} BeforeIsTotal(a: string, b: string)
    ensures a == b ==> !Before(a, b)
    ensures a != b ==> Before(a, b) != Before(b, a)
  {
    if a != "" && b != "" && a[0] == b[0] {
      BeforeIsTotal(a[1..], b[1..]);
      assert a == [a[0]] + a[1..] && b == [b[0]] + b[1..];
    }
  }

  /** The order tests: below and above in the order of texts, and of below, equal and above exactly one passes. */
  lemma OrderOperators(field: string, value: string, val: string, env: Environment)
    requires field in env.values && env.values[field] == Text(val)
    ensures PassesOn(field, '{', value, val, env) <==> exists k: nat :: BelowAt(val, value, k)
    ensures PassesOn(field, '}', value, val, env) <==> exists k: nat :: BelowAt(value, val, k)
    ensures PassesOn(field, '=', value, val, env) ==>
              !PassesOn(field, '{', value, val, env) && !PassesOn(field, '}', value, val, env)
    ensures !PassesOn(field, '=', value, val, env) ==>
              PassesOn(field, '{', value, val, env) != PassesOn(field, '}', value, val, env)
  {
    BeforeMeans(val, value);
    BeforeMeans(value, val);
    BeforeIsTotal(val, value);
  }

  /** A missing field passes only the missing test and the comment; a checking function decides for itself. */
  lemma OtherFields(a: Alternative, env: Environment)
    ensures a.field !in env.values ==> (Passes(a, env) <==> a.cond == '!' || a.cond == '#')
    ensures a.field in env.values && env.values[a.field].Check? ==>
              (Passes(a, env) <==> a.cond == '#' || env.values[a.field].check(a).None?)
  {
  }

  // ----- the characters of the text form -----

  /** The operators, and the characters a field must not hold, one by one. */
  lemma CharactersAre(c: char)
    ensures IsCond(c) <==> c in {'!', '=', '/', '^', '$', '~', '<', '>', '}', '{', '#'}
    ensures IsPunctuation(c) <==>
            c in {'!', '"', '#', '$', '%', '&', '\'', '(', ')', '*', '+', ',', '-', '.', '/'}
            || c in {':', ';', '<', '=', '>', '?', '@', '[', '\\', ']', '^', '`', '{', '|', '}', '~'}
    ensures IsSpace(c) <==>
            c as int in {9, 10, 11, 12, 13, 32, 0xa0, 0x1680, 0x2028, 0x2029, 0x202f, 0x205f, 0x3000, 0xfeff}
            || 0x2000 <= c as int <= 0x200a
  {
  }

  /** Texts that are no rune, and the reading of a dangling backslash. */
  lemma RefusedTexts(s: string)
    ensures Strip(s) != "" && Free(Strip(s), IsPunctuation) ==> From(s) == Err(NoOperator)
    ensures Strip(s) != "" && Strip(s)[0] == '&' ==> From(s) == Err(NoAlternatives)
    ensures var k := FieldEnd(Strip(s));
            k < |Strip(s)| && Strip(s)[0] != '&'
            && Strip(s)[k] !in {'!', '=', '/', '^', '$', '~', '<', '>', '}', '{', '#'}
            ==> From(s) == Err(InvalidCond)
    ensures ReadValue("\\") == ("undefined", "")
    ensures Strip(s) == "" ==> From(s) == Ok(RuneLike([]))
  {
    hide IsPunctuation, ReadValue;
    var text := Strip(s);
    if text != "" && Free(text, IsPunctuation) {
      FieldIsFound(text, "");
      assert text + "" == text;
      assert text[0] != '&' by {
        assert IsPunctuation('&') by {
          CharactersAre('&');
        }
      }
    }
    DanglingBackslash();
  }

  lemma DanglingBackslash()
    ensures ReadValue("\\") == ("undefined", "")
  {
  }
}
