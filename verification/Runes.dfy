/** Runes: restrictions that are conjunctions of disjunctions of field tests, and their textual form. */
module Runes {
  import opened Wrappers

  // ----- values -----

  datatype Alternative = Alternative(field: string, cond: char, value: string)

  datatype Restriction = Restriction(alternatives: seq<Alternative>)

  datatype RuneLike = RuneLike(restrictions: seq<Restriction>)

  datatype Failure = NoOperator | InvalidCond | NoAlternatives

  /** The punctuation of the relay: its range from plus to full stop takes in the comma, and the underscore is out. */
  predicate IsPunctuation(c: char) {
    '!' <= c <= '/' || ':' <= c <= '@' || '[' <= c <= '^' || c == '`' || '{' <= c <= '~'
  }

  predicate IsCond(c: char) {
    c == '!' || c == '=' || c == '/' || c == '^' || c == '$' || c == '~'
    || c == '<' || c == '>' || c == '}' || c == '{' || c == '#'
  }

  /** What the regular expression class \s matches. */
  predicate IsSpace(c: char) {
    '\t' <= c <= '\r' || c == ' ' || c == '\U{a0}' || c == '\U{1680}' || '\U{2000}' <= c <= '\U{200a}'
    || c == '\U{2028}' || c == '\U{2029}' || c == '\U{202f}' || c == '\U{205f}' || c == '\U{3000}' || c == '\U{feff}'
  }

  predicate Free(s: string, p: char -> bool) {
    forall i | 0 <= i < |s| :: !p(s[i])
  }

  /** What the three constructors accept. */
  predicate ValidAlternative(a: Alternative) {
    Free(a.field, IsPunctuation) && IsCond(a.cond)
  }

  predicate ValidRestriction(r: Restriction) {
    r.alternatives != [] && forall i | 0 <= i < |r.alternatives| :: ValidAlternative(r.alternatives[i])
  }

  predicate ValidRune(r: RuneLike) {
    forall i | 0 <= i < |r.restrictions| :: ValidRestriction(r.restrictions[i])
  }

  // ----- printing -----

  predicate NeedsEscape(c: char) {
    c == '\\' || c == '|' || c == '&'
  }

  function Escape(value: string): string {
    if value == "" then ""
    else (if NeedsEscape(value[0]) then ['\\', value[0]] else [value[0]]) + Escape(value[1..])
  }

  function EncodeAlternative(a: Alternative): string {
    a.field + [a.cond] + Escape(a.value)
  }

  function EncodeAlternatives(alternatives: seq<Alternative>): string {
    if alternatives == [] then ""
    else if |alternatives| == 1 then EncodeAlternative(alternatives[0])
    else EncodeAlternative(alternatives[0]) + "|" + EncodeAlternatives(alternatives[1..])
  }

  function EncodeRestrictions(restrictions: seq<Restriction>): string {
    if restrictions == [] then ""
    else if |restrictions| == 1 then EncodeAlternatives(restrictions[0].alternatives)
    else EncodeAlternatives(restrictions[0].alternatives) + "&" + EncodeRestrictions(restrictions[1..])
  }

  function Encode(r: RuneLike): string {
    EncodeRestrictions(r.restrictions)
  }

  // ----- removing white space -----

  function Strip(s: string): string {
    if s == "" then "" else (if IsSpace(s[0]) then "" else [s[0]]) + Strip(s[1..])
  }

  function StripAlternative(a: Alternative): Alternative {
    Alternative(Strip(a.field), a.cond, Strip(a.value))
  }

  function StripAlternatives(s: seq<Alternative>): seq<Alternative> {
    seq(|s|, i requires 0 <= i < |s| => StripAlternative(s[i]))
  }

  function StripRestrictions(s: seq<Restriction>): seq<Restriction> {
    seq(|s|, i requires 0 <= i < |s| => Restriction(StripAlternatives(s[i].alternatives)))
  }

  function StripRune(r: RuneLike): RuneLike {
    RuneLike(StripRestrictions(r.restrictions))
  }

  // ----- reading, as functions of the text left -----

  function FieldEnd(s: string): (k: nat)
    ensures k <= |s| && Free(s[..k], IsPunctuation) && (k < |s| ==> IsPunctuation(s[k]))
  {
    if s == "" || IsPunctuation(s[0]) then 0
    else
      assert forall k: nat | k <= |s[1..]| :: s[..k + 1] == [s[0]] + s[1..][..k];
      1 + FieldEnd(s[1..])
  }

  const UNDEFINED := "undefined"

  /** The value up to an unescaped bar, which is consumed, or ampersand, which is not. */
  function ReadValue(s: string): (r: (string, string))
    ensures |r.1| <= |s|
  {
    if s == "" then ("", "")
    else if s[0] == '|' then ("", s[1..])
    else if s[0] == '&' then ("", s)
    else if s[0] == '\\' then
      if |s| == 1 then (UNDEFINED, "")
      else
        var (value, rest) := ReadValue(s[2..]);
        ([s[1]] + value, rest)
    else
      var (value, rest) := ReadValue(s[1..]);
      ([s[0]] + value, rest)
  }

  function ReadAlternative(s: string): (r: Result<(Alternative, string), Failure>)
    ensures r.Ok? ==> |r.value.1| < |s|
  {
    var k := FieldEnd(s);
    if k == |s| then Err(NoOperator)
    else if !IsCond(s[k]) then Err(InvalidCond)
    else
      var (value, rest) := ReadValue(s[k + 1..]);
      Ok((Alternative(s[..k], s[k], value), rest))
  }

  function ReadAlternatives(s: string): (r: Result<(seq<Alternative>, string), Failure>)
    ensures r.Ok? ==> |r.value.1| <= |s| && (s != "" ==> |r.value.1| < |s|)
    decreases |s|
  {
    if s == "" then Ok(([], ""))
    else if s[0] == '&' then Ok(([], s[1..]))
    else match ReadAlternative(s)
      case Err(e) => Err(e)
      case Ok((a, rest)) =>
        match ReadAlternatives(rest)
        case Err(e) => Err(e)
        case Ok((more, left)) => Ok(([a] + more, left))
  }

  function ReadRestriction(s: string): (r: Result<(Restriction, string), Failure>)
    ensures r.Ok? && s != "" ==> |r.value.1| < |s|
  {
    match ReadAlternatives(s)
    case Err(e) => Err(e)
    case Ok((alternatives, rest)) =>
      if alternatives == [] then Err(NoAlternatives) else Ok((Restriction(alternatives), rest))
  }

  function ReadRestrictions(s: string): Result<seq<Restriction>, Failure>
    decreases |s|
  {
    if s == "" then Ok([])
    else match ReadRestriction(s)
      case Err(e) => Err(e)
      case Ok((r, rest)) =>
        match ReadRestrictions(rest)
        case Err(e) => Err(e)
        case Ok(more) => Ok([r] + more)
  }

  function From(s: string): Result<RuneLike, Failure> {
    match ReadRestrictions(Strip(s))
    case Err(e) => Err(e)
    case Ok(restrictions) => Ok(RuneLike(restrictions))
  }

  // ----- the parsers -----

  /** Alternative.decode: a loop to the operator, then a loop over the value. */
  method DecodeAlternative(encoded: string) returns (r: Result<(Alternative, string), Failure>)
    ensures r == ReadAlternative(encoded)
  {
    hide IsCond, IsPunctuation;
    var endOff := 0;
    while endOff < |encoded| && !IsPunctuation(encoded[endOff])
      invariant endOff <= |encoded|
      invariant FieldEnd(encoded) == endOff + FieldEnd(encoded[endOff..])
    {
      assert encoded[endOff..][1..] == encoded[endOff + 1..];
      endOff := endOff + 1;
    }
    if endOff == |encoded| {
      return Err(NoOperator);
    }
    var field, cond := encoded[..endOff], encoded[endOff];
    endOff := endOff + 1;
    var value, rest := DecodeValue(encoded, endOff);
    if !IsCond(cond) {
      return Err(InvalidCond);
    }
    return Ok((Alternative(field, cond, value), rest));
  }

  /** The second loop of Alternative.decode, from the character after the operator. */
  method DecodeValue(encoded: string, start: nat) returns (value: string, rest: string)
    requires start <= |encoded|
    ensures (value, rest) == ReadValue(encoded[start..])
  {
    hide ReadValue;
    var endOff := start;
    value := "";
    assert "" + ReadValue(encoded[start..]).0 == ReadValue(encoded[start..]).0;
    while endOff < |encoded|
      invariant start <= endOff <= |encoded| + 1
      invariant endOff <= |encoded| ==>
                  ReadValue(encoded[start..]) ==
                  (value + ReadValue(encoded[endOff..]).0, ReadValue(encoded[endOff..]).1)
      invariant endOff > |encoded| ==> ReadValue(encoded[start..]) == (value, "")
      decreases |encoded| - endOff
    {
      ghost var before := value;
      ValueStep(encoded, endOff);
      assert value + "" == value;
      if encoded[endOff] == '|' {
        endOff := endOff + 1;
        return value, encoded[endOff..];
      }
      if encoded[endOff] == '&' {
        return value, encoded[endOff..];
      }
      if encoded[endOff] == '\\' {
        endOff := endOff + 1;
      }
      var c := if endOff < |encoded| then [encoded[endOff]] else UNDEFINED;
      value := value + c;
      endOff := endOff + 1;
      if endOff <= |encoded| {
        ghost var later := ReadValue(encoded[endOff..]).0;
        assert before + (c + later) == value + later;
      }
    }
    if endOff <= |encoded| {
      assert encoded[endOff..] == "" && value + "" == value;
      NothingToRead();
    }
    rest := if endOff <= |encoded| then encoded[endOff..] else "";
  }

  lemma NothingToRead()
    ensures ReadValue("") == ("", "")
  {
  }

  /** What the value reader does with the character at i. */
  lemma ValueStep(s: string, i: nat)
    requires i < |s|
    ensures
      var r := ReadValue(s[i..]);
      if s[i] == '|' then r == ("", s[i + 1..])
      else if s[i] == '&' then r == ("", s[i..])
      else if s[i] != '\\' then r == ([s[i]] + ReadValue(s[i + 1..]).0, ReadValue(s[i + 1..]).1)
      else if i + 1 == |s| then r == (UNDEFINED, "")
      else r == ([s[i + 1]] + ReadValue(s[i + 2..]).0, ReadValue(s[i + 2..]).1)
  {
    assert s[i..][1..] == s[i + 1..];
    assert i + 2 <= |s| ==> s[i..][2..] == s[i + 2..];
  }

  method DecodeRestriction(encoded: string) returns (r: Result<(Restriction, string), Failure>)
    ensures r == ReadRestriction(encoded)
  {
    hide ReadAlternative;
    var rest := encoded;
    var alternatives := [];
    ghost var all := ReadAlternatives(encoded);
    assert all.Ok? ==> [] + all.value.0 == all.value.0;
    while rest != ""
      invariant ReadAlternatives(encoded) ==
                match ReadAlternatives(rest) {
                  case Err(e) => Err(e)
                  case Ok((more, left)) => Ok((alternatives + more, left))
                }
      decreases |rest|
    {
      if rest[0] == '&' {
        rest := rest[1..];
        assert alternatives + [] == alternatives;
        assert ReadAlternatives(encoded) == Ok((alternatives, rest));
        return if alternatives == [] then Err(NoAlternatives) else Ok((Restriction(alternatives), rest));
      }
      var decoded := DecodeAlternative(rest);
      if decoded.Err? {
        return Err(decoded.error);
      }
      ghost var more := ReadAlternatives(decoded.value.1);
      assert more.Ok? ==> alternatives + ([decoded.value.0] + more.value.0)
                          == (alternatives + [decoded.value.0]) + more.value.0;
      alternatives := alternatives + [decoded.value.0];
      rest := decoded.value.1;
    }
    assert alternatives + [] == alternatives;
    return if alternatives == [] then Err(NoAlternatives) else Ok((Restriction(alternatives), rest));
  }

  /** RuneLike.from; it ends on every text, each turn taking at least one character. */
  method DecodeRune(encoded: string) returns (r: Result<RuneLike, Failure>)
    ensures r == From(encoded)
  {
    hide ReadRestriction;
    var rest := Strip(encoded);
    var restrictions := [];
    ghost var all := ReadRestrictions(rest);
    assert all.Ok? ==> [] + all.value == all.value;
    while rest != ""
      invariant ReadRestrictions(Strip(encoded)) ==
                match ReadRestrictions(rest) {
                  case Err(e) => Err(e)
                  case Ok(more) => Ok(restrictions + more)
                }
      decreases |rest|
    {
      var decoded := DecodeRestriction(rest);
      if decoded.Err? {
        return Err(decoded.error);
      }
      ghost var more := ReadRestrictions(decoded.value.1);
      assert more.Ok? ==> restrictions + ([decoded.value.0] + more.value)
                          == (restrictions + [decoded.value.0]) + more.value;
      restrictions := restrictions + [decoded.value.0];
      rest := decoded.value.1;
    }
    assert restrictions + [] == restrictions;
    return Ok(RuneLike(restrictions));
  }

  /** Alternative.from splits on every operator and keeps the first three pieces. */
  function AlternativeFrom(s: string): Result<Alternative, Failure> {
    var text := Strip(s);
    var k := FieldEnd(text);
    if k == |text| || !IsCond(text[k]) then Err(InvalidCond)
    else
      var after := text[k + 1..];
      Ok(Alternative(text[..k], text[k], after[..FieldEnd(after)]))
  }

  // ----- testing -----

  datatype Value = Text(text: string) | Check(check: Alternative -> Option<Reason>)

  /** The refusing alternative, or what a checking function answered. */
  datatype Reason = Refused(alternative: Alternative) | Answered(text: string)

  /** The tested values, and the language's own reading of an integer at the start of a text. */
  datatype Environment = Environment(values: map<string, Value>, parseInt: string -> Option<int>)

  predicate Contains(s: string, part: string) {
    exists i | 0 <= i <= |s| - |part| :: OccursAt(s, part, i)
  }

  predicate OccursAt(s: string, part: string, i: nat)
    requires i + |part| <= |s|
  {
    s[i..i + |part|] == part
  }

  /** Lexicographic order of texts. */
  predicate Before(a: string, b: string) {
    b != "" && (a == "" || a[0] < b[0] || (a[0] == b[0] && Before(a[1..], b[1..])))
  }

  predicate Holds(a: Alternative, val: string, env: Environment) {
    match a.cond
    case '=' => val == a.value
    case '/' => val != a.value
    case '^' => a.value <= val
    case '$' => |a.value| <= |val| && val[|val| - |a.value|..] == a.value
    case '~' => Contains(val, a.value)
    case '<' =>
      env.parseInt(val).Some? && env.parseInt(a.value).Some? && env.parseInt(val).value < env.parseInt(a.value).value
    case '>' =>
      env.parseInt(val).Some? && env.parseInt(a.value).Some? && env.parseInt(val).value > env.parseInt(a.value).value
    case '{' => Before(val, a.value)
    case '}' => Before(a.value, val)
    case _ => false
  }

  /** None when the alternative passes. */
  function TestAlternative(a: Alternative, env: Environment): Option<Reason> {
    if a.cond == '#' then None
    else if a.field !in env.values then if a.cond == '!' then None else Some(Refused(a))
    else match env.values[a.field]
      case Check(check) => check(a)
      case Text(val) => if Holds(a, val, env) then None else Some(Refused(a))
  }

  predicate Passes(a: Alternative, env: Environment) {
    TestAlternative(a, env).None?
  }

  /** Some alternative passes. */
  predicate RestrictionPasses(r: Restriction, env: Environment) {
    exists a | a in r.alternatives :: Passes(a, env)
  }

  predicate RunePasses(r: RuneLike, env: Environment) {
    forall x | x in r.restrictions :: RestrictionPasses(x, env)
  }

  /** Restriction.test: the reasons of all its alternatives, unless one passes. */
  method TestRestriction(r: Restriction, env: Environment) returns (reasons: Option<seq<Reason>>)
    ensures reasons.None? <==> RestrictionPasses(r, env)
    ensures reasons.Some? ==>
              |reasons.value| == |r.alternatives|
              && forall i | 0 <= i < |r.alternatives| ::
                   TestAlternative(r.alternatives[i], env) == Some(reasons.value[i])
  {
    hide TestAlternative;
    var collected := [];
    for i := 0 to |r.alternatives|
      invariant |collected| == i
      invariant forall j | 0 <= j < i :: TestAlternative(r.alternatives[j], env) == Some(collected[j])
    {
      var reason := TestAlternative(r.alternatives[i], env);
      if reason.None? {
        assert r.alternatives[i] in r.alternatives && Passes(r.alternatives[i], env);
        return None;
      }
      collected := collected + [reason.value];
    }
    return Some(collected);
  }

  /** RuneLike.test: the reasons of the first restriction that refuses. */
  method TestRune(r: RuneLike, env: Environment) returns (passes: bool, reasons: seq<Reason>)
    ensures passes <==> RunePasses(r, env)
    ensures passes ==> reasons == []
    ensures !passes ==> exists k | 0 <= k < |r.restrictions| :: RefusedBy(r, k, env, reasons)
  {
    hide RestrictionPasses, TestAlternative;
    for i := 0 to |r.restrictions|
      invariant forall j | 0 <= j < i :: RestrictionPasses(r.restrictions[j], env)
    {
      var refusal := TestRestriction(r.restrictions[i], env);
      if refusal.Some? {
        assert r.restrictions[i] in r.restrictions;
        assert RefusedBy(r, i, env, refusal.value);
        return false, refusal.value;
      }
    }
    return true, [];
  }

  /** Restriction k is the first that refuses, for these reasons. */
  predicate RefusedBy(r: RuneLike, k: nat, env: Environment, reasons: seq<Reason>)
    requires k < |r.restrictions|
  {
    (forall j | 0 <= j < k :: RestrictionPasses(r.restrictions[j], env))
    && !RestrictionPasses(r.restrictions[k], env)
    && |reasons| == |r.restrictions[k].alternatives|
    && forall i | 0 <= i < |reasons| :: TestAlternative(r.restrictions[k].alternatives[i], env) == Some(reasons[i])
  }
}
