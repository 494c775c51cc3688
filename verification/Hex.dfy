/**
 Byte columns and their hex text.  Event ids and public keys travel as lowercase hex strings and are
 stored as bytes; the relay compares prefixes in both worlds, and the two comparisons have to agree.
 */
module Hex {

  type Byte = x: int | 0 <= x < 256
  type Bytes = seq<Byte>

  function Digit(n: nat): char
    requires n < 16
  {
    if n < 10 then (n + '0' as int) as char else (n - 10 + 'a' as int) as char
  }

  predicate IsDigit(c: char) {
    '0' <= c <= '9' || 'a' <= c <= 'f'
  }

  /** The value of a hex digit of either case, or -1. */
  function Nibble(c: char): (n: int)
    ensures -1 <= n < 16
  {
    if '0' <= c <= '9' then c as int - '0' as int
    else if 'a' <= c <= 'f' then c as int - 'a' as int + 10
    else if 'A' <= c <= 'F' then c as int - 'A' as int + 10
    else -1
  }

  predicate IsLowerHex(s: string) {
    forall i | 0 <= i < |s| :: IsDigit(s[i])
  }

  /** Buffer.from(s, 'hex'): pairs of digits, stopping at the first pair that is not one. */
  function ToBuffer(s: string): Bytes {
    if |s| < 2 || Nibble(s[0]) < 0 || Nibble(s[1]) < 0 then []
    else [16 * Nibble(s[0]) + Nibble(s[1])] + ToBuffer(s[2..])
  }

  function Buffers(texts: seq<string>): seq<Bytes> {
    seq(|texts|, i requires 0 <= i < |texts| => ToBuffer(texts[i]))
  }

  function HexPair(b: Byte): (s: string)
    ensures |s| == 2 && IsLowerHex(s)
  {
    [Digit(b / 16), Digit(b % 16)]
  }

  /** buffer.toString('hex') */
  function FromBuffer(b: Bytes): (s: string)
    ensures |s| == 2 * |b|
    ensures IsLowerHex(s)
  {
    if b == [] then "" else HexPair(b[0]) + FromBuffer(b[1..])
  }

  /** The sixteen digits by their character codes: 0 to 9, then a to f. */
  lemma DigitsAre(n: nat)
    requires n < 16
    ensures Digit(n) as int == if n < 10 then 48 + n else 87 + n
  {
  }

  lemma NibbleOfDigit(n: nat)
    requires n < 16
    ensures Nibble(Digit(n)) == n
  {
  }

  lemma DigitOfNibble(c: char)
    requires IsDigit(c)
    ensures 0 <= Nibble(c) && Digit(Nibble(c)) == c
  {
  }

  lemma ToBufferCons(hi: nat, lo: nat, rest: string)
    requires hi < 16 && lo < 16
    ensures ToBuffer([Digit(hi), Digit(lo)] + rest) == [16 * hi + lo] + ToBuffer(rest)
  {
    NibbleOfDigit(hi);
    NibbleOfDigit(lo);
    assert ([Digit(hi), Digit(lo)] + rest)[2..] == rest;
  }

  lemma {:induction false} BytesRoundTrip(b: Bytes)
    ensures ToBuffer(FromBuffer(b)) == b
  {
    if b != [] {
      ToBufferCons(b[0] / 16, b[0] % 16, FromBuffer(b[1..]));
      BytesRoundTrip(b[1..]);
    }
  }

  /** A non-empty even-length hex text is the text of a byte followed by a shorter one. */
  lemma SplitPair(s: string) returns (hi: nat, lo: nat)
    requires IsLowerHex(s) && 2 <= |s|
    ensures hi < 16 && lo < 16 && s == [Digit(hi), Digit(lo)] + s[2..]
    ensures ToBuffer(s) == [16 * hi + lo] + ToBuffer(s[2..])
  {
    DigitOfNibble(s[0]);
    DigitOfNibble(s[1]);
    hi, lo := Nibble(s[0]), Nibble(s[1]);
    assert s == [s[0], s[1]] + s[2..];
    ToBufferCons(hi, lo, s[2..]);
  }

  lemma FromBufferCons(hi: nat, lo: nat, rest: Bytes)
    requires hi < 16 && lo < 16
    ensures FromBuffer([16 * hi + lo] + rest) == [Digit(hi), Digit(lo)] + FromBuffer(rest)
  {
    assert ([16 * hi + lo] + rest)[1..] == rest;
  }

  lemma {:induction false} TextRoundTrip(s: string)
    requires IsLowerHex(s) && |s| % 2 == 0
    ensures FromBuffer(ToBuffer(s)) == s
    ensures 2 * |ToBuffer(s)| == |s|
  {
    if s != [] {
      var hi, lo := SplitPair(s);
      TextRoundTrip(s[2..]);
      FromBufferCons(hi, lo, ToBuffer(s[2..]));
    }
  }

  lemma {:induction false} FromBufferAppend(a: Bytes, b: Bytes)
    ensures FromBuffer(a + b) == FromBuffer(a) + FromBuffer(b)
  {
    if a == [] {
      assert a + b == b;
    } else {
      assert (a + b)[1..] == a[1..] + b;
      FromBufferAppend(a[1..], b);
    }
  }

  lemma {:induction false} ToBufferAppend(s: string, t: string)
    requires IsLowerHex(s) && |s| % 2 == 0
    ensures ToBuffer(s + t) == ToBuffer(s) + ToBuffer(t)
  {
    if s == [] {
      assert s + t == t;
    } else {
      var rest := s[2..];
      ToBufferAppend(rest, t);
      hide Digit, Nibble, ToBuffer, IsLowerHex;
      var hi, lo := SplitPair(s);
      var pair := [Digit(hi), Digit(lo)];
      assert s + t == (pair + rest) + t == pair + (rest + t);
      ToBufferCons(hi, lo, rest + t);
      assert [16 * hi + lo] + (ToBuffer(rest) + ToBuffer(t)) == ToBuffer(s) + ToBuffer(t);
    }
  }

  // ----- the three byte-level prefix tests -----

  /** PostgreSQL's substring(b from 1 for n) */
  function Substring(b: Bytes, n: nat): Bytes {
    if n <= |b| then b[..n] else b
  }

  /** PostgreSQL's order on bytea: lexicographic, a proper prefix first. */
  predicate LexLe(a: Bytes, b: Bytes) {
    a == [] || (b != [] && (a[0] < b[0] || (a[0] == b[0] && LexLe(a[1..], b[1..]))))
  }

  lemma LexOne(x: Byte, y: Byte)
    ensures LexLe([x], [y]) <==> x <= y
  {
    assert [x][1..] == [] && LexLe([], [y][1..]);
  }

  lemma {:induction false} LexBetween(a: Bytes, x: Byte, y: Byte, s: Bytes)
    requires |s| == |a| + 1
    ensures LexLe(a + [x], s) && LexLe(s, a + [y]) <==> s[..|a|] == a && x <= s[|a|] <= y
  {
    if a == [] {
      assert a + [x] == [x] && a + [y] == [y] && s == [s[0]] && s[..0] == a;
      LexOne(x, s[0]);
      LexOne(s[0], y);
    } else {
      assert (a + [x])[1..] == a[1..] + [x] && (a + [y])[1..] == a[1..] + [y];
      LexBetween(a[1..], x, y, s[1..]);
      assert s[1..][..|a| - 1] == s[..|a|][1..];
      if s[0] == a[0] && s[..|a|][1..] == a[1..] {
        assert s[..|a|] == [s[0]] + s[..|a|][1..] == a;
      }
    }
  }

  /** A column whose hex text starts with an even number of given digits starts with their bytes. */
  lemma EvenPrefix(prefix: string, column: Bytes)
    requires IsLowerHex(prefix) && |prefix| % 2 == 0
    ensures Substring(column, |prefix| / 2) == ToBuffer(prefix) <==> prefix <= FromBuffer(column)
  {
    var n := |prefix| / 2;
    TextRoundTrip(prefix);
    if n <= |column| {
      FromBufferAppend(column[..n], column[n..]);
      assert column == column[..n] + column[n..];
      BytesRoundTrip(column[..n]);
      if prefix <= FromBuffer(column) {
        assert prefix == FromBuffer(column)[..2 * n] == FromBuffer(column[..n]);
      }
    }
  }

  /** Appending one digit to an even prefix narrows the next byte to sixteen values. */
  lemma OddBounds(even: string, n: nat, c: string)
    requires IsLowerHex(even) && |even| % 2 == 0 && n < 16 && c in ["0", "f"]
    ensures ToBuffer(even + [Digit(n)] + c) == ToBuffer(even) + [16 * n + if c == "0" then 0 else 15]
  {
    var k := if c == "0" then 0 else 15;
    assert even + [Digit(n)] + c == even + [Digit(n), Digit(k)];
    ToBufferAppend(even, [Digit(n), Digit(k)]);
    ToBufferCons(n, k, []);
    assert [Digit(n), Digit(k)] + [] == [Digit(n), Digit(k)];
  }

  lemma FirstDigit(b: Bytes)
    requires b != []
    ensures FromBuffer(b)[0] == Digit(b[0] / 16)
  {
    hide Digit;
  }

  /** The hex digit at an even position is the upper half of its byte. */
  lemma UpperDigit(column: Bytes, n: nat)
    requires n < |column|
    ensures FromBuffer(column)[2 * n] == Digit(column[n] / 16)
  {
    hide Digit, FromBuffer, IsLowerHex;
    var a, b := column[..n], column[n..];
    FirstDigit(b);
    FromBufferAppend(a, b);
    assert column == a + b && b[0] == column[n];
    assert (FromBuffer(a) + FromBuffer(b))[|FromBuffer(a)|] == FromBuffer(b)[0];
  }

  lemma PrefixSnoc(p: string, c: char, s: string)
    requires |p| < |s|
    ensures p + [c] <= s <==> p <= s && s[|p|] == c
  {
    assert p + [c] <= s ==> s[|p|] == (p + [c])[|p|];
  }

  predicate Between(lo: Bytes, s: Bytes, hi: Bytes) {
    LexLe(lo, s) && LexLe(s, hi)
  }

  /** The odd test in terms of its whole bytes and the digit left over. */
  lemma OddRange(even: string, n: nat, d: nat, column: Bytes)
    requires IsLowerHex(even) && |even| == 2 * n && d < 16 && n < |column|
    ensures Between(ToBuffer(even + [Digit(d)] + "0"), column[..n + 1], ToBuffer(even + [Digit(d)] + "f"))
            <==> column[..n] == ToBuffer(even) && 16 * d <= column[n] <= 16 * d + 15
  {
    hide LexLe, ToBuffer, Digit;
    OddBounds(even, d, "0");
    OddBounds(even, d, "f");
    TextRoundTrip(even);
    var s := column[..n + 1];
    LexBetween(ToBuffer(even), 16 * d, 16 * d + 15, s);
    assert s[..n] == column[..n];
  }

  lemma OddPrefix(prefix: string, n: nat, column: Bytes)
    requires IsLowerHex(prefix) && |prefix| == 2 * n + 1 && n < |column|
    ensures Between(ToBuffer(prefix + "0"), column[..n + 1], ToBuffer(prefix + "f")) <==> prefix <= FromBuffer(column)
  {
    hide LexLe, ToBuffer, Digit;
    var even, d := prefix[..2 * n], Nibble(prefix[2 * n]);
    DigitOfNibble(prefix[2 * n]);
    assert prefix == even + [Digit(d)];
    OddRange(even, n, d, column);
    EvenPrefix(even, column);
    UpperDigit(column, n);
    NibbleOfDigit(column[n] / 16);
    PrefixSnoc(even, Digit(d), FromBuffer(column));
  }

  /** The test the query compiler chooses for a prefix, by the length of the prefix. */
  predicate PrefixTest(prefix: string, column: Bytes) {
    if |prefix| == 64 then column == ToBuffer(prefix)
    else if |prefix| % 2 == 0 then Substring(column, |prefix| / 2) == ToBuffer(prefix)
    else Between(ToBuffer(prefix + "0"), Substring(column, |prefix| / 2 + 1), ToBuffer(prefix + "f"))
  }

  /** On 32-byte columns each of the three byte tests is the prefix test on the hex text. */
  lemma PrefixTestIsTextPrefix(prefix: string, column: Bytes)
    requires IsLowerHex(prefix) && 1 <= |prefix| <= 64 && |column| == 32
    ensures PrefixTest(prefix, column) <==> prefix <= FromBuffer(column)
  {
    hide FromBuffer, ToBuffer, Between, IsLowerHex;
    if |prefix| % 2 == 0 {
      EvenPrefix(prefix, column);
      assert column[..32] == column;
    } else {
      OddPrefix(prefix, |prefix| / 2, column);
    }
  }

  /** Valid texts of equal bytes are equal, so byte comparisons lose nothing. */
  lemma ToBufferInjective(s: string, t: string)
    requires IsLowerHex(s) && IsLowerHex(t) && |s| % 2 == 0 && |t| % 2 == 0
    requires ToBuffer(s) == ToBuffer(t)
    ensures s == t
  {
    TextRoundTrip(s);
    TextRoundTrip(t);
  }
}
