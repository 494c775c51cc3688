/** Leading zero bits of a hash, the difficulty of NIP-13. */
module ProofOfWork {

  type Byte = b: int | 0 <= b < 256

  function Pow2(n: nat): (p: nat)
    ensures p > 0
  {
    if n == 0 then 1 else 2 * Pow2(n - 1)
  }

  /** The big-endian number the bytes write. */
  function BigEndian(s: seq<Byte>): nat {
    if s == [] then 0 else s[0] * Pow2(8 * (|s| - 1)) + BigEndian(s[1..])
  }

  /** The number is small enough to leave the top d bits clear. */
  predicate FitsBelow(s: seq<Byte>, d: nat)
    requires d <= 8 * |s|
  {
    BigEndian(s) < Pow2(8 * |s| - d)
  }

  lemma {:induction false} Pow2Adds(m: nat, n: nat)
    ensures Pow2(m + n) == Pow2(m) * Pow2(n)
  {
    if m > 0 {
      Pow2Adds(m - 1, n);
      assert Pow2(m + n) == 2 * Pow2((m - 1) + n);
    }
  }

  lemma Pow2Grows(m: nat, n: nat)
    requires m <= n
    ensures Pow2(m) <= Pow2(n)
  {
    Pow2Adds(m, n - m);
    assert Pow2(m) * Pow2(n - m) >= Pow2(m);
  }

  lemma ByteRange()
    ensures Pow2(8) == 256
  {
    assert Pow2(4) == 16;
    Pow2Adds(4, 4);
  }

  lemma Digit(x: nat, p: nat, rest: nat, low: nat, high: nat)
    requires low <= x < high && rest < p
    ensures low * p <= x * p + rest < high * p
  {
    assert low * p <= x * p;
    assert (x + 1) * p <= high * p;
  }

  lemma {:induction false} BigEndianBound(s: seq<Byte>)
    ensures BigEndian(s) < Pow2(8 * |s|)
  {
    if s != [] {
      hide Pow2;
      BigEndianBound(s[1..]);
      ByteRange();
      Pow2Adds(8, 8 * (|s| - 1));
      Digit(s[0], Pow2(8 * (|s| - 1)), BigEndian(s[1..]), 0, 256);
      assert 8 + 8 * (|s| - 1) == 8 * |s|;
    } else {
      assert Pow2(0) == 1;
    }
  }

  /** The byte's highest set bit decides the size of the number it leads. */
  lemma LeadByte(s: seq<Byte>, bits: nat)
    requires s != [] && bits < 8
    requires Pow2(7 - bits) <= s[0] < Pow2(8 - bits)
    ensures Pow2(8 * |s| - bits - 1) <= BigEndian(s) < Pow2(8 * |s| - bits)
  {
    hide Pow2;
    var m := 8 * (|s| - 1);
    BigEndianBound(s[1..]);
    Digit(s[0], Pow2(m), BigEndian(s[1..]), Pow2(7 - bits), Pow2(8 - bits));
    Pow2Adds(7 - bits, m);
    Pow2Adds(8 - bits, m);
    assert (7 - bits) + m == 8 * |s| - bits - 1;
    assert (8 - bits) + m == 8 * |s| - bits;
  }

  /** A highest set bit at distance `total` from the top answers every comparison with a power of two. */
  lemma TopBitDecides(v: nat, width: nat, total: nat, d: nat)
    requires total <= width && d <= width
    requires v < Pow2(width - total)
    requires total < width ==> Pow2(width - total - 1) <= v
    ensures total >= d <==> v < Pow2(width - d)
  {
    if total >= d {
      Pow2Grows(width - total, width - d);
    } else {
      Pow2Grows(width - d, width - total - 1);
    }
  }

  /** The position of the highest set bit, counted from the top by shifting it out. */
  method Msb(byte: Byte) returns (bits: nat)
    ensures bits <= 8
    ensures bits == 8 <==> byte == 0
    ensures bits < 8 ==> Pow2(7 - bits) <= byte < Pow2(8 - bits)
  {
    if byte == 0 {
      return 8;
    }
    var n, b: int := 0, byte;
    ByteRange();
    assert Pow2(0) == 1;
    b := b / 2;
    while b != 0
      invariant 0 <= n && 0 <= b
      invariant 2 * b * Pow2(n) <= byte < (2 * b + 2) * Pow2(n)
      invariant b == 0 ==> Pow2(n) <= byte
      decreases b
    {
      var p := Pow2(n);
      assert Pow2(n + 1) == 2 * p;
      var half := b / 2;
      assert b == 2 * half || b == 2 * half + 1;
      HalfStep(b, half, p, byte);
      n := n + 1;
      b := half;
    }
    assert 2 * Pow2(n) == Pow2(n + 1);
    if n >= 8 {
      Pow2Grows(8, n);
      assert false;
    }
    return 7 - n;
  }

  lemma HalfStep(b: nat, half: nat, p: nat, byte: nat)
    requires 0 < b && (b == 2 * half || b == 2 * half + 1)
    requires 2 * b * p <= byte < (2 * b + 2) * p
    ensures 2 * half * (2 * p) <= byte < (2 * half + 2) * (2 * p)
    ensures half == 0 ==> 2 * p <= byte
  {
    if b == 2 * half {
      assert 2 * b * p == 2 * half * (2 * p);
      assert (2 * half + 2) * (2 * p) == (2 * b + 2) * p + 2 * p;
    } else {
      assert 2 * b * p == 2 * half * (2 * p) + 2 * p;
      assert (2 * half + 2) * (2 * p) == (2 * b + 2) * p;
    }
  }

  lemma SkipZero(s: seq<Byte>, i: nat)
    requires i < |s| && s[i] == 0
    ensures BigEndian(s[i..]) == BigEndian(s[i + 1..])
  {
    assert s[i..][1..] == s[i + 1..];
  }

  /** At least d leading zero bits means less than 2 to the power of the remaining width, for every d. */
  method GetLeadingZeroBits(hash: seq<Byte>) returns (total: nat)
    ensures total <= 8 * |hash|
    ensures forall d: nat | d <= 8 * |hash| :: total >= d <==> FitsBelow(hash, d)
  {
    hide BigEndian, Pow2;
    var i := 0;
    total := 0;
    while i < |hash|
      invariant i <= |hash| && total == 8 * i
      invariant BigEndian(hash) == BigEndian(hash[i..])
    {
      var bits := Msb(hash[i]);
      total := total + bits;
      if bits != 8 {
        LeadByte(hash[i..], bits);
        Decided(hash, total);
        return;
      }
      SkipZero(hash, i);
      i := i + 1;
    }
    Nothing();
    assert hash[i..] == [];
    Decided(hash, total);
  }

  lemma Nothing()
    ensures BigEndian([]) == 0 && Pow2(0) == 1
  {
  }

  lemma Decided(hash: seq<Byte>, total: nat)
    requires total <= 8 * |hash|
    requires BigEndian(hash) < Pow2(8 * |hash| - total)
    requires total < 8 * |hash| ==> Pow2(8 * |hash| - total - 1) <= BigEndian(hash)
    ensures forall d: nat | d <= 8 * |hash| :: total >= d <==> FitsBelow(hash, d)
  {
    hide BigEndian, Pow2;
    forall d: nat | d <= 8 * |hash| ensures total >= d <==> FitsBelow(hash, d) {
      TopBitDecides(BigEndian(hash), 8 * |hash|, total, d);
    }
  }
}
