/**
 * The C# 32-bit integer types `int` and `uint` under unchecked arithmetic:
 * every result is reduced modulo 2^32 into the type's range.
 */
module Int32 {

  const Modulus: int := 0x1_0000_0000
  const MinValue: int := -0x8000_0000
  const MaxValue: int := 0x7FFF_FFFF

  type int32 = x: int | -0x8000_0000 <= x < 0x8000_0000
  type uint32 = x: int | 0 <= x < 0x1_0000_0000

  predicate InRange(x: int) {
    MinValue <= x <= MaxValue
  }

  /** Two's-complement wrap-around of an exact result into `int`. */
  function Wrap(x: int): (r: int32)
    ensures (r - x) % Modulus == 0
    ensures InRange(x) ==> r == x
  {
    var m := x % Modulus;
    if m < 0x8000_0000 then m else m - Modulus
  }

  /** Reduction of an exact result into `uint`. */
  function WrapU(x: int): (r: uint32)
    ensures (r - x) % Modulus == 0
    ensures 0 <= x < Modulus ==> r == x
  {
    x % Modulus
  }

  /** Two values that agree modulo 2^32 wrap to the same `int`. */
  lemma WrapCongruent(a: int, b: int)
    requires (a - b) % Modulus == 0
    ensures Wrap(a) == Wrap(b)
  {
    assert a % Modulus == b % Modulus by {
      var k := (a - b) / Modulus;
      assert a == b + k * Modulus;
      ModShift(b, k);
    }
  }

  lemma WrapUCongruent(a: int, b: int)
    requires (a - b) % Modulus == 0
    ensures WrapU(a) == WrapU(b)
  {
    var k := (a - b) / Modulus;
    assert a == b + k * Modulus;
    ModShift(b, k);
  }

  lemma ModShift(b: int, k: int)
    ensures (b + k * Modulus) % Modulus == b % Modulus
  {
    var q := b / Modulus;
    var r := b % Modulus;
    assert b + k * Modulus == (q + k) * Modulus + r;
  }

  /** `(int)u`: the bits of a `uint` read as an `int`. */
  function ToInt32(u: uint32): (r: int32)
    ensures r == if u <= MaxValue then u else u - Modulus
  {
    Wrap(u)
  }

  /** `(uint)i`: the bits of an `int` read as a `uint`. */
  function ToUInt32(i: int32): (r: uint32)
    ensures r == if i >= 0 then i else i + Modulus
  {
    WrapU(i)
  }

  lemma IntUIntRoundTrip(i: int32)
    ensures ToInt32(ToUInt32(i)) == i
  {
  }

  lemma UIntIntRoundTrip(u: uint32)
    ensures ToUInt32(ToInt32(u)) == u
  {
  }

  function Abs(x: int): nat {
    if x < 0 then -x else x
  }

  /** C# integer division: the quotient is truncated toward zero. */
  function TruncDiv(a: int, b: int): (q: int)
    requires b != 0
    ensures Abs(q) == Abs(a) / Abs(b)
    ensures q == 0 || ((q < 0) <==> ((a < 0) != (b < 0)))
  {
    var m := Abs(a) / Abs(b);
    assert m >= 0 by {
      DivBounds(Abs(a), Abs(b));
    }
    if (a < 0) == (b < 0) then m else -m
  }

  /** The quotient's magnitude times the divisor's is at most the dividend's, and one more step overshoots. */
  lemma TruncDivBounds(a: int, b: int)
    requires b != 0
    ensures Abs(TruncDiv(a, b)) * Abs(b) <= Abs(a) < (Abs(TruncDiv(a, b)) + 1) * Abs(b)
  {
    DivBounds(Abs(a), Abs(b));
  }

  lemma DivBounds(n: nat, d: nat)
    requires d > 0
    ensures (n / d) * d <= n < (n / d + 1) * d
  {
    var m, r := n / d, n % d;
    assert n == m * d + r;
    assert (m + 1) * d == m * d + d;
  }

  /** The quotient is never larger in magnitude than the dividend. */
  lemma TruncDivBound(a: int, b: int)
    requires b != 0
    ensures Abs(TruncDiv(a, b)) <= Abs(a)
    ensures Abs(b) >= 2 ==> Abs(TruncDiv(a, b)) * 2 <= Abs(a)
  {
    var q := Abs(TruncDiv(a, b));
    TruncDivBounds(a, b);
    MulAtLeast(q, Abs(b), 1);
    if Abs(b) >= 2 {
      MulAtLeast(q, Abs(b), 2);
    }
  }

  lemma MulAtLeast(q: nat, d: nat, k: nat)
    requires d >= k
    ensures q * k <= q * d
  {
    assert q * d == q * k + q * (d - k);
  }

  /** Truncating division keeps an `int` in range except for int.MinValue / -1. */
  lemma TruncDivInRange(a: int32, b: int32)
    requires b != 0 && !(a == MinValue && b == -1)
    ensures InRange(TruncDiv(a, b))
  {
    TruncDivBound(a, b);
    if b == 1 {
      assert Abs(a) / 1 == Abs(a);
    }
  }
}
