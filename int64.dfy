// 64-bit two's-complement integers as the host's `index` arithmetic computes them:
// wrap-around on overflow, signed division rounding toward zero, unsigned division on
// the mod-2^64 reading.
module Int64 {
  const I64Min: int := -0x8000_0000_0000_0000
  const I64Max: int := 0x7fff_ffff_ffff_ffff
  const TwoTo64: int := 0x1_0000_0000_0000_0000

  predicate InI64(x: int) { I64Min <= x <= I64Max }

  /** Two's-complement wrap-around of an exact result to 64 bits. */
  function Wrap(x: int): (r: int)
    ensures InI64(r)
    ensures InI64(x) ==> r == x
  {
    if InI64(x) then x else (x - I64Min) % TwoTo64 + I64Min
  }

  /** Division rounding toward zero, as the signed host division does. */
  function TruncDiv(a: int, b: int): int
    requires b != 0
  {
    if (a >= 0) == (b > 0) then (if a >= 0 then a / b else (-a) / (-b))
    else -(if a >= 0 then a / (-b) else (-a) / b)
  }

  /** The remainder that goes with `TruncDiv`: it has the sign of the dividend. */
  function TruncRem(a: int, b: int): int
    requires b != 0
  {
    a - b * TruncDiv(a, b)
  }

  /** The unsigned reading of a 64-bit value. */
  function Unsigned(x: int): int { x % TwoTo64 }

  /** The truncating quotient and remainder of 64-bit operands fit in 64 bits, except
      for the one overflowing division, and agree with `/` and `%` on non-negative
      operands. */
  lemma TruncDivRange(a: int, b: int)
    requires InI64(a) && InI64(b) && b != 0 && !(a == I64Min && b == -1)
    ensures InI64(TruncDiv(a, b)) && InI64(TruncRem(a, b))
    ensures a >= 0 && b > 0 ==> TruncDiv(a, b) == a / b && TruncRem(a, b) == a % b
  {
    var am, bm := if a >= 0 then a else -a, if b > 0 then b else -b;
    TruncDivMagnitude(a, b, am, bm);
    TruncRemMagnitude(a, b, am, bm);
  }

  /** The truncating quotient is the quotient of the magnitudes, with a sign. */
  lemma TruncDivMagnitude(a: int, b: int, am: nat, bm: int)
    requires InI64(a) && InI64(b) && b != 0 && !(a == I64Min && b == -1)
    requires am == (if a >= 0 then a else -a) && bm == (if b > 0 then b else -b)
    ensures TruncDiv(a, b) == (if (a >= 0) == (b > 0) then am / bm else -(am / bm))
    ensures InI64(TruncDiv(a, b))
  {
    TruncDivSigned(a, b, am, bm);
    QuotientBound(am, bm);
  }

  /** `TruncDiv` by cases on the signs. */
  lemma TruncDivSigned(a: int, b: int, am: nat, bm: int)
    requires b != 0
    requires am == (if a >= 0 then a else -a) && bm == (if b > 0 then b else -b)
    ensures TruncDiv(a, b) == (if (a >= 0) == (b > 0) then am / bm else -(am / bm))
  {
  }

  /** The quotient of a natural number is at most that number, and equal to a positive
      one only for the divisor 1. */
  lemma QuotientBound(am: nat, bm: int)
    requires bm > 0
    ensures am / bm <= am
    ensures am / bm == am && am > 0 ==> bm == 1
  {
    DivIsAtMost(am, bm);
    var q := am / bm;
    if am > 0 && bm > 1 {
      var p := bm * q;
      assert am == p + am % bm;
      MulAtLeast(bm - 1, q);
      MulDistributes(bm, 1, q);
      assert p >= 2 * q;
      assert q < am;
    }
  }

  /** The truncating remainder is smaller than the divisor in magnitude. */
  lemma TruncRemMagnitude(a: int, b: int, am: nat, bm: int)
    requires InI64(a) && InI64(b) && b != 0 && !(a == I64Min && b == -1)
    requires am == (if a >= 0 then a else -a) && bm == (if b > 0 then b else -b)
    ensures -bm < TruncRem(a, b) < bm
    ensures a >= 0 && b > 0 ==> TruncRem(a, b) == a % b
  {
    TruncRemSigned(a, b, am, bm);
  }

  /** The truncating remainder is the remainder of the magnitudes, with the sign of the
      dividend. */
  lemma TruncRemSigned(a: int, b: int, am: nat, bm: int)
    requires b != 0
    requires am == (if a >= 0 then a else -a) && bm == (if b > 0 then b else -b)
    ensures TruncRem(a, b) == (if a >= 0 then am % bm else -(am % bm))
  {
    TruncDivSigned(a, b, am, bm);
    var q, r := am / bm, am % bm;
    var p := bm * q;
    assert am == p + r;
    if b > 0 {
      if a >= 0 {
        assert b * TruncDiv(a, b) == p;
      } else {
        MulNegRight(bm, q);
        assert b * TruncDiv(a, b) == -p;
      }
    } else {
      if a >= 0 {
        MulNegBoth(bm, q);
        assert b * TruncDiv(a, b) == p;
      } else {
        MulNegLeft(bm, q);
        assert b * TruncDiv(a, b) == -p;
      }
    }
  }

  lemma MulNegLeft(x: int, y: int)
    ensures (-x) * y == -(x * y)
  {
  }

  lemma MulNegRight(x: int, y: int)
    ensures x * (-y) == -(x * y)
  {
  }

  lemma MulNegBoth(x: int, y: int)
    ensures (-x) * (-y) == x * y
  {
  }

  lemma DivIsAtMost(a: nat, b: int)
    requires b > 0
    ensures 0 <= a / b <= a
  {
    var q := a / b;
    assert a == b * q + a % b;
    MulAtLeast(b, q);
  }

  /** `a * b >= b` for `a >= 1` and `b >= 0`. */
  lemma {:induction false} MulAtLeast(a: int, b: nat)
    requires a >= 1
    ensures a * b >= b
  {
    if a > 1 {
      MulAtLeast(a - 1, b);
      assert a * b == (a - 1) * b + b;
    }
  }

  /** Euclidean division is unique: a quotient and a remainder in `[0, m)` that
      reassemble `a` are the ones `/` and `%` give. */
  lemma LinearDivMod(q: int, m: int, r: int)
    requires 0 < m && 0 <= r < m
    ensures (q * m + r) / m == q && (q * m + r) % m == r
  {
    var a := q * m + r;
    var q', r' := a / m, a % m;
    assert a == q' * m + r';
    var d := q - q';
    assert d * m == r' - r by {
      MulDistributes(q, q', m);
    }
    if d >= 1 {
      MulAtLeast(d, m);
    }
  }

  /** `x == (x / n) * n + x % n` with both parts between `0` and `x`. */
  lemma DivModParts(x: nat, n: int)
    requires n > 0
    ensures x == (x / n) * n + x % n && 0 <= (x / n) * n <= x
  {
    var q := x / n;
    assert x == n * q + x % n;
    if q >= 1 {
      MulAtLeast(q, n);
    }
  }

  lemma MulDistributes(a: int, b: int, c: int)
    ensures (a - b) * c == a * c - b * c
  {
  }
}
