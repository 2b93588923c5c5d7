/**
  Integer arithmetic with the meaning C gives it.

  Dafny's `/` and `%` are Euclidean (the remainder is never negative); C's
  `/` truncates toward zero and its `%` takes the sign of the dividend
  (section 6.5.5 of ISO C99). A conversion from a floating value to `int`
  discards the fractional part (section 6.3.1.4 of ISO C99). The renderer
  relies on all three, so they are spelled out here once.
 */
module CInt {

  function Abs(a: int): nat
  {
    if a < 0 then -a else a
  }

  function Max(a: int, b: int): int
  {
    if a < b then b else a
  }

  function Min(a: int, b: int): int
  {
    if a < b then a else b
  }

  /** Multiplying a natural number by a positive one never makes it smaller. */
  lemma {:induction false} MulGrows(b: nat, k: nat)
    requires k >= 1
    ensures b * k >= b
  {
    if k > 1 {
      MulGrows(b, k - 1);
      assert b * k == b * (k - 1) + b;
    }
  }

  lemma AbsMul(b: int, k: int)
    ensures Abs(b * k) == Abs(b) * Abs(k)
  {
    if b < 0 && k < 0 {
      assert b * k == (-b) * (-k);
    } else if b < 0 {
      assert b * k == -((-b) * k);
    } else if k < 0 {
      assert b * k == -(b * (-k));
    }
  }

  /** A nonzero multiple of `b` is at least as large as `b` in magnitude. */
  lemma SmallMultipleIsZero(b: int, k: int)
    requires b != 0
    requires Abs(b * k) < Abs(b)
    ensures k == 0
  {
    AbsMul(b, k);
    if k != 0 {
      MulGrows(Abs(b), Abs(k));
    }
  }

  /** Euclidean division is determined by its defining equation. */
  lemma EuclidUnique(a: int, d: int, q: int, r: int)
    requires d > 0
    requires a == d * q + r
    requires 0 <= r < d
    ensures q == a / d && r == a % d
  {
    assert a == d * (a / d) + a % d;
    assert d * (q - a / d) == a % d - r;
    SmallMultipleIsZero(d, q - a / d);
  }

  /** Multiplication distributes over subtraction and carries the sign of either factor. */
  lemma MulSigns(b: int, x: int, y: int)
    ensures b * (x - y) == b * x - b * y
    ensures b * -x == -(b * x)
    ensures b * x == (if b < 0 then -(Abs(b) * x) else Abs(b) * x)
  {
  }

  /** The sign and magnitude bookkeeping of truncated division, free of any product. */
  lemma TruncatedRemainder(a: int, b: int, p: int, rest: int, bm: int, bmNeg: int)
    requires b != 0
    requires Abs(a) == p + rest && 0 <= rest < Abs(b)
    requires bm == (if b < 0 then -p else p) && bmNeg == -bm
    ensures var bq := if (a < 0) == (b < 0) then bm else bmNeg;
      Abs(a - bq) < Abs(b) && (a - bq == 0 || (a - bq < 0 <==> a < 0))
  {
  }

  /** The quotient of the magnitudes, given the sign C's rule calls for, leaves a remainder as C describes it. */
  lemma TruncatedQuotient(a: int, b: int, m: int)
    requires b != 0
    requires m == Abs(a) / Abs(b)
    ensures var q := if (a < 0) == (b < 0) then m else -m;
      Abs(a - b * q) < Abs(b) && (a - b * q == 0 || (a - b * q < 0 <==> a < 0))
  {
    var B := Abs(b);
    assert Abs(a) == B * m + Abs(a) % B && 0 <= Abs(a) % B < B;
    MulSigns(b, m, 0);
    TruncatedRemainder(a, b, B * m, Abs(a) % B, b * m, b * -m);
  }

  /** Two remainders that are both smaller than `b` and both carry the dividend's sign differ by less than `b`. */
  lemma SameSignRemainders(a: int, b: int, r: int, r0: int)
    requires b != 0
    requires Abs(r) < Abs(b) && Abs(r0) < Abs(b)
    requires r == 0 || (r < 0 <==> a < 0)
    requires r0 == 0 || (r0 < 0 <==> a < 0)
    ensures Abs(r - r0) < Abs(b)
  {
  }

  /** C's `a / b`: the algebraic quotient with its fractional part discarded. */
  function CDiv(a: int, b: int): (q: int)
    requires b != 0
    ensures Abs(a - b * q) < Abs(b)
    ensures a - b * q == 0 || (a - b * q < 0 <==> a < 0)
  {
    var m := Abs(a) / Abs(b);
    TruncatedQuotient(a, b, m);
    if (a < 0) == (b < 0) then m else -m
  }

  /** C's `a % b`: what is left of `a` after taking away `b` times the truncated quotient. */
  function CRem(a: int, b: int): (r: int)
    requires b != 0
    ensures a == b * CDiv(a, b) + r
    ensures Abs(r) < Abs(b)
    ensures r == 0 || (r < 0 <==> a < 0)
  {
    a - b * CDiv(a, b)
  }

  /** The two properties C's standard demands of `/` pin the quotient down: CDiv is the only candidate. */
  lemma CDivUnique(a: int, b: int, q: int)
    requires b != 0
    requires Abs(a - b * q) < Abs(b)
    requires a - b * q == 0 || (a - b * q < 0 <==> a < 0)
    ensures q == CDiv(a, b)
  {
    var q0 := CDiv(a, b);
    SameSignRemainders(a, b, a - b * q, a - b * q0);
    MulSigns(b, q0, q);
    SmallMultipleIsZero(b, q0 - q);
  }

  /** For a dividend of either sign and a positive divisor, C's remainder is the Euclidean one or that minus the divisor. */
  lemma CRemEuclidean(a: int, d: int)
    requires d > 0
    ensures CRem(a, d) == a % d || CRem(a, d) == a % d - d
  {
    var q := CDiv(a, d);
    var r := CRem(a, d);
    if r >= 0 {
      EuclidUnique(a, d, q, r);
    } else {
      assert a == d * (q - 1) + (r + d);
      EuclidUnique(a, d, q - 1, r + d);
    }
  }

  /**
    The wrap the floor and ceiling sampler applies to a texel coordinate:
    take C's remainder, then add the dimension back when it came out
    negative. The result is the Euclidean residue, so it always lies in
    `[0, dim)` and repeats with period `dim`.
   */
  function Wrap(a: int, dim: int): (r: int)
    requires dim > 0
    ensures 0 <= r < dim
    ensures r == a % dim
  {
    var c := CRem(a, dim);
    CRemEuclidean(a, dim);
    if c < 0 then c + dim else c
  }

  /** A whole number of periods does not move a wrapped coordinate. */
  lemma {:induction false} WrapPeriodic(a: int, dim: int, k: int)
    requires dim > 0
    ensures Wrap(a + k * dim, dim) == Wrap(a, dim)
  {
    var q := a / dim;
    var r := a % dim;
    assert a + k * dim == dim * (q + k) + r;
    EuclidUnique(a + k * dim, dim, q + k, r);
  }

  /** C's conversion of a floating value to `int`: the fractional part is discarded (rounding toward zero). */
  function TruncToInt(x: real): (n: int)
    ensures x >= 0.0 ==> n as real <= x < n as real + 1.0
    ensures x < 0.0 ==> n as real - 1.0 < x <= n as real
  {
    if x >= 0.0 then x.Floor else -((-x).Floor)
  }
}
