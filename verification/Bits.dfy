/** The bitwise operators of C on unsigned words, and what they do to divisibility by powers of two. */
module Bits {

  function Pow2(k: nat): (p: nat)
    ensures p > 0
  {
    if k == 0 then 1 else 2 * Pow2(k - 1)
  }

  /** The operators `|`, `&`, and `&` with the complement of the second operand. */
  function Or(x: nat, y: nat): nat {
    if x == 0 && y == 0 then 0 else 2 * Or(x / 2, y / 2) + if x % 2 == 1 || y % 2 == 1 then 1 else 0
  }

  function And(x: nat, y: nat): nat {
    if x == 0 || y == 0 then 0 else 2 * And(x / 2, y / 2) + if x % 2 == 1 && y % 2 == 1 then 1 else 0
  }

  function AndNot(x: nat, y: nat): nat {
    if x == 0 then 0 else 2 * AndNot(x / 2, y / 2) + if x % 2 == 1 && y % 2 == 0 then 1 else 0
  }

  predicate Divides(k: nat, x: int) {
    x % Pow2(k) == 0
  }

  /** Divisibility by a power of two, one bit at a time. */
  lemma Halves(k: nat, x: nat)
    requires k > 0
    ensures Divides(k, x) <==> x % 2 == 0 && Divides(k - 1, x / 2)
    ensures x % Pow2(k) == 2 * (x / 2 % Pow2(k - 1)) + x % 2
  {
    var p := Pow2(k - 1);
    var q, r := x / 2 / p, x / 2 % p;
    assert x == 2 * (q * p + r) + x % 2;
    Remainder(x, 2 * p, q, 2 * r + x % 2);
  }

  lemma Remainder(x: int, p: int, q: int, r: int)
    requires 0 <= r < p
    requires x == q * p + r
    ensures x / p == q && x % p == r
  {
    var d := x / p - q;
    assert d * p == r - x % p by { assert x / p * p == (q + d) * p; }
    Farther(d, p);
  }

  /** A nonzero multiple is at least as far from zero as what it is a multiple of. */
  lemma Farther(d: int, p: int)
    requires p >= 0
    ensures d >= 1 ==> d * p >= p
    ensures d <= -1 ==> d * p <= -p
  {
    if d >= 1 {
      assert (d - 1) * p >= 0;
    } else if d <= -1 {
      assert (-d - 1) * p >= 0;
    }
  }

  lemma {:induction false} PowersGrow(j: nat, k: nat)
    requires j <= k
    ensures Pow2(j) <= Pow2(k) && Divides(j, Pow2(k))
    decreases k
  {
    if j < k {
      PowersGrow(j, k - 1);
      var p := Pow2(j);
      var q := Pow2(k - 1) / p;
      Remainder(Pow2(k), p, 2 * q, 0);
    }
  }

  /** A power of two divides whatever a larger power of two divides. */
  lemma {:induction false} SmallerDivides(j: nat, k: nat, x: nat)
    requires j <= k && Divides(k, x)
    ensures Divides(j, x)
    decreases k
  {
    if j > 0 {
      Halves(k, x);
      Halves(j, x);
      SmallerDivides(j - 1, k - 1, x / 2);
    }
  }

  lemma {:induction false} OrHalf(x: nat, y: nat)
    ensures Or(x, y) / 2 == Or(x / 2, y / 2)
    ensures Or(x, y) % 2 == 0 <==> x % 2 == 0 && y % 2 == 0
  {
  }

  /** A power of two divides a bitwise or exactly when it divides both operands. */
  lemma {:induction false} OrDivides(k: nat, x: nat, y: nat)
    ensures Divides(k, Or(x, y)) <==> Divides(k, x) && Divides(k, y)
    decreases k
  {
    if k > 0 {
      Halves(k, x);
      Halves(k, y);
      Halves(k, Or(x, y));
      OrHalf(x, y);
      OrDivides(k - 1, x / 2, y / 2);
    }
  }

  lemma {:induction false} OrZero(x: nat, y: nat)
    ensures Or(x, y) == 0 <==> x == 0 && y == 0
  {
    if x != 0 || y != 0 {
      OrZero(x / 2, y / 2);
    }
  }

  lemma {:induction false} Same(x: nat)
    ensures And(x, x) == x
    ensures AndNot(x, x) == 0
  {
    if x > 0 {
      Same(x / 2);
    }
  }

  /** Clearing the low bits rounds down. */
  lemma {:induction false} ClearLow(x: nat, k: nat)
    ensures AndNot(x, Pow2(k) - 1) == x - x % Pow2(k)
    decreases k
  {
    if k == 0 {
      ClearNone(x);
    } else {
      ClearLow(x / 2, k - 1);
      Halves(k, x);
      assert (Pow2(k) - 1) / 2 == Pow2(k - 1) - 1 && (Pow2(k) - 1) % 2 == 1;
    }
  }

  lemma {:induction false} ClearNone(x: nat)
    ensures AndNot(x, 0) == x
  {
    if x > 0 {
      ClearNone(x / 2);
    }
  }

  /** Removing from a number all its bits but the lowest leaves the largest power of two that divides it. */
  lemma {:induction false} LowestBit(x: nat) returns (k: nat)
    requires x > 0
    ensures AndNot(x, And(x, x - 1)) == Pow2(k)
    ensures forall j: nat :: Divides(j, x) <==> j <= k
  {
    var h := x / 2;
    if x % 2 == 1 {
      k := 0;
      assert (x - 1) / 2 == h;
      Same(h);
      assert And(x, x - 1) == 2 * h;
      assert AndNot(x, 2 * h) == 2 * AndNot(h, h) + 1;
      forall j: nat | j > 0
        ensures !Divides(j, x)
      {
        Halves(j, x);
      }
    } else {
      var low := And(h, h - 1);
      var i := LowestBit(h);
      k := i + 1;
      assert (x - 1) / 2 == h - 1;
      assert And(x, x - 1) == 2 * low;
      assert AndNot(x, 2 * low) == 2 * AndNot(h, low);
      forall j: nat
        ensures Divides(j, x) <==> j <= k
      {
        if j > 0 {
          Halves(j, x);
        }
      }
    }
  }

  /** `Common::RoundToPow2`: the next multiple. */
  function RoundToPow2(number: nat, powerOf2: nat): nat
    requires powerOf2 > 0
  {
    AndNot(number + powerOf2 - 1, powerOf2 - 1)
  }

  /** What rounding is for: the result is the least multiple that is not below the number. */
  lemma RoundsUp(number: nat, k: nat)
    ensures var r := RoundToPow2(number, Pow2(k));
            && Divides(k, r)
            && number <= r < number + Pow2(k)
            && forall m: nat | Divides(k, m) && number <= m :: r <= m
  {
    hide AndNot, Pow2;
    var p := Pow2(k);
    var x := number + p - 1;
    ClearLow(x, k);
    var r := RoundToPow2(number, p);
    Multiple(x, k);
    forall m: nat | Divides(k, m) && number <= m
      ensures r <= m
    {
      if m < r {
        NoMultipleBetween(m, r, k);
        assert false;
      }
    }
  }

  lemma Multiple(x: nat, k: nat)
    ensures x % Pow2(k) <= x && Divides(k, x - x % Pow2(k))
  {
    var p := Pow2(k);
    Quotient(x, p);
    Remainder(x - x % p, p, x / p, 0);
  }

  lemma Quotient(x: nat, p: nat)
    requires p > 0
    ensures x == x / p * p + x % p && 0 <= x % p <= x && x / p >= 0
  {
    Farther(x / p, p);
  }

  lemma NoMultipleBetween(m: nat, r: nat, k: nat)
    requires Divides(k, m) && Divides(k, r) && m < r
    ensures m + Pow2(k) <= r
  {
    var p := Pow2(k);
    var a, b := m / p, r / p;
    assert m == a * p && r == b * p;
    assert r - m == (b - a) * p;
    Farther(b - a, p);
    if b == a {
      assert false;
    }
  }

  lemma SumDivides(k: nat, x: int, y: int)
    requires Divides(k, x) && Divides(k, y)
    ensures Divides(k, x + y)
  {
    var p := Pow2(k);
    var a, b := x / p, y / p;
    assert x == a * p && y == b * p;
    assert x + y == (a + b) * p;
    Remainder(x + y, p, a + b, 0);
  }

  lemma ProductDivides(k: nat, x: int, n: int)
    requires Divides(k, x)
    ensures Divides(k, n * x)
  {
    var p := Pow2(k);
    var a := x / p;
    assert x == a * p;
    assert n * x == (n * a) * p by { assert n * (a * p) == (n * a) * p; }
    Remainder(n * x, p, n * a, 0);
  }
}
