/** Small facts about products and quotients, one step each, so that larger proofs stay linear. */
module Arithmetic {

  function Quotient(a: nat, b: nat): nat
    requires b > 0
  {
    a / b
  }

  function Remainder(a: nat, b: nat): nat
    requires b > 0
  {
    a % b
  }

  function Min(a: nat, b: nat): nat {
    if a <= b then a else b
  }

  lemma Monotone(a: nat, b: nat, k: nat)
    requires a <= b
    ensures a * k <= b * k && k * a <= k * b
  {
  }

  lemma NextMultiple(a: nat, k: nat)
    ensures (a + 1) * k == a * k + k
  {
  }

  lemma LastFactor(a: nat, k: nat)
    requires k >= 1
    ensures a * k == a * (k - 1) + a
  {
  }

  lemma Commute(a: nat, b: nat)
    ensures a * b == b * a
  {
  }

  lemma Regroup(a: nat, b: nat, c: nat)
    ensures a * (b * c) == (a * b) * c
  {
  }

  lemma Distribute(a: nat, b: nat, k: nat)
    ensures (a + b) * k == a * k + b * k
  {
  }

  lemma PositiveProduct(a: nat, b: nat)
    requires a > 0 && b > 0
    ensures a * b > 0
  {
  }

  lemma Division(a: nat, b: nat)
    requires b > 0
    ensures a == Quotient(a, b) * b + Remainder(a, b) && Remainder(a, b) < b
  {
  }

  lemma QuotientRange(a: nat, b: nat)
    requires b > 0
    ensures a - (b - 1) <= b * Quotient(a, b) <= a
  {
    Division(a, b);
    Commute(b, Quotient(a, b));
  }

  /** Division with remainder has only one answer. */
  lemma DivisionUnique(a: nat, b: nat, q: nat, r: nat)
    requires r < b && a == q * b + r
    ensures Quotient(a, b) == q && Remainder(a, b) == r
  {
    Division(a, b);
    SameFactor(Quotient(a, b), Remainder(a, b), q, r, b);
  }

  lemma SmallRemainder(q: nat, n: nat)
    requires q < n
    ensures Remainder(q, n) == q
  {
  }

  lemma SameFactor(p: nat, x: nat, q: nat, y: nat, b: nat)
    requires x < b && y < b && p * b + x == q * b + y
    ensures p == q && x == y
  {
    NextMultiple(p, b);
    NextMultiple(q, b);
    if p < q {
      Monotone(p + 1, q, b);
    }
    if q < p {
      Monotone(q + 1, p, b);
    }
  }

  lemma QuotientBetween(a: nat, b: nat, lo: nat, hi: nat)
    requires b > 0 && lo * b <= a <= hi * b
    ensures lo <= Quotient(a, b) <= hi
  {
    Division(a, b);
    FactorBetween(Quotient(a, b), Remainder(a, b), b, lo, hi);
  }

  lemma FactorBetween(q: nat, r: nat, b: nat, lo: nat, hi: nat)
    requires r < b && lo * b <= q * b + r <= hi * b
    ensures lo <= q <= hi
  {
    NextMultiple(q, b);
    NextMultiple(hi, b);
    if q < lo {
      Monotone(q + 1, lo, b);
    }
    if q > hi {
      Monotone(hi + 1, q, b);
    }
  }

  lemma CancelFactor(a: nat, b: nat, k: nat)
    requires b > 0 && k > 0
    ensures b * k > 0 && Quotient(a * k, b * k) == Quotient(a, b)
  {
    var q, r := Quotient(a, b), Remainder(a, b);
    Division(a, b);
    PositiveProduct(b, k);
    Distribute(q * b, r, k);
    Regroup(q, b, k);
    StrictlyMonotone(r, b, k);
    DivisionUnique(a * k, b * k, q, r * k);
  }

  lemma StrictlyMonotone(a: nat, b: nat, k: nat)
    requires a < b && k > 0
    ensures a * k < b * k
  {
  }

  /** A multiple of `w` passes through the division by `w`. */
  lemma AddMultiple(b: nat, c: nat, w: nat)
    requires w > 0
    ensures Quotient(c * w + b, w) == c + Quotient(b, w) && Remainder(c * w + b, w) == Remainder(b, w)
  {
    Division(b, w);
    Distribute(c, Quotient(b, w), w);
    DivisionUnique(c * w + b, w, c + Quotient(b, w), Remainder(b, w));
  }

  /** Reducing modulo a multiple of `n * w` keeps the digit of weight `w` to base `n`. */
  lemma DigitBelow(k: nat, m: nat, w: nat, n: nat, r: nat)
    requires w > 0 && n > 0 && m > 0 && m == r * (n * w)
    ensures Remainder(Quotient(Remainder(k, m), w), n) == Remainder(Quotient(k, w), n)
  {
    var q, b := Quotient(k, m), Remainder(k, m);
    Division(k, m);
    Regroup(q, r, n * w);
    Regroup(q * r, n, w);
    AddMultiple(b, (q * r) * n, w);
    AddMultiple(Quotient(b, w), q * r, n);
  }
}
