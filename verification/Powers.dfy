/** Natural powers and the few facts about them that the codecs need. */
module Powers {

  function Pow(b: nat, e: nat): nat {
    if e == 0 then 1 else b * Pow(b, e - 1)
  }

  lemma {:induction false} PowPositive(b: nat, e: nat)
    requires b >= 1
    ensures Pow(b, e) >= 1
  {
    if e > 0 {
      PowPositive(b, e - 1);
      MulMonotone(1, b, Pow(b, e - 1));
    }
  }

  lemma {:induction false} PowAdd(b: nat, x: nat, y: nat)
    ensures Pow(b, x + y) == Pow(b, x) * Pow(b, y)
  {
    if x == 0 {
      assert Pow(b, x) == 1;
    } else {
      PowAdd(b, x - 1, y);
      assert Pow(b, x + y) == b * Pow(b, (x - 1) + y);
      assert Pow(b, x) == b * Pow(b, x - 1);
      assert b * (Pow(b, x - 1) * Pow(b, y)) == b * Pow(b, x - 1) * Pow(b, y);
    }
  }

  lemma {:induction false} PowMonotone(b: nat, x: nat, y: nat)
    requires b >= 1 && x <= y
    ensures Pow(b, x) <= Pow(b, y)
    decreases y
  {
    if x < y {
      PowMonotone(b, x, y - 1);
      MulMonotone(1, b, Pow(b, y - 1));
    }
  }

  lemma MulMonotone(x: int, y: int, k: nat)
    requires x <= y
    ensures x * k <= y * k
  {
  }

  lemma MulStrict(x: int, y: int, k: int)
    requires x * k < y * k && k >= 0
    ensures x < y
  {
    if y <= x {
      MulMonotone(y, x, k);
    }
  }

  /** The quotient is the only q with q*d <= n < (q+1)*d. */
  lemma QuotientUnique(n: int, d: int, q: int)
    requires d > 0 && q * d <= n < (q + 1) * d
    ensures n / d == q
  {
    var p := n / d;
    assert p * d <= n < p * d + d;
    assert (p + 1) * d == p * d + d;
    MulStrict(p, q + 1, d);
    MulStrict(q, p + 1, d);
  }

  /** A multiple k*d is at most n exactly when k is at most the quotient. */
  lemma MultiplesBelow(n: nat, d: nat, k: nat)
    requires d > 0
    ensures n / d * d <= n < (n / d + 1) * d && n == n / d * d + n % d
    ensures k * d <= n <==> k <= n / d
  {
    var q := n / d;
    assert n == q * d + n % d;
    assert (q + 1) * d == q * d + d;
    if k <= q {
      MulMonotone(k, q, d);
    } else {
      MulMonotone(q + 1, k, d);
    }
  }

  function FloorDiv(n: nat, p: nat): nat
    requires p > 0
  {
    n / p
  }

  function CeilDiv(n: nat, p: nat): nat
    requires p > 0
  {
    if n % p != 0 then n / p + 1 else n / p
  }

  /** Dividing and rounding down gives the greatest count of p that n holds. */
  lemma FloorDivision(n: nat, p: nat, top: nat)
    requires p > 0 && n <= top * p
    ensures FloorDiv(n, p) <= top && FloorDiv(n, p) * p <= n
  {
    MultiplesBelow(n, p, top + 1);
    assert (top + 1) * p == top * p + p;
  }

  /** Dividing and rounding up gives the least count of p that reaches n. */
  lemma CeilingDivision(n: nat, p: nat, top: nat)
    requires p > 0 && n <= top * p
    ensures CeilDiv(n, p) <= top && n <= CeilDiv(n, p) * p < n + p
  {
    var q, r := n / p, n % p;
    MultiplesBelow(n, p, q);
    assert n == q * p + r;
    assert (q + 1) * p == q * p + p;
    if r != 0 {
      MulStrict(q, top, p);
    } else {
      assert (top + 1) * p == top * p + p;
      MulStrict(q, top + 1, p);
    }
  }
}
