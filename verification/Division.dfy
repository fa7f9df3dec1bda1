/** Division by counting, which keeps products out of sight of the proofs that do not need them. */
module Division {
  function Quotient(n: nat, d: nat): nat { if d == 0 || n < d then 0 else 1 + Quotient(n - d, d) }

  function Remainder(n: nat, d: nat): nat { if d == 0 || n < d then n else Remainder(n - d, d) }

  lemma {:induction false} QuotientIs(n: nat, d: nat)
    requires d > 0
    ensures Quotient(n, d) == n / d && Remainder(n, d) == n % d
    decreases n
  {
    if n >= d {
      QuotientIs(n - d, d);
      assert n == (1 + (n - d) / d) * d + (n - d) % d;
      DivModOf(1 + (n - d) / d, d, (n - d) % d);
    }
  }

  lemma MulMonotone(a: nat, b: nat, d: nat)
    requires a <= b
    ensures a * d <= b * d
  {
    assert b * d == a * d + (b - a) * d;
  }

  lemma DivModOf(q: nat, d: nat, r: nat)
    requires r < d
    ensures (q * d + r) / d == q && (q * d + r) % d == r
  {
    var n := q * d + r;
    if n / d < q { MulMonotone(n / d + 1, q, d); }
    if n / d > q { MulMonotone(q + 1, n / d, d); }
  }
}
