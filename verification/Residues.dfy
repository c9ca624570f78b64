/** Quotients and remainders. */
module Residues {

  lemma Multiples(d: int, n: int)
    requires n > 0
    ensures d >= 1 ==> d * n >= n
    ensures d <= -1 ==> d * n <= -n
    ensures d == 0 ==> d * n == 0
  {
  }

  /** Quotient and remainder are unique. */
  lemma {:induction false} Unique(p: int, n: int, q: int, r: int)
    requires n > 0 && 0 <= r < n && p == q * n + r
    ensures p / n == q && p % n == r
  {
    var d := p / n - q;
    assert d * n == r - p % n;
    Multiples(d, n);
  }

  lemma {:induction false} NextLap(p: nat, n: nat)
    requires n > 0
    ensures (p + n) % n == p % n
  {
    Unique(p + n, n, p / n + 1, p % n);
  }

  /** Two numbers with the same remainder are equal or at least `n` apart. */
  lemma {:induction false} SameResidue(p: nat, q: nat, n: nat)
    requires n > 0 && p % n == q % n && p < q
    ensures p + n <= q
  {
    var d := q / n - p / n;
    assert q - p == d * n;
    Multiples(d, n);
  }

  lemma {:induction false} NextTicket(p: nat, n: nat)
    requires n >= 2
    ensures (p + 1) % n != p % n
  {
    if (p + 1) % n == p % n {
      SameResidue(p, p + 1, n);
    }
  }

  lemma SmallResidue(p: nat, n: nat)
    requires p < n
    ensures p % n == p
  {
  }
}
