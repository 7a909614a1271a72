/** Powers of two, and division. */
module Powers {

  function Pow2(n: nat): (p: nat)
    ensures p > 0
  {
    if n == 0 then 1 else 2 * Pow2(n - 1)
  }

  lemma {:induction false} Pow2Grows(m: nat, n: nat)
    requires m <= n
    ensures Pow2(m) <= Pow2(n)
    decreases n
  {
    if m < n {
      Pow2Grows(m, n - 1);
    }
  }

  lemma {:induction false} Pow2Sum(m: nat, n: nat)
    ensures Pow2(m + n) == Pow2(m) * Pow2(n)
    decreases n
  {
    if n > 0 {
      Pow2Sum(m, n - 1);
      assert Pow2(m + n) == 2 * Pow2(m + n - 1);
      assert Pow2(m) * (2 * Pow2(n - 1)) == 2 * (Pow2(m) * Pow2(n - 1));
    }
  }

  lemma Pow2Words()
    ensures Pow2(8) == 256 && Pow2(20) == 0x10_0000 && Pow2(31) == 0x8000_0000 && Pow2(32) == 0x1_0000_0000
    ensures Pow2(52) == 0x10_0000_0000_0000
  {
    assert Pow2(8) == 256;
    assert Pow2(16) == 65536;
    assert Pow2(20) == 0x10_0000;
    assert Pow2(26) == 0x400_0000;
    Pow2Sum(20, 11);
    Pow2Sum(16, 16);
    Pow2Sum(26, 26);
    assert Pow2(11) == 2048;
  }

  lemma Multiples(m: int, n: int, d: int)
    requires m <= n && d > 0
    ensures m * d <= n * d
  {}

  /** Quotient and remainder are unique. */
  lemma DivideUnique(x: int, q: int, d: int, r: int)
    requires d > 0 && x == q * d + r && 0 <= r < d
    ensures x / d == q && x % d == r
  {
    var q' := x / d;
    assert (q - q') * d == x % d - r;
    if q > q' {
      Multiples(1, q - q', d);
    } else if q < q' {
      Multiples(q - q', -1, d);
    }
  }
}
