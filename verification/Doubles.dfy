/** Doubles as two words, and the operations of C on words. */
module Doubles {
  import opened Powers

  const WORD: int := 0x1_0000_0000

  /** The weight of the exponent in the magnitude: two to the power 52. */
  const BINADE: int := 0x10_0000_0000_0000

  predicate IsWord(x: int) {
    0 <= x < WORD
  }

  // Words.

  function And(x: nat, y: nat): nat
    decreases x
  {
    if x == 0 || y == 0 then 0 else 2 * And(x / 2, y / 2) + (if x % 2 == 1 && y % 2 == 1 then 1 else 0)
  }

  function Or(x: nat, y: nat): nat
    decreases x + y
  {
    if x == 0 && y == 0 then 0 else 2 * Or(x / 2, y / 2) + (if x % 2 == 1 || y % 2 == 1 then 1 else 0)
  }

  function Not(x: int): (r: int)
    ensures IsWord(x) ==> IsWord(r)
  {
    WORD - 1 - x
  }

  function ShiftRight(x: nat, n: nat): nat
    decreases n
  {
    if n == 0 then x else ShiftRight(x / 2, n - 1)
  }

  /** The sign bit. */
  predicate Negative(x: int) {
    x >= 0x8000_0000
  }

  lemma Halves(x: nat, m: nat)
    requires m > 0
    ensures x % (2 * m) == 2 * (x / 2 % m) + x % 2 && x / (2 * m) == x / 2 / m
  {
    var h := x / 2;
    assert x == (h / m) * (2 * m) + (2 * (h % m) + x % 2);
    DivideUnique(x, h / m, 2 * m, 2 * (h % m) + x % 2);
  }

  lemma AndStep(x: nat, y: nat)
    ensures And(x, y) == 2 * And(x / 2, y / 2) + (if x % 2 == 1 && y % 2 == 1 then 1 else 0)
  {
    if x == 0 || y == 0 {
      assert And(x / 2, y / 2) == 0;
    }
  }

  lemma AndMaskStep(x: nat, m: nat)
    requires m > 0 && And(x / 2, m - 1) == x / 2 % m
    ensures And(x, 2 * m - 1) == x % (2 * m)
  {
    hide And;
    AndStep(x, 2 * m - 1);
    Halves(x, m);
  }

  /** A mask of ones keeps the last bits. */
  lemma {:induction false} AndMask(x: nat, n: nat)
    ensures And(x, Pow2(n) - 1) == x % Pow2(n)
    decreases n
  {
    if n > 0 {
      AndMask(x / 2, n - 1);
      AndMaskStep(x, Pow2(n - 1));
    }
  }

  /** The mask of the other bits clears them. */
  lemma {:induction false} AndOthers(x: nat, w: nat, n: nat)
    requires n <= w && x < Pow2(w)
    ensures Pow2(n) <= Pow2(w) && And(x, Pow2(w) - Pow2(n)) == x - x % Pow2(n)
    decreases n
  {
    hide And;
    Pow2Grows(n, w);
    if n == 0 {
      AndMask(x, w);
      DivideUnique(x, 0, Pow2(w), x);
    } else {
      var m, v := Pow2(n - 1), Pow2(w - 1);
      AndOthers(x / 2, w - 1, n - 1);
      AndStep(x, 2 * v - 2 * m);
      Halves(x, m);
    }
  }

  lemma {:induction false} OrZero(x: nat, y: nat)
    ensures Or(x, y) == 0 <==> x == 0 && y == 0
    decreases x + y
  {
    if x > 0 || y > 0 {
      OrZero(x / 2, y / 2);
    }
  }

  /** A mask of ones, shifted, is a shorter one. */
  lemma {:induction false} ShiftMask(w: nat, n: nat)
    requires n <= w
    ensures ShiftRight(Pow2(w) - 1, n) == Pow2(w - n) - 1 && ShiftRight(Pow2(w), n) == Pow2(w - n)
    decreases n
  {
    if n > 0 {
      ShiftMask(w - 1, n - 1);
    }
  }

  lemma {:induction false} ShiftDivides(x: nat, n: nat)
    ensures ShiftRight(x, n) == x / Pow2(n)
    decreases n
  {
    if n > 0 {
      ShiftDivides(x / 2, n - 1);
      Halves(x, Pow2(n - 1));
    }
  }

  // Values.

  /** The encoding without the sign bit. */
  function Encoded(hi: int, lo: int): (m: int)
    requires IsWord(hi) && IsWord(lo)
    ensures 0 <= m < 2048 * BINADE
  {
    (if Negative(hi) then hi - 0x8000_0000 else hi) * WORD + lo
  }

  /** Neither an infinity nor a NaN. */
  predicate Finite(hi: int) {
    hi / 0x10_0000 % 2048 != 2047
  }

  /** The magnitude, in units of two to the power -1074, by its encoding: the fraction, with a hidden bit
      unless the exponent is the least, times a power of two. */
  function Magnitude(m: nat): (v: nat)
  {
    var e, f := m / BINADE, m % BINADE;
    if e == 0 then f else (BINADE + f) * Pow2(e - 1)
  }

  /** The value in the same units. */
  function Value(hi: int, lo: int): int
    requires IsWord(hi) && IsWord(lo)
  {
    var m: int := Magnitude(Encoded(hi, lo));
    if Negative(hi) then -m else m
  }

  /** The number 1. */
  function One(): int {
    Pow2(1074)
  }

  lemma ExponentField(hi: int, lo: int)
    requires IsWord(hi) && IsWord(lo)
    ensures Encoded(hi, lo) / BINADE == hi / 0x10_0000 % 2048
  {
    var h := if Negative(hi) then hi - 0x8000_0000 else hi;
    DivideUnique(Encoded(hi, lo), h / 0x10_0000, BINADE, (h % 0x10_0000) * WORD + lo);
  }

  lemma StrictMultiples(m: int, n: int, d: int)
    requires m < n && d > 0
    ensures m * d < n * d
  {}

  /** A larger encoding has a larger magnitude. */
  lemma MagnitudeGrows(m: nat, n: nat)
    requires m < n
    ensures Magnitude(m) < Magnitude(n)
  {
    var e, f, e', f' := m / BINADE, m % BINADE, n / BINADE, n % BINADE;
    assert e <= e' && (e == e' ==> f < f');
    if e == e' {
      if e > 0 { StrictMultiples(BINADE + f, BINADE + f', Pow2(e - 1)); }
    } else if e == 0 {
      Multiples(1, Pow2(e' - 1), BINADE + f');
    } else {
      Pow2Grows(e, e' - 1);
      assert Pow2(e) == 2 * Pow2(e - 1);
      StrictMultiples(BINADE + f, 2 * BINADE, Pow2(e - 1));
      Multiples(Pow2(e), Pow2(e' - 1), BINADE);
      Multiples(BINADE, BINADE + f', Pow2(e' - 1));
      assert (2 * BINADE) * Pow2(e - 1) == Pow2(e) * BINADE;
    }
  }

  /** A value and its sign determine the encoding. */
  lemma EncodingUnique(hi: int, lo: int, hi': int, lo': int)
    requires IsWord(hi) && IsWord(lo) && IsWord(hi') && IsWord(lo')
    requires Value(hi, lo) == Value(hi', lo') && Negative(hi) == Negative(hi')
    ensures hi == hi' && lo == lo'
  {
    var m, n := Encoded(hi, lo), Encoded(hi', lo');
    if m < n {
      MagnitudeGrows(m, n);
    } else if n < m {
      MagnitudeGrows(n, m);
    }
  }
}
