/** floor, computed on the two words of a double. */
module Floor {
  import opened Powers
  import opened Doubles

  /** The result (hi', lo') is the greatest integer not above the value, and keeps the sign when that is zero. */
  ghost predicate IsFloor(hi: int, lo: int, hi': int, lo': int)
    requires IsWord(hi) && IsWord(lo) && IsWord(hi') && IsWord(lo')
  {
    && Finite(hi')
    && (exists q: int :: Value(hi', lo') == q * One())
    && Value(hi', lo') <= Value(hi, lo) < Value(hi', lo') + One()
    && (Value(hi', lo') == 0 ==> Negative(hi') == Negative(hi))
  }

  lemma MultipleUnique(v: int, p: int, q: int, d: int)
    requires d > 0 && p * d <= v < p * d + d && q * d <= v < q * d + d
    ensures p == q
  {
    if p < q {
      Multiples(p + 1, q, d);
    } else if q < p {
      Multiples(q + 1, p, d);
    }
  }

  lemma OnePositive()
    ensures One() > 0
  {
    hide Pow2;
  }

  lemma SignOfValue(hi: int, lo: int)
    requires IsWord(hi) && IsWord(lo)
    ensures Value(hi, lo) > 0 ==> !Negative(hi)
    ensures Value(hi, lo) < 0 ==> Negative(hi)
  {}

  /** There is only one such result. */
  lemma FloorUnique(hi: int, lo: int, hi1: int, lo1: int, hi2: int, lo2: int)
    requires IsWord(hi) && IsWord(lo) && IsWord(hi1) && IsWord(lo1) && IsWord(hi2) && IsWord(lo2)
    requires IsFloor(hi, lo, hi1, lo1) && IsFloor(hi, lo, hi2, lo2)
    ensures hi1 == hi2 && lo1 == lo2
  {
    var p, q :| Value(hi1, lo1) == p * One() && Value(hi2, lo2) == q * One();
    var v, d := Value(hi, lo), One();
    SignOfValue(hi1, lo1);
    SignOfValue(hi2, lo2);
    assert d > 0 by { OnePositive(); }
    MultipleUnique(v, p, q, d);
    EncodingUnique(hi1, lo1, hi2, lo2);
  }

  // Magnitudes.

  lemma PowersOfOne(k: nat)
    requires k <= 52
    ensures BINADE == Pow2(52 - k) * Pow2(k) && One() == Pow2(k) * Pow2(1074 - k)
  {
    Pow2Words();
    Pow2Sum(52 - k, k);
    Pow2Sum(k, 1074 - k);
  }

  /** Without low the magnitude is the greatest multiple of one that is not larger. */
  ghost predicate WholeBelow(m: nat, low: int)
    requires low <= m
  {
    && (exists q: nat :: Magnitude(m - low) == q * One())
    && Magnitude(m - low) <= Magnitude(m) < Magnitude(m - low) + One()
    && (low > 0 ==> Magnitude(m - low) < Magnitude(m))
  }

  lemma LowBits(m: nat, e: nat, f: nat, d: nat, c: nat, u: nat, r: nat)
    requires d > 0 && c > 0 && BINADE == c * d && m == e * BINADE + f && f == u * d + r < BINADE && r < d
    ensures m % d == r <= f && f - r + d <= BINADE && BINADE + f - r == (u + c) * d
  {
    calc {
      m;
      e * (c * d) + (u * d + r);
      (e * c) * d + u * d + r;
      (e * c + u) * d + r;
    }
    DivideUnique(m, e * c + u, d, r);
    if u >= c {
      Multiples(c, u, d);
    }
    Multiples(u + 1, c, d);
    assert (u + 1) * d == u * d + d;
    assert (u + c) * d == u * d + c * d;
  }

  lemma SameBinade(m: nat, e: nat, f: nat, low: nat)
    requires 1 <= e && m == e * BINADE + f && low <= f < BINADE
    ensures Magnitude(m - low) == (BINADE + f - low) * Pow2(e - 1) && Magnitude(m) == (BINADE + f) * Pow2(e - 1)
  {
    DivideUnique(m, e, BINADE, f);
    DivideUnique(m - low, e, BINADE, f - low);
  }

  lemma NextUp(m: nat, e: nat, f: nat, d: nat)
    requires 1 <= e && m == e * BINADE + f && f + d <= BINADE
    ensures Magnitude(m + d) == (BINADE + f + d) * Pow2(e - 1)
  {
    if f + d < BINADE {
      DivideUnique(m + d, e, BINADE, f + d);
    } else {
      DivideUnique(m + d, e + 1, BINADE, 0);
      assert Pow2(e) == 2 * Pow2(e - 1);
      assert BINADE * (2 * Pow2(e - 1)) == (2 * BINADE) * Pow2(e - 1);
    }
  }

  lemma WholeMultiple(s: nat, low: nat, t: nat, d: nat, p: nat)
    requires p > 0 && d > 0 && low < d && s - low == t * d
    ensures (s - low) * p == t * (d * p) && (s - low) * p <= s * p < (s - low) * p + d * p
    ensures low > 0 ==> (s - low) * p < s * p
    ensures (s - low + d) * p == (s - low) * p + d * p
  {
    StrictMultiples(low, d, p);
    assert (s - low) * p + low * p == s * p;
    if low > 0 {
      StrictMultiples(0, low, p);
    }
  }

  lemma WholePartFrom(m: nat, e: nat, f: nat, d: nat, c: nat, p: nat, u: nat, low: nat)
    requires 1 <= e && m == e * BINADE + f && d > 0 && p > 0 && BINADE == c * d && One() == d * p && Pow2(e - 1) == p
    requires f == u * d + low < BINADE && low < d
    ensures m % d == low <= f && WholeBelow(m, low) && Magnitude(m - low + d) == Magnitude(m - low) + One()
  {
    hide Magnitude, Pow2, One;
    LowBits(m, e, f, d, c, u, low);
    SameBinade(m, e, f, low);
    NextUp(m - low, e, f - low, d);
    WholeMultiple(BINADE + f, low, u + c, d, p);
  }

  lemma WholePartOf(m: nat, e: nat, f: nat, d: nat, c: nat, p: nat)
    requires 1 <= e && m == e * BINADE + f && f < BINADE && d > 0 && p > 0 && BINADE == c * d && One() == d * p
             && Pow2(e - 1) == p
    ensures var low := m % d;
            && low <= m && low <= f && WholeBelow(m, low) && Magnitude(m - low + d) == Magnitude(m - low) + One()
  {
    WholePartFrom(m, e, f, d, c, p, f / d, f % d);
  }

  /** With an exponent from 0 to 51, clearing the last bits of the fraction gives the next multiple of one
      below, and adding to the lowest of the other bits, even when that carries into the exponent, the next
      one above. */
  lemma WholePart(m: nat, k: nat)
    requires 1 <= k <= 52 && m / BINADE == 1075 - k
    ensures var low := m % Pow2(k);
            && low <= m && low <= m % BINADE && WholeBelow(m, low)
            && Magnitude(m - low + Pow2(k)) == Magnitude(m - low) + One()
  {
    hide Pow2, Magnitude, WholeBelow, One;
    PowersOfOne(k);
    WholePartOf(m, 1075 - k, m % BINADE, Pow2(k), Pow2(52 - k), Pow2(1074 - k));
  }

  // The results of the three ranges.

  lemma NegatedMultiple(q: int, d: int)
    ensures -(q * d) == (-q) * d && -(q * d + d) == (-q - 1) * d
  {
    assert (-q - 1) * d == (-q) * d - d;
  }

  lemma RoundedValue(neg: bool, part: bool, below: int, mag: int, q: int, d: int) returns (r: int, p: int)
    requires d > 0 && below == q * d && below <= mag < below + d && (part ==> below < mag) && (!part ==> below == mag)
    ensures r == (if !neg then below else if part then -(below + d) else -below) == p * d
    ensures var v := if neg then -mag else mag; r <= v < r + d
  {
    NegatedMultiple(q, d);
    r := if !neg then below else if part then -(below + d) else -below;
    p := if !neg then q else if part then -q - 1 else -q;
  }

  lemma SignedMagnitude(hi: int, lo: int)
    requires IsWord(hi) && IsWord(lo)
    ensures Value(hi, lo) == if Negative(hi) then -(Magnitude(Encoded(hi, lo)) as int) else Magnitude(Encoded(hi, lo))
  {}

  lemma WholeWitness(m: nat, low: int)
    requires low <= m && WholeBelow(m, low)
    ensures exists q: nat :: Magnitude(m - low) == q * One()
  {
    hide Magnitude, One;
  }

  lemma RoundedFromParts(hi: int, lo: int, hi': int, lo': int, m: nat, low: int, d: int)
    requires IsWord(hi) && IsWord(lo) && IsWord(hi') && IsWord(lo') && Negative(hi') == Negative(hi) && Finite(hi')
    requires m == Encoded(hi, lo) && 0 <= low <= m && d > 0 && WholeBelow(m, low)
    requires Magnitude(m - low + d) == Magnitude(m - low) + One()
    requires Encoded(hi', lo') == m - low + (if Negative(hi) && low > 0 then d else 0)
    ensures IsFloor(hi, lo, hi', lo')
  {
    hide Magnitude, Pow2, One, Encoded, Finite, Value;
    OnePositive();
    WholeWitness(m, low);
    SignedMagnitude(hi, lo);
    SignedMagnitude(hi', lo');
    var q: nat :| Magnitude(m - low) == q * One();
    var r, p := RoundedValue(Negative(hi), low > 0, Magnitude(m - low), Magnitude(m), q, One());
    assert Value(hi', lo') == r;
  }

  /** Exponents from 0 to 51: towards zero for a positive value, away from it for a negative one. */
  lemma RoundedIsFloor(hi: int, lo: int, hi': int, lo': int, k: nat)
    requires IsWord(hi) && IsWord(lo) && IsWord(hi') && IsWord(lo') && Negative(hi') == Negative(hi) && Finite(hi')
    requires 1 <= k <= 52 && Encoded(hi, lo) / BINADE == 1075 - k
    requires var m := Encoded(hi, lo);
             var low := m % Pow2(k);
             Encoded(hi', lo') == m - low + (if Negative(hi) && low > 0 then Pow2(k) else 0)
    ensures IsFloor(hi, lo, hi', lo')
  {
    hide IsFloor, WholeBelow, Magnitude, One, Pow2, Finite, Negative;
    WholePart(Encoded(hi, lo), k);
    RoundedFromParts(hi, lo, hi', lo', Encoded(hi, lo), Encoded(hi, lo) % Pow2(k), Pow2(k));
  }

  lemma OneMagnitude()
    ensures Magnitude(1023 * BINADE) == One() && Magnitude(0) == 0
  {
    Pow2Words();
    Pow2Sum(52, 1022);
    DivideUnique(1023 * BINADE, 1023, BINADE, 0);
  }

  /** Below exponent 0 the magnitude is less than one. */
  lemma SmallMagnitude(m: nat)
    requires m / BINADE < 1023
    ensures Magnitude(m) < One() && (m > 0 ==> Magnitude(m) > 0)
    ensures Magnitude(1023 * BINADE) == One() && Magnitude(0) == 0
  {
    OneMagnitude();
    MagnitudeGrows(m, 1023 * BINADE);
    if m > 0 {
      MagnitudeGrows(0, m);
    }
  }

  lemma SmallIsFloor(hi: int, lo: int, hi': int, lo': int)
    requires IsWord(hi) && IsWord(lo) && IsWord(hi') && IsWord(lo') && Encoded(hi, lo) / BINADE < 1023
    requires if !Negative(hi) then hi' == 0 == lo'
             else if Encoded(hi, lo) != 0 then hi' == 0xbff0_0000 && lo' == 0 else hi' == hi && lo' == lo
    ensures IsFloor(hi, lo, hi', lo')
  {
    SmallMagnitude(Encoded(hi, lo));
    OnePositive();
    if !Negative(hi) || Encoded(hi, lo) == 0 {
      assert Value(hi', lo') == 0 * One();
    } else {
      assert Encoded(hi', lo') == 1023 * BINADE;
      assert Value(hi', lo') == (-1) * One();
    }
  }

  lemma Reordered(a: int, b: int, c: int)
    ensures a * (b * c) == (a * c) * b
  {}

  /** From exponent 52 on every value is an integer. */
  lemma LargeIsFloor(hi: int, lo: int)
    requires IsWord(hi) && IsWord(lo) && 1075 <= Encoded(hi, lo) / BINADE < 2047
    ensures IsFloor(hi, lo, hi, lo)
  {
    var m := Encoded(hi, lo);
    var e, f := m / BINADE, m % BINADE;
    ExponentField(hi, lo);
    OnePositive();
    Pow2Sum(1074, e - 1075);
    var q := (BINADE + f) * Pow2(e - 1075);
    assert Magnitude(m) == (BINADE + f) * Pow2(e - 1);
    Reordered(BINADE + f, One(), Pow2(e - 1075));
    assert Magnitude(m) == q * One();
    NegatedMultiple(q, One());
    assert Value(hi, lo) == (if Negative(hi) then -q else q) * One();
  }

  // The words in the three ranges.

  /** The last n bits. */
  ghost function Low(x: int, n: nat): int {
    x % Pow2(n)
  }

  lemma RemainderBounds(x: int, d: int)
    requires x >= 0 && d > 0
    ensures 0 <= x % d <= x && x % d < d
  {}

  lemma LowBounds(x: int, n: nat)
    requires x >= 0
    ensures 0 <= Low(x, n) <= x && Low(x, n) < Pow2(n)
  {
    hide Pow2;
    RemainderBounds(x, Pow2(n));
  }

  /** What a shift or mask sees of the high word below the sign. */
  function Unsigned(hi: int): int {
    if Negative(hi) then hi - 0x8000_0000 else hi
  }

  lemma Associate(a: int, b: int, c: int)
    ensures a * (b * c) == (a * b) * c
  {}

  lemma SumRemainder(x: int, c: int, d: int, u: int, r: int)
    requires d > 0 && x == u * d + r && 0 <= r < d
    ensures (c * d + x) % d == r
  {
    assert c * d + x == (c + u) * d + r;
    DivideUnique(c * d + x, c + u, d, r);
  }

  lemma ModuloSum(x: int, c: int, d: int)
    requires d > 0
    ensures (c * d + x) % d == x % d
  {
    SumRemainder(x, c, d, x / d, x % d);
  }

  lemma UnsignedLow(hi: int, n: nat)
    requires IsWord(hi) && n <= 31
    ensures Unsigned(hi) % Pow2(n) == Low(hi, n)
  {
    Pow2Words();
    Pow2Sum(31 - n, n);
    var h := Unsigned(hi);
    if Negative(hi) {
      ModuloSum(h, Pow2(31 - n), Pow2(n));
    }
  }

  lemma HighRemainder(h: int, u: int, d: int, r: int, lo: int)
    requires d > 0 && h == u * d + r && 0 <= r < d && IsWord(lo)
    ensures (h * WORD + lo) % (d * WORD) == r * WORD + lo
  {
    assert h * WORD == u * (d * WORD) + r * WORD;
    DivideUnique(h * WORD + lo, u, d * WORD, r * WORD + lo);
  }

  lemma HighModulo(h: int, d: int, lo: int)
    requires d > 0 && IsWord(lo)
    ensures (h * WORD + lo) % (d * WORD) == (h % d) * WORD + lo
  {
    HighRemainder(h, h / d, d, h % d, lo);
  }

  /** With at least 32 bits to clear the low word goes, with n bits of the high word. */
  lemma HighBits(hi: int, lo: int, n: nat)
    requires IsWord(hi) && IsWord(lo) && n <= 31
    ensures Encoded(hi, lo) % Pow2(n + 32) == Low(hi, n) * WORD + lo && Pow2(n + 32) == Pow2(n) * WORD
  {
    Pow2Words();
    Pow2Sum(n, 32);
    UnsignedLow(hi, n);
    var h := Unsigned(hi);
    HighModulo(h, Pow2(n), lo);
  }

  /** With at most 32 bits to clear they are all in the low word. */
  lemma LowWordBits(hi: int, lo: int, k: nat)
    requires IsWord(hi) && IsWord(lo) && k <= 32
    ensures Encoded(hi, lo) % Pow2(k) == Low(lo, k)
  {
    Pow2Words();
    Pow2Sum(32 - k, k);
    var h := Unsigned(hi);
    Associate(h, Pow2(32 - k), Pow2(k));
    ModuloSum(lo, h * Pow2(32 - k), Pow2(k));
  }

  // The guards.

  function Ten(n: nat): (t: nat)
    ensures t > 0
  {
    if n == 0 then 1 else 10 * Ten(n - 1)
  }

  /** The comparison huge + x > 0.0, with huge ten to the power 300; rounding the sum keeps its sign. */
  predicate HugeSum(hi: int, lo: int)
    requires IsWord(hi) && IsWord(lo)
  {
    Ten(300) * One() + Value(hi, lo) > 0
  }

  lemma {:induction false} TenGrows(m: nat, n: nat)
    requires m <= n
    ensures Ten(m) <= Ten(n)
    decreases n
  {
    if m < n {
      TenGrows(m, n - 1);
    }
  }

  /** They hold wherever they are evaluated. */
  lemma HugeHolds(hi: int, lo: int)
    requires IsWord(hi) && IsWord(lo) && Encoded(hi, lo) / BINADE <= 1074
    ensures HugeSum(hi, lo)
  {
    MagnitudeGrows(Encoded(hi, lo), 1075 * BINADE);
    DivideUnique(1075 * BINADE, 1075, BINADE, 0);
    assert Magnitude(1075 * BINADE) == BINADE * One();
    assert Ten(8) == 1_0000_0000;
    assert Ten(16) == 1_0000_0000_0000_0000;
    TenGrows(16, 300);
    OnePositive();
    Multiples(BINADE, Ten(300), One());
  }

  // The code.

  /** The sum x + x for an infinity or a NaN: an infinity stays, a NaN becomes quiet. */
  function Doubled(hi: int, lo: int): (r: (int, int))
    requires IsWord(hi) && IsWord(lo)
    ensures IsWord(r.0) && IsWord(r.1)
  {
    if hi % 0x10_0000 == 0 && lo == 0 then (hi, lo)
    else if hi / 0x8_0000 % 2 == 1 then (hi, lo) else (if hi + 0x8_0000 < WORD then hi + 0x8_0000 else hi, lo)
  }

  /** The exponent of all ones, with a fraction. */
  predicate IsNaN(hi: int, lo: int) {
    hi / 0x10_0000 % 2048 == 2047 && (hi % 0x10_0000 != 0 || lo != 0)
  }

  /** An infinity stays.  A NaN becomes the quiet one with the same sign and otherwise the same bits. */
  lemma DoubledKeeps(hi: int, lo: int)
    requires IsWord(hi) && IsWord(lo)
    ensures var r := Doubled(hi, lo);
            if Finite(hi) then
              !IsNaN(hi, lo) && hi != 0x7ff0_0000 && hi != 0xfff0_0000
            else if IsNaN(hi, lo) then
              && IsNaN(r.0, r.1) && r.0 % 0x10_0000 >= 0x8_0000
              && r.0 / 0x10_0000 == hi / 0x10_0000 && r.0 % 0x8_0000 == hi % 0x8_0000 && r.1 == lo
            else (hi == 0x7ff0_0000 || hi == 0xfff0_0000) && lo == 0 && r == (hi, lo)
  {}

  lemma ExponentBits(hi: int, lo: int)
    requires IsWord(hi) && IsWord(lo)
    ensures And(ShiftRight(hi, 20), 0x7ff) == Encoded(hi, lo) / BINADE
    ensures Finite(hi) <==> Encoded(hi, lo) / BINADE != 2047
  {
    Pow2Words();
    ShiftDivides(hi, 20);
    assert Pow2(11) == 2048;
    AndMask(hi / 0x10_0000, 11);
    ExponentField(hi, lo);
  }

  lemma AndUnsigned(hi: int)
    requires IsWord(hi)
    ensures And(hi, 0x7fff_ffff) == Unsigned(hi)
  {
    Pow2Words();
    AndMask(hi, 31);
    DivideUnique(hi, if Negative(hi) then 1 else 0, Pow2(31), Unsigned(hi));
  }

  // The results of clearing bits, in terms of the words.

  lemma PowerAtMost(n: nat)
    requires n <= 20
    ensures 1 <= Pow2(n) <= 0x10_0000
  {
    Pow2Words();
    Pow2Grows(n, 20);
  }

  /** The result is finite. */
  lemma SmallExponent(hi: int, lo: int, hi': int, lo': int, k: nat)
    requires IsWord(hi) && IsWord(lo) && IsWord(hi') && IsWord(lo') && 1 <= k <= 52
             && Encoded(hi, lo) / BINADE == 1075 - k
    requires Encoded(hi', lo') <= Encoded(hi, lo) + BINADE
    ensures Finite(hi')
  {
    ExponentField(hi', lo');
  }

  lemma HighClearedBy(hi: int, lo: int, d: int, r: int, hi': int, n: nat)
    requires IsWord(hi) && IsWord(lo) && 1 <= n <= 20 && Encoded(hi, lo) / BINADE == 1043 - n
    requires d == Pow2(n) && r == hi % d && Encoded(hi, lo) % Pow2(n + 32) == r * WORD + lo && Pow2(n + 32) == d * WORD
    requires hi' == hi - r + (if Negative(hi) && (r > 0 || lo > 0) then d else 0)
    ensures IsWord(hi') && IsFloor(hi, lo, hi', 0)
  {
    hide IsFloor, Pow2, Finite;
    PowerAtMost(n);
    UnsignedLow(hi, n);
    RemainderBounds(Unsigned(hi), d);
    ExponentField(hi, lo);
    SmallExponent(hi, lo, hi', 0, n + 32);
    RoundedIsFloor(hi, lo, hi', 0, n + 32);
  }

  lemma HighCleared(hi: int, lo: int, n: nat, hi': int)
    requires IsWord(hi) && IsWord(lo) && 1 <= n <= 20 && Encoded(hi, lo) / BINADE == 1043 - n
    requires hi' == hi - Low(hi, n) + (if Negative(hi) && (Low(hi, n) > 0 || lo > 0) then Pow2(n) else 0)
    ensures IsWord(hi') && IsFloor(hi, lo, hi', 0)
  {
    hide IsFloor, Pow2, Finite;
    HighBits(hi, lo, n);
    HighClearedBy(hi, lo, Pow2(n), Low(hi, n), hi', n);
  }

  lemma WordAtMost(k: nat)
    requires k <= 32
    ensures 1 <= Pow2(k) <= WORD
  {
    Pow2Words();
    Pow2Grows(k, 32);
  }

  /** The encoding with a new low word, and the carry out of it. */
  lemma CarryEncoded(hi: int, lo: int, hi': int, lo': int, next: int)
    requires IsWord(hi) && IsWord(lo) && 0 <= next < 2 * WORD && Encoded(hi, lo) / BINADE <= 1074
    requires if next < WORD then hi' == hi && lo' == next else hi' == (hi + 1) % WORD && lo' == next - WORD
    ensures IsWord(hi') && IsWord(lo') && Negative(hi') == Negative(hi)
    ensures Encoded(hi', lo') == Encoded(hi, lo) - lo + next
  {}

  lemma LowClearedBy(hi: int, lo: int, k: nat, d: int, r: int, hi': int, lo': int)
    requires IsWord(hi) && IsWord(lo) && 1 <= k <= 32 && Encoded(hi, lo) / BINADE == 1075 - k
    requires d == Pow2(k) && r == lo % d == Encoded(hi, lo) % Pow2(k)
    requires var next := lo - r + (if Negative(hi) && r > 0 then d else 0);
             if next < WORD then hi' == hi && lo' == next else hi' == (hi + 1) % WORD && lo' == next - WORD
    ensures IsWord(hi') && IsWord(lo') && IsFloor(hi, lo, hi', lo')
  {
    hide IsFloor, Pow2, Finite, Encoded;
    WordAtMost(k);
    RemainderBounds(lo, d);
    CarryEncoded(hi, lo, hi', lo', lo - r + (if Negative(hi) && r > 0 then d else 0));
    SmallExponent(hi, lo, hi', lo', k);
    RoundedIsFloor(hi, lo, hi', lo', k);
  }

  /** The low word cleared, with the carry that a negative value may have. */
  lemma LowCleared(hi: int, lo: int, k: nat, hi': int, lo': int)
    requires IsWord(hi) && IsWord(lo) && 1 <= k <= 32 && Encoded(hi, lo) / BINADE == 1075 - k
    requires var next := lo - Low(lo, k) + (if Negative(hi) && Low(lo, k) > 0 then Pow2(k) else 0);
             if next < WORD then hi' == hi && lo' == next else hi' == (hi + 1) % WORD && lo' == next - WORD
    ensures IsWord(hi') && IsWord(lo') && IsFloor(hi, lo, hi', lo')
  {
    hide IsFloor, Pow2, Finite;
    LowWordBits(hi, lo, k);
    LowClearedBy(hi, lo, k, Pow2(k), Low(lo, k), hi', lo');
  }

  // The code.

  /** Exponents below 0. */
  method FloorSmall(hi: int, lo: int) returns (i0: int, i1: int)
    requires IsWord(hi) && IsWord(lo) && Encoded(hi, lo) / BINADE < 1023
    ensures IsWord(i0) && IsWord(i1) && IsFloor(hi, lo, i0, i1)
  {
    HugeHolds(hi, lo);
    i0, i1 := hi, lo;
    if HugeSum(hi, lo) {
      if !Negative(i0) {
        i0, i1 := 0, 0;
      } else {
        OrZero(And(i0, 0x7fff_ffff), i1);
        AndUnsigned(i0);
        if Or(And(i0, 0x7fff_ffff), i1) != 0 {
          i0, i1 := 0xbff0_0000, 0;
        }
      }
    }
    SmallIsFloor(hi, lo, i0, i1);
  }

  lemma AndLow(x: int, n: nat)
    requires IsWord(x) && n <= 32
    ensures 1 <= Pow2(n) <= WORD && And(x, Pow2(n) - 1) == Low(x, n) && And(x, Not(Pow2(n) - 1)) == x - Low(x, n)
    ensures 0 <= Low(x, n) <= x && Low(x, n) < Pow2(n)
  {
    hide And, Pow2;
    Pow2Words();
    WordAtMost(n);
    AndMask(x, n);
    AndOthers(x, 32, n);
    LowBounds(x, n);
  }

  /** The masks and steps for n bits of the high word. */
  lemma HighShifts(n: nat)
    requires n <= 20
    ensures ShiftRight(0xf_ffff, 20 - n) == Pow2(n) - 1 && ShiftRight(0x10_0000, 20 - n) == Pow2(n)
            && 1 <= Pow2(n) <= 0x10_0000
  {
    hide Pow2, ShiftRight;
    Pow2Words();
    ShiftMask(20, 20 - n);
    PowerAtMost(n);
  }

  /** Adding one in the last place that stays does not change what is cleared. */
  lemma StepLow(x: int, n: nat)
    ensures Low(x + Pow2(n), n) == Low(x, n)
  {
    hide Pow2;
    ModuloSum(x, 1, Pow2(n));
  }

  /** Exponents from 0 to 19. */
  method FloorHigh(hi: int, lo: int, j0: int) returns (i0: int, i1: int)
    requires IsWord(hi) && IsWord(lo) && 0 <= j0 < 20 && Encoded(hi, lo) / BINADE == 1023 + j0
    ensures IsWord(i0) && IsWord(i1) && IsFloor(hi, lo, i0, i1)
  {
    hide IsFloor, HugeSum, And, Or, ShiftRight, Pow2, Not, Low;
    ghost var n := 20 - j0;
    HugeHolds(hi, lo);
    HighShifts(n);
    AndLow(hi, n);
    i0, i1 := hi, lo;
    var i := ShiftRight(0xf_ffff, j0);
    OrZero(And(i0, i), i1);
    if Or(And(i0, i), i1) == 0 {
      HighCleared(hi, lo, n, hi);
      return;
    }
    if HugeSum(hi, lo) {
      if Negative(i0) {
        ExponentField(hi, lo);
        StepLow(hi, n);
        i0 := (i0 + ShiftRight(0x10_0000, j0)) % WORD;
        AndLow(i0, n);
      }
      i0, i1 := And(i0, Not(i)), 0;
    }
    HighCleared(hi, lo, n, i0);
  }

  /** The masks for k bits of the low word. */
  lemma LowShift(k: nat)
    requires k <= 32
    ensures ShiftRight(0xffff_ffff, 32 - k) == Pow2(k) - 1
  {
    hide Pow2, ShiftRight;
    Pow2Words();
    ShiftMask(32, 32 - k);
  }

  lemma WholeWordLow(x: int, k: nat)
    requires k <= 32
    ensures Low(x + WORD, k) == Low(x, k)
  {
    hide Pow2;
    Pow2Words();
    Pow2Sum(32 - k, k);
    ModuloSum(x, Pow2(32 - k), Pow2(k));
  }

  /** The low word after the addition, which may wrap around, has the same last bits. */
  lemma WrapLow(lo: int, k: nat, j: int)
    requires IsWord(lo) && k <= 31 && j == (lo + Pow2(k)) % WORD
    ensures Low(j, k) == Low(lo, k) && 1 <= Pow2(k) <= 0x8000_0000
    ensures j == if j < lo then lo + Pow2(k) - WORD else lo + Pow2(k)
  {
    hide Pow2, Low;
    Pow2Words();
    Pow2Grows(k, 31);
    StepLow(lo, k);
    if lo + Pow2(k) >= WORD {
      WholeWordLow(j, k);
    }
  }

  /** All bits of a word. */
  lemma WholeLow(x: int)
    requires IsWord(x)
    ensures Low(x, 32) == x && Pow2(32) == WORD
  {
    hide Pow2;
    Pow2Words();
    DivideUnique(x, 0, Pow2(32), x);
  }

  /** Exponents from 20 to 51. */
  method FloorLow(hi: int, lo: int, j0: int) returns (i0: int, i1: int)
    requires IsWord(hi) && IsWord(lo) && 20 <= j0 <= 51 && Encoded(hi, lo) / BINADE == 1023 + j0
    ensures IsWord(i0) && IsWord(i1) && IsFloor(hi, lo, i0, i1)
  {
    hide IsFloor, HugeSum, And, ShiftRight, Pow2, Not, Low;
    ghost var k := 52 - j0;
    HugeHolds(hi, lo);
    LowShift(k);
    AndLow(lo, k);
    i0, i1 := hi, lo;
    var i := ShiftRight(0xffff_ffff, j0 - 20);
    if And(i1, i) == 0 {
      LowCleared(hi, lo, k, hi, lo);
      return;
    }
    if HugeSum(hi, lo) {
      if Negative(i0) {
        if j0 == 20 {
          WholeLow(lo);
          i0 := (i0 + 1) % WORD;
        } else {
          var j := (i1 + Pow2(52 - j0)) % WORD;
          WrapLow(lo, k, j);
          if j < i1 {
            i0 := (i0 + 1) % WORD;
          }
          i1 := j;
          AndLow(j, k);
        }
      }
      i1 := And(i1, Not(i));
    }
    LowCleared(hi, lo, k, i0, i1);
  }

  /** floor.  A finite value becomes the greatest integer that is not larger; an infinity stays. */
  method Floor(hi: int, lo: int) returns (i0: int, i1: int)
    requires IsWord(hi) && IsWord(lo)
    ensures IsWord(i0) && IsWord(i1)
    ensures Finite(hi) ==> IsFloor(hi, lo, i0, i1)
    ensures !Finite(hi) ==> (i0, i1) == Doubled(hi, lo)
    ensures (hi == 0x7ff0_0000 || hi == 0xfff0_0000) && lo == 0 ==> i0 == hi && i1 == lo
    ensures IsNaN(hi, lo) ==> IsNaN(i0, i1) && i0 % 0x10_0000 >= 0x8_0000
                              && i0 / 0x10_0000 == hi / 0x10_0000 && i0 % 0x8_0000 == hi % 0x8_0000 && i1 == lo
  {
    hide IsFloor, And, ShiftRight, Doubled, Finite;
    ExponentBits(hi, lo);
    DoubledKeeps(hi, lo);
    var j0 := And(ShiftRight(hi, 20), 0x7ff) - 0x3ff;
    if j0 < 20 {
      if j0 < 0 {
        i0, i1 := FloorSmall(hi, lo);
      } else {
        i0, i1 := FloorHigh(hi, lo, j0);
      }
    } else if j0 > 51 {
      if j0 == 0x400 {
        return Doubled(hi, lo).0, Doubled(hi, lo).1;
      }
      LargeIsFloor(hi, lo);
      return hi, lo;
    } else {
      i0, i1 := FloorLow(hi, lo, j0);
    }
  }
}
