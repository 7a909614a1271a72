/** The order in which rule L2 shows a line, told without reversals: of two characters the one in front is
    shown first exactly when the lowest level from the one to the other is even. */
module BidiOrder {
  import opened BidiClasses
  import opened BidiReorder

  function LowestFrom(g: seq<Glyph>, i: int, j: int): (m: int)
    requires 0 <= i <= j < |g|
    ensures forall x :: i <= x <= j ==> m <= g[x].level
    ensures exists x :: i <= x <= j && m == g[x].level
    decreases j - i
  {
    if i == j then g[i].level else
      var m := LowestFrom(g, i + 1, j);
      if m <= g[i].level then m else g[i].level
  }

  /** The lowest level from one of two positions to the other. */
  function Lowest(g: seq<Glyph>, i: int, j: int): int
    requires 0 <= i < |g| && 0 <= j < |g|
  {
    if i <= j then LowestFrom(g, i, j) else LowestFrom(g, j, i)
  }

  /** From one of two positions to the other, all levels are at least k. */
  predicate Together(k: int, g: seq<Glyph>, i: int, j: int)
    requires 0 <= i < |g| && 0 <= j < |g|
  {
    forall x :: 0 <= x < |g| && (i <= x <= j || j <= x <= i) ==> g[x].level >= k
  }

  lemma LowestTogether(k: int, g: seq<Glyph>, i: int, j: int)
    requires 0 <= i < |g| && 0 <= j < |g|
    ensures Together(k, g, i, j) <==> Lowest(g, i, j) >= k
  {}

  lemma LowestSymmetric(g: seq<Glyph>, i: int, j: int)
    requires 0 <= i < |g| && 0 <= j < |g|
    ensures Lowest(g, i, j) == Lowest(g, j, i)
  {}

  lemma TogetherJoin(k: int, g: seq<Glyph>, i: int, j: int, x: int)
    requires 0 <= i < |g| && 0 <= j < |g| && 0 <= x < |g| && Together(k, g, i, x) && Together(k, g, x, j)
    ensures Together(k, g, i, j) && Together(k, g, x, i)
  {}

  /** r shows the elements of g, and p says which one stands at every place. */
  predicate Arranged(g: seq<Glyph>, r: seq<Glyph>, p: seq<int>) {
    && |r| == |p| == |g|
    && (forall q :: 0 <= q < |p| ==> 0 <= p[q] < |g| && r[q] == g[p[q]])
    && (forall q, q' :: 0 <= q < q' < |p| ==> p[q] != p[q'])
  }

  /** Every character is at its place or at one that is in the same run at level k or above. */
  predicate Near(k: int, g: seq<Glyph>, p: seq<int>)
    requires |p| == |g| && forall q :: 0 <= q < |p| ==> 0 <= p[q] < |g|
  {
    forall q :: 0 <= q < |p| ==> p[q] == q || Together(k, g, q, p[q])
  }

  // One level.

  /** Exactly the characters of the same run change their order. */
  predicate Turned(k: int, g: seq<Glyph>, p: seq<int>)
    requires |p| == |g|
  {
    forall q, q' :: 0 <= q < q' < |p| ==> (p[q] > p[q'] <==> Together(k, g, q, q'))
  }

  /** A place and what stands there, in the first part of a text or in the rest. */
  function Places(n: nat, t: seq<int>): (p: seq<int>)
    ensures |p| == n + |t|
    ensures forall q :: 0 <= q < n ==> p[q] == n - 1 - q
    ensures forall q :: n <= q < |p| ==> p[q] == n + t[q - n]
  {
    seq(n + |t|, q requires 0 <= q < n + |t| => if q < n then n - 1 - q else n + t[q - n])
  }

  lemma TogetherInRest(k: int, g: seq<Glyph>, n: int, i: int, j: int)
    requires 0 <= n <= i < |g| && n <= j < |g|
    ensures Together(k, g, i, j) <==> Together(k, g[n..], i - n, j - n)
  {
    var t := g[n..];
    assert forall x :: n <= x < |g| ==> g[x] == t[x - n];
    assert forall x :: 0 <= x < |t| ==> t[x] == g[n + x];
  }

  lemma PlacesArrange(k: int, g: seq<Glyph>, n: nat, t: seq<int>, r: seq<Glyph>)
    requires 0 < n <= |g| && Arranged(g[n..], r, t)
    requires n == 1 || AtLeast(k, g[..n])
    ensures Arranged(g, Reverse(g[..n]) + r, Places(n, t))
  {
    var p := Places(n, t);
    forall q | 0 <= q < |p|
      ensures 0 <= p[q] < |g| && (Reverse(g[..n]) + r)[q] == g[p[q]]
    {
      if q >= n {
        assert r[q - n] == g[n..][t[q - n]];
      }
    }
  }

  lemma PlacesTurn(k: int, g: seq<Glyph>, n: nat, t: seq<int>)
    requires 0 < n <= |g| && |t| == |g| - n && (forall q :: 0 <= q < |t| ==> 0 <= t[q] < |g| - n)
    requires (AtLeast(k, g[..n]) && (n < |g| ==> g[n].level < k)) || (n == 1 && g[0].level < k)
    requires Near(k, g[n..], t) && Turned(k, g[n..], t)
    ensures Near(k, g, Places(n, t)) && Turned(k, g, Places(n, t))
  {
    var p := Places(n, t);
    assert forall x :: 0 <= x < n ==> g[x] == g[..n][x];
    forall q | 0 <= q < |p|
      ensures p[q] == q || Together(k, g, q, p[q])
    {
      if q >= n {
        TogetherInRest(k, g, n, q, p[q]);
      }
    }
    forall q, q' | 0 <= q < q' < |p|
      ensures p[q] > p[q'] <==> Together(k, g, q, q')
    {
      if q >= n {
        TogetherInRest(k, g, n, q, q');
        assert t[q - n] > t[q' - n] <==> Together(k, g[n..], q - n, q' - n);
      } else if q' >= n {
        assert g[n].level < k || g[q].level < k;
      }
    }
  }

  lemma {:induction false} RunsArrange(k: int, g: seq<Glyph>) returns (p: seq<int>)
    ensures Arranged(g, ReverseRuns(k, g), p) && Near(k, g, p) && Turned(k, g, p)
    decreases |g|
  {
    if g == [] {
      p := [];
    } else {
      var n := if HighRun(k, g) == 0 then 1 else HighRun(k, g);
      var t := RunsArrange(k, g[n..]);
      p := Places(n, t);
      assert HighRun(k, g) == 0 ==> Reverse(g[..1]) == [g[0]];
      PlacesArrange(k, g, n, t, ReverseRuns(k, g[n..]));
      PlacesTurn(k, g, n, t);
    }
  }

  // All levels.

  /** With the runs at every level from k on reversed, two characters keep their order if the lowest level
      from the one to the other is below k, or at an odd distance above it. */
  predicate Keeps(k: int, m: int) {
    m < k || (m - k) % 2 == 1
  }

  predicate InOrder(k: int, g: seq<Glyph>, p: seq<int>)
    requires |p| == |g| && forall q :: 0 <= q < |p| ==> 0 <= p[q] < |g|
  {
    forall q, q' :: 0 <= q < q' < |p| ==> (p[q] < p[q'] <==> Keeps(k, Lowest(g, p[q], p[q'])))
  }

  predicate ReversedFrom(k: int, g: seq<Glyph>, r: seq<Glyph>, p: seq<int>) {
    Arranged(g, r, p) && Near(k, g, p) && InOrder(k, g, p)
  }

  lemma NearTogether(k: int, g: seq<Glyph>, p: seq<int>, i: int, j: int)
    requires |p| == |g| && (forall q :: 0 <= q < |p| ==> 0 <= p[q] < |g|) && Near(k, g, p)
    requires 0 <= i < |g| && 0 <= j < |g|
    ensures Together(k, g, p[i], p[j]) <==> Together(k, g, i, j)
  {
    if Together(k, g, i, j) {
      assert Together(k, g, p[i], i) && Together(k, g, j, p[j]);
      TogetherJoin(k, g, p[i], j, i);
      TogetherJoin(k, g, p[i], p[j], j);
    }
    if Together(k, g, p[i], p[j]) {
      assert Together(k, g, i, p[i]) && Together(k, g, p[j], j);
      TogetherJoin(k, g, i, p[j], p[i]);
      TogetherJoin(k, g, i, j, p[j]);
    }
  }

  lemma NearLower(k: int, g: seq<Glyph>, p: seq<int>)
    requires |p| == |g| && (forall q :: 0 <= q < |p| ==> 0 <= p[q] < |g|) && Near(k + 1, g, p)
    ensures Near(k, g, p)
  {
    forall q | 0 <= q < |p| && p[q] != q
      ensures Together(k, g, q, p[q])
    {
      assert Together(k + 1, g, q, p[q]);
    }
  }

  /** The runs at level k are the same before and after the reversals above. */
  lemma SameRuns(k: int, g: seq<Glyph>, r: seq<Glyph>, p: seq<int>, i: int, j: int)
    requires Arranged(g, r, p) && Near(k + 1, g, p) && 0 <= i < |g| && 0 <= j < |g|
    ensures Together(k, r, i, j) <==> Together(k, g, i, j)
  {
    forall x | 0 <= x < |g|
      ensures r[x].level >= k <==> g[x].level >= k
    {
      assert p[x] == x || Together(k + 1, g, x, p[x]);
    }
  }

  /** Two places, one level further. */
  lemma OrderStep(k: int, g: seq<Glyph>, r: seq<Glyph>, p: seq<int>, t: seq<int>, q: int, q': int)
    requires ReversedFrom(k + 1, g, r, p) && |t| == |g| && (forall x :: 0 <= x < |t| ==> 0 <= t[x] < |g|)
    requires Near(k, r, t) && Turned(k, r, t) && 0 <= q < q' < |g| && t[q] != t[q']
    ensures p[t[q]] < p[t[q']] <==> Keeps(k, Lowest(g, p[t[q]], p[t[q']]))
  {
    hide Together, Lowest, Near;
    var u, u' := t[q], t[q'];
    NearTogether(k, r, t, q, q');
    SameRuns(k, g, r, p, u, u');
    NearLower(k, g, p);
    NearTogether(k, g, p, u, u');
    LowestTogether(k, g, p[u], p[u']);
    LowestSymmetric(g, p[u], p[u']);
  }

  lemma NearStep(k: int, g: seq<Glyph>, r: seq<Glyph>, p: seq<int>, q: int, u: int)
    requires Arranged(g, r, p) && Near(k + 1, g, p) && 0 <= q < |g| && 0 <= u < |g|
    requires u == q || Together(k, r, q, u)
    ensures p[u] == q || Together(k, g, q, p[u])
  {
    assert p[u] == u || Together(k, g, u, p[u]);
    if u != q {
      SameRuns(k, g, r, p, q, u);
      assert Together(k, g, u, p[u]);
      TogetherJoin(k, g, q, p[u], u);
    }
  }

  lemma RunsStep(k: int, g: seq<Glyph>, r: seq<Glyph>, p: seq<int>) returns (p': seq<int>)
    requires ReversedFrom(k + 1, g, r, p)
    ensures ReversedFrom(k, g, ReverseRuns(k, r), p')
  {
    var t := RunsArrange(k, r);
    p' := seq(|g|, q requires 0 <= q < |g| => p[t[q]]);
    forall q | 0 <= q < |g|
      ensures p'[q] == q || Together(k, g, q, p'[q])
    {
      NearStep(k, g, r, p, q, t[q]);
    }
    forall q, q' | 0 <= q < q' < |g|
      ensures p'[q] < p'[q'] <==> Keeps(k, Lowest(g, p'[q], p'[q']))
    {
      OrderStep(k, g, r, p, t, q, q');
    }
    forall q, q' | 0 <= q < q' < |g|
      ensures p'[q] != p'[q']
    {
      assert t[q] < t[q'] || t[q'] < t[q];
    }
  }

  lemma {:induction false} DownArrange(hi: int, lo: int, g: seq<Glyph>, r: seq<Glyph>, p: seq<int>)
    returns (p': seq<int>)
    requires ReversedFrom(hi + 1, g, r, p) && lo <= hi + 1
    ensures ReversedFrom(lo, g, ReverseDown(hi, lo, r), p')
    decreases hi - lo
  {
    if hi < lo {
      p' := p;
    } else {
      var t := RunsStep(hi, g, r, p);
      p' := DownArrange(hi - 1, lo, g, ReverseRuns(hi, r), t);
    }
  }

  lemma LowestIsUsed(base: int, hi: int, lo: int, g: seq<Glyph>, i: int, j: int)
    requires 0 <= i < |g| && 0 <= j < |g| && AtLeast(base, g) && AtMost(hi, g)
    requires forall k :: base <= k < lo && Odd(k) && k <= hi ==> !HasLevel(k, g)
    ensures var m := Lowest(g, i, j); base <= m <= hi && (m < lo ==> m % 2 == 0)
  {
    var m := Lowest(g, i, j);
    assert HasLevel(m, g);
  }

  /** Without any reversal. */
  lemma AsInText(k: int, g: seq<Glyph>) returns (p: seq<int>)
    requires AtMost(k - 1, g)
    ensures ReversedFrom(k, g, g, p)
  {
    p := seq(|g|, q requires 0 <= q < |g| => q);
    forall q, q' | 0 <= q < q' < |g|
      ensures Keeps(k, Lowest(g, p[q], p[q']))
    {}
  }

  lemma RuleL2Arranges(base: int, hi: int, lo: int, g: seq<Glyph>) returns (p: seq<int>)
    requires AtLeast(base, g) && hi == Highest(base, g) && lo == LowestOdd(base, hi, g)
    ensures ReversedFrom(if lo <= hi then lo else hi + 1, g, RuleL2(base, g), p)
  {
    hide LowestOdd, ReversedFrom;
    HighestBounds(base, g);
    p := AsInText(hi + 1, g);
    if lo <= hi {
      p := DownArrange(hi, lo, g, g, p);
    } else {
      assert ReverseDown(hi, lo, g) == g;
    }
  }

  lemma KeepsEven(k: int, m: int)
    requires (m < k ==> m % 2 == 0) && (m >= k ==> k % 2 == 1)
    ensures Keeps(k, m) <==> m % 2 == 0
  {}

  /** Rule L2 on a line: it shows every character once, and of two characters the one that comes first in the
      text is shown first exactly when the lowest level from the one to the other is even. */
  lemma DisplayOrder(base: int, g: seq<Glyph>) returns (p: seq<int>)
    requires AtLeast(base, g)
    ensures Arranged(g, RuleL2(base, g), p)
    ensures forall q, q' :: 0 <= q < q' < |g| ==> (p[q] < p[q'] <==> Lowest(g, p[q], p[q']) % 2 == 0)
  {
    hide RuleL2, LowestOdd, Highest, Keeps, Lowest, HasLevel;
    var hi := Highest(base, g);
    HighestBounds(base, g);
    LowestOddFound(base, hi, g);
    var lo := LowestOdd(base, hi, g);
    var k := if lo <= hi then lo else hi + 1;
    p := RuleL2Arranges(base, hi, lo, g);
    forall q, q' | 0 <= q < q' < |g|
      ensures p[q] < p[q'] <==> Lowest(g, p[q], p[q']) % 2 == 0
    {
      LowestIsUsed(base, hi, lo, g, p[q], p[q']);
      KeepsEven(k, Lowest(g, p[q], p[q']));
    }
  }
}
