/** Rule L2 of the bidirectional algorithm, the recursive reordering, and their equality. */
module BidiReorder {
  import opened BidiClasses

  /** A character with its resolved level; control marks the codes and BNs that rule X9 removes. */
  datatype Glyph = Glyph(ch: char, level: int, control: bool)

  function Reverse<T>(s: seq<T>): (r: seq<T>)
    ensures |r| == |s| && forall i :: 0 <= i < |s| ==> r[i] == s[|s| - 1 - i]
  {
    seq(|s|, i requires 0 <= i < |s| => s[|s| - 1 - i])
  }

  predicate AtLeast(k: int, g: seq<Glyph>) {
    forall i :: 0 <= i < |g| ==> g[i].level >= k
  }

  predicate AtMost(k: int, g: seq<Glyph>) {
    forall i :: 0 <= i < |g| ==> g[i].level <= k
  }

  /** The number of leading characters at level k or above. */
  function HighRun(k: int, g: seq<Glyph>): (n: nat)
    ensures n <= |g| && AtLeast(k, g[..n]) && (n < |g| ==> g[n].level < k)
    decreases |g|
  {
    if g == [] || g[0].level < k then 0 else 1 + HighRun(k, g[1..])
  }

  /** Reverses every maximal run of characters at level k or above. */
  function ReverseRuns(k: int, g: seq<Glyph>): (r: seq<Glyph>)
    ensures |r| == |g|
    decreases |g|
  {
    if g == [] then []
    else
      var n := HighRun(k, g);
      if n == 0 then [g[0]] + ReverseRuns(k, g[1..]) else Reverse(g[..n]) + ReverseRuns(k, g[n..])
  }

  /** ReverseRuns at every level from hi down to lo. */
  function ReverseDown(hi: int, lo: int, g: seq<Glyph>): (r: seq<Glyph>)
    ensures |r| == |g|
    decreases hi - lo
  {
    if hi < lo then g else ReverseDown(hi - 1, lo, ReverseRuns(hi, g))
  }

  /** The highest level, low when there is no character above it. */
  function Highest(low: int, g: seq<Glyph>): int
    decreases |g|
  {
    if g == [] then low else Max(g[0].level, Highest(low, g[1..]))
  }

  predicate HasLevel(k: int, g: seq<Glyph>) {
    exists i :: 0 <= i < |g| && g[i].level == k
  }

  /** The lowest odd level from lo on that some character has, a level above hi when there is none. */
  function LowestOdd(lo: int, hi: int, g: seq<Glyph>): int
    decreases hi - lo
  {
    if lo > hi then lo
    else if Odd(lo) && HasLevel(lo, g) then lo
    else LowestOdd(lo + 1, hi, g)
  }

  /** Rule L2 on a line: from the highest level down to the lowest odd level on the line, reverse every
      run at that level or above. */
  function RuleL2(base: int, g: seq<Glyph>): (r: seq<Glyph>)
    ensures |r| == |g|
  {
    var hi := Highest(base, g);
    ReverseDown(hi, LowestOdd(base, hi, g), g)
  }

  lemma {:induction false} HighestBounds(low: int, g: seq<Glyph>)
    ensures var h := Highest(low, g);
            h >= low && AtMost(h, g) && (h == low || HasLevel(h, g))
    decreases |g|
  {
    if g != [] {
      HighestBounds(low, g[1..]);
      var h := Highest(low, g[1..]);
      if h != low && h >= g[0].level {
        var i :| 0 <= i < |g| - 1 && g[1..][i].level == h;
        assert g[i + 1].level == h;
      }
    }
  }

  /** LowestOdd finds an odd level that some character has, and there is none below it. */
  lemma {:induction false} LowestOddFound(lo: int, hi: int, g: seq<Glyph>)
    ensures var k := LowestOdd(lo, hi, g);
            && (k > hi || (k >= lo && Odd(k) && HasLevel(k, g)))
            && forall j :: lo <= j < k && Odd(j) && j <= hi ==> !HasLevel(j, g)
    decreases hi - lo
  {
    if lo <= hi && !(Odd(lo) && HasLevel(lo, g)) {
      LowestOddFound(lo + 1, hi, g);
    }
  }

  // The recursion.

  /** The recursive reordering of a text whose levels are from level to hi. */
  function Reorder(level: int, hi: int, rev: bool, g: seq<Glyph>): (r: seq<Glyph>)
    requires AtLeast(level, g) && AtMost(hi, g)
    ensures |r| == |g|
    decreases hi - level, |g|, 1
  {
    var rev' := rev || Odd(level);
    var body := ReorderParts(level, hi, rev', g);
    if rev' then Reverse(body) else body
  }

  /** Inside the recursion: characters of the level stay where they are, runs above it are reordered. */
  function ReorderParts(level: int, hi: int, rev: bool, g: seq<Glyph>): (r: seq<Glyph>)
    requires AtLeast(level, g) && AtMost(hi, g)
    ensures |r| == |g|
    decreases hi - level, |g|, 0
  {
    if g == [] then []
    else
      var n := HighRun(level + 1, g);
      if n == 0 then [g[0]] + ReorderParts(level, hi, rev, g[1..])
      else
        assert g[0].level > level;
        Reorder(level + 1, hi, rev, g[..n]) + ReorderParts(level, hi, rev, g[n..])
  }

  // Unfolding the definitions on a text that is given as its first part and the rest.

  lemma {:induction false} HighRunOf(k: int, head: seq<Glyph>, tail: seq<Glyph>)
    requires AtLeast(k, head) && (tail == [] || tail[0].level < k)
    ensures HighRun(k, head + tail) == |head|
    decreases |head|
  {
    if head == [] {
      assert head + tail == tail;
    } else {
      assert (head + tail)[1..] == head[1..] + tail;
      HighRunOf(k, head[1..], tail);
    }
  }

  lemma RunsHigh(k: int, head: seq<Glyph>, tail: seq<Glyph>)
    requires head != [] && AtLeast(k, head) && (tail == [] || tail[0].level < k)
    ensures ReverseRuns(k, head + tail) == Reverse(head) + ReverseRuns(k, tail)
  {
    HighRunOf(k, head, tail);
    assert (head + tail)[..|head|] == head && (head + tail)[|head|..] == tail;
  }

  lemma RunsLow(k: int, c: Glyph, tail: seq<Glyph>)
    requires c.level < k
    ensures ReverseRuns(k, [c] + tail) == [c] + ReverseRuns(k, tail)
  {
    assert ([c] + tail)[1..] == tail;
  }

  lemma PartsHigh(level: int, hi: int, rev: bool, head: seq<Glyph>, tail: seq<Glyph>)
    requires head != [] && AtLeast(level + 1, head) && (tail == [] || tail[0].level == level)
    requires AtMost(hi, head) && AtMost(hi, tail) && AtLeast(level, tail)
    ensures AtLeast(level, head + tail) && AtMost(hi, head + tail)
    ensures ReorderParts(level, hi, rev, head + tail)
         == Reorder(level + 1, hi, rev, head) + ReorderParts(level, hi, rev, tail)
  {
    HighRunOf(level + 1, head, tail);
    assert (head + tail)[..|head|] == head && (head + tail)[|head|..] == tail;
  }

  lemma PartsLow(level: int, hi: int, rev: bool, c: Glyph, tail: seq<Glyph>)
    requires c.level == level <= hi && AtLeast(level, tail) && AtMost(hi, tail)
    ensures AtLeast(level, [c] + tail) && AtMost(hi, [c] + tail)
    ensures ReorderParts(level, hi, rev, [c] + tail) == [c] + ReorderParts(level, hi, rev, tail)
  {
    assert ([c] + tail)[1..] == tail;
  }

  /** A text that begins at level k or above is its first run and the rest. */
  lemma FirstRun(k: int, g: seq<Glyph>) returns (head: seq<Glyph>, tail: seq<Glyph>)
    requires g != [] && g[0].level >= k
    ensures g == head + tail && head != [] && AtLeast(k, head) && (tail == [] || tail[0].level < k)
    ensures |tail| < |g| && |head| <= |g|
  {
    var n := HighRun(k, g);
    head, tail := g[..n], g[n..];
  }

  // Properties of ReverseRuns.

  lemma Associate<T>(a: seq<T>, b: seq<T>, c: seq<T>)
    ensures (a + b) + c == a + (b + c)
  {}

  lemma RunsSplitLow(k: int, c: Glyph, tail: seq<Glyph>, b: seq<Glyph>)
    requires c.level < k && ReverseRuns(k, tail + b) == ReverseRuns(k, tail) + ReverseRuns(k, b)
    ensures ReverseRuns(k, [c] + tail + b) == ReverseRuns(k, [c] + tail) + ReverseRuns(k, b)
  {
    Associate([c], tail, b);
    RunsLow(k, c, tail + b);
    RunsLow(k, c, tail);
    Associate([c], ReverseRuns(k, tail), ReverseRuns(k, b));
  }

  lemma RunsSplitHigh(k: int, head: seq<Glyph>, tail: seq<Glyph>, b: seq<Glyph>)
    requires head != [] && AtLeast(k, head) && (tail == [] || tail[0].level < k)
             && (tail + b == [] || (tail + b)[0].level < k)
    requires ReverseRuns(k, tail + b) == ReverseRuns(k, tail) + ReverseRuns(k, b)
    ensures ReverseRuns(k, head + tail + b) == ReverseRuns(k, head + tail) + ReverseRuns(k, b)
  {
    Associate(head, tail, b);
    RunsHigh(k, head, tail + b);
    RunsHigh(k, head, tail);
    Associate(Reverse(head), ReverseRuns(k, tail), ReverseRuns(k, b));
  }

  /** Runs do not reach over a character below the level. */
  lemma {:induction false} RunsSplit(k: int, a: seq<Glyph>, b: seq<Glyph>)
    requires a == [] || b == [] || a[|a| - 1].level < k || b[0].level < k
    ensures ReverseRuns(k, a + b) == ReverseRuns(k, a) + ReverseRuns(k, b)
    decreases |a|
  {
    if a == [] {
      assert a + b == b;
    } else if b == [] {
      assert a + b == a;
    } else if a[0].level < k {
      var tail := a[1..];
      assert a == [a[0]] + tail;
      RunsSplit(k, tail, b);
      RunsSplitLow(k, a[0], tail, b);
    } else {
      var head, tail := FirstRun(k, a);
      RunsSplit(k, tail, b);
      RunsSplitHigh(k, head, tail, b);
    }
  }

  /** A text wholly at level k or above is one run. */
  lemma OneRun(k: int, g: seq<Glyph>)
    requires AtLeast(k, g)
    ensures ReverseRuns(k, g) == Reverse(g)
  {
    if g != [] {
      RunsHigh(k, g, []);
      assert g + [] == g;
    }
  }

  /** A text wholly below level k is left alone. */
  lemma {:induction false} NoRuns(k: int, g: seq<Glyph>)
    requires AtMost(k - 1, g)
    ensures ReverseRuns(k, g) == g
    decreases |g|
  {
    if g != [] {
      NoRuns(k, g[1..]);
    }
  }

  lemma {:induction false} ReversePermutes<T>(s: seq<T>)
    ensures multiset(Reverse(s)) == multiset(s)
    decreases |s|
  {
    if s != [] {
      assert s == [s[0]] + s[1..];
      assert Reverse(s) == Reverse(s[1..]) + [s[0]];
      ReversePermutes(s[1..]);
    }
  }

  lemma {:induction false} RunsPermute(k: int, g: seq<Glyph>)
    ensures multiset(ReverseRuns(k, g)) == multiset(g)
    decreases |g|
  {
    if g != [] {
      var n := HighRun(k, g);
      if n == 0 {
        assert g == [g[0]] + g[1..];
        RunsPermute(k, g[1..]);
      } else {
        assert g == g[..n] + g[n..];
        ReversePermutes(g[..n]);
        RunsPermute(k, g[n..]);
      }
    }
  }

  lemma BoundsPermute(lo: int, hi: int, a: seq<Glyph>, b: seq<Glyph>)
    requires multiset(a) == multiset(b) && AtLeast(lo, a) && AtMost(hi, a)
    ensures AtLeast(lo, b) && AtMost(hi, b)
  {
    forall i | 0 <= i < |b|
      ensures lo <= b[i].level <= hi
    {
      assert b[i] in multiset(b) && b[i] in a;
    }
  }

  lemma LevelsPermute(k: int, a: seq<Glyph>, b: seq<Glyph>)
    requires multiset(a) == multiset(b) && HasLevel(k, b)
    ensures HasLevel(k, a)
  {
    var i :| 0 <= i < |b| && b[i].level == k;
    assert b[i] in multiset(a) && b[i] in a;
  }

  // The recursion reverses the runs of every level from some level on.

  /** What stands in front of a break, or behind it, is handled apart: the break is a character below
      every level that is reversed. */
  predicate Break(lo: int, a: seq<Glyph>, b: seq<Glyph>) {
    b == [] || b[0].level < lo || (|a| == 1 && a[0].level < lo)
  }

  lemma BreakStays(k: int, lo: int, a: seq<Glyph>, b: seq<Glyph>)
    requires lo <= k && Break(lo, a, b)
    ensures Break(lo, ReverseRuns(k, a), ReverseRuns(k, b))
  {
    if |a| == 1 && a[0].level < lo {
      assert ReverseRuns(k, a) == a;
    }
  }

  lemma {:induction false} DownSplit(hi: int, lo: int, a: seq<Glyph>, b: seq<Glyph>)
    requires Break(lo, a, b)
    ensures ReverseDown(hi, lo, a + b) == ReverseDown(hi, lo, a) + ReverseDown(hi, lo, b)
    decreases hi - lo
  {
    if hi >= lo {
      var a', b' := ReverseRuns(hi, a), ReverseRuns(hi, b);
      calc {
        ReverseDown(hi, lo, a + b);
        ReverseDown(hi - 1, lo, ReverseRuns(hi, a + b));
        { RunsSplit(hi, a, b); }
        ReverseDown(hi - 1, lo, a' + b');
        { BreakStays(hi, lo, a, b); DownSplit(hi - 1, lo, a', b'); }
        ReverseDown(hi - 1, lo, a') + ReverseDown(hi - 1, lo, b');
      }
    }
  }

  /** The lowest level may be taken off at the end. */
  lemma {:induction false} DownLast(hi: int, lo: int, g: seq<Glyph>)
    requires lo <= hi
    ensures ReverseDown(hi, lo, g) == ReverseRuns(lo, ReverseDown(hi, lo + 1, g))
    decreases hi - lo
  {
    if lo < hi {
      DownLast(hi - 1, lo, ReverseRuns(hi, g));
    }
  }

  lemma {:induction false} DownPermutes(hi: int, lo: int, g: seq<Glyph>)
    ensures multiset(ReverseDown(hi, lo, g)) == multiset(g)
    decreases hi - lo
  {
    if hi >= lo {
      RunsPermute(hi, g);
      DownPermutes(hi - 1, lo, ReverseRuns(hi, g));
    }
  }

  /** Text below every level that is reversed is left alone. */
  lemma {:induction false} DownOfLow(hi: int, lo: int, g: seq<Glyph>)
    requires AtMost(lo - 1, g)
    ensures ReverseDown(hi, lo, g) == g
    decreases hi - lo
  {
    if hi >= lo {
      NoRuns(hi, g);
      DownOfLow(hi - 1, lo, g);
    }
  }

  /** Once the recursion reverses, it reverses the runs of every level from its own level to hi. */
  lemma {:induction false} ReorderIsDown(level: int, hi: int, g: seq<Glyph>)
    requires AtLeast(level, g) && AtMost(hi, g)
    ensures Reorder(level, hi, true, g) == ReverseDown(hi, level, g)
    decreases hi - level, |g|, 1
  {
    PartsAreDown(level, hi, g);
    if g == [] {
      DownOfLow(hi, level, g);
    } else {
      assert level <= g[0].level <= hi;
      var h := ReverseDown(hi, level + 1, g);
      DownLast(hi, level, g);
      DownPermutes(hi, level + 1, g);
      BoundsPermute(level, hi, g, h);
      OneRun(level, h);
    }
  }

  lemma FirstLowPart(level: int, hi: int, c: Glyph, tail: seq<Glyph>)
    requires c.level == level <= hi && AtLeast(level, tail) && AtMost(hi, tail)
    requires ReorderParts(level, hi, true, tail) == ReverseDown(hi, level + 1, tail)
    ensures AtLeast(level, [c] + tail) && AtMost(hi, [c] + tail)
    ensures ReorderParts(level, hi, true, [c] + tail) == ReverseDown(hi, level + 1, [c] + tail)
  {
    PartsLow(level, hi, true, c, tail);
    DownOfLow(hi, level + 1, [c]);
    DownSplit(hi, level + 1, [c], tail);
  }

  lemma FirstHighPart(level: int, hi: int, head: seq<Glyph>, tail: seq<Glyph>)
    requires head != [] && AtLeast(level + 1, head) && (tail == [] || tail[0].level == level)
    requires AtMost(hi, head) && AtMost(hi, tail) && AtLeast(level, tail)
    requires Reorder(level + 1, hi, true, head) == ReverseDown(hi, level + 1, head)
    requires ReorderParts(level, hi, true, tail) == ReverseDown(hi, level + 1, tail)
    ensures AtLeast(level, head + tail) && AtMost(hi, head + tail)
    ensures ReorderParts(level, hi, true, head + tail) == ReverseDown(hi, level + 1, head + tail)
  {
    PartsHigh(level, hi, true, head, tail);
    DownSplit(hi, level + 1, head, tail);
  }

  lemma BoundsSplit(lo: int, hi: int, a: seq<Glyph>, b: seq<Glyph>)
    requires AtLeast(lo, a + b) && AtMost(hi, a + b)
    ensures AtLeast(lo, a) && AtMost(hi, a) && AtLeast(lo, b) && AtMost(hi, b)
  {
    assert forall i :: 0 <= i < |a| ==> (a + b)[i] == a[i];
    assert forall i :: 0 <= i < |b| ==> (a + b)[|a| + i] == b[i];
  }

  lemma {:induction false} PartsAreDown(level: int, hi: int, g: seq<Glyph>)
    requires AtLeast(level, g) && AtMost(hi, g)
    ensures ReorderParts(level, hi, true, g) == ReverseDown(hi, level + 1, g)
    decreases hi - level, |g|, 0
  {
    if g == [] {
      DownOfLow(hi, level + 1, g);
    } else if g[0].level == level {
      var tail := g[1..];
      PartsAreDown(level, hi, tail);
      FirstLowPart(level, hi, g[0], tail);
      assert g == [g[0]] + tail;
    } else {
      var head, tail := FirstRun(level + 1, g);
      BoundsSplit(level, hi, head, tail);
      ReorderIsDown(level + 1, hi, head);
      PartsAreDown(level, hi, tail);
      FirstHighPart(level, hi, head, tail);
    }
  }

  /** Above an even level it makes no difference whether the reversal was enabled there. */
  lemma {:induction false} PartsAboveEven(level: int, hi: int, g: seq<Glyph>)
    requires AtLeast(level, g) && AtMost(hi, g) && !Odd(level)
    ensures ReorderParts(level, hi, false, g) == ReorderParts(level, hi, true, g)
    decreases |g|
  {
    if g != [] {
      if g[0].level == level {
        var tail := g[1..];
        assert g == [g[0]] + tail;
        PartsAboveEven(level, hi, tail);
        PartsLow(level, hi, false, g[0], tail);
        PartsLow(level, hi, true, g[0], tail);
      } else {
        var head, tail := FirstRun(level + 1, g);
        BoundsSplit(level, hi, head, tail);
        PartsAboveEven(level, hi, tail);
        PartsHigh(level, hi, false, head, tail);
        PartsHigh(level, hi, true, head, tail);
        assert Reorder(level + 1, hi, false, head) == Reorder(level + 1, hi, true, head);
      }
    }
  }

  // Reversals at two neighbouring levels cancel when no character is at the lower one.

  lemma TwiceHigh(k: int, head: seq<Glyph>, tail: seq<Glyph>)
    requires head != [] && AtLeast(k, head) && (tail == [] || tail[0].level < k)
    requires ReverseRuns(k, ReverseRuns(k, tail)) == tail
    ensures ReverseRuns(k, ReverseRuns(k, head + tail)) == head + tail
  {
    var tail' := ReverseRuns(k, tail);
    RunsHigh(k, head, tail);
    RunsHigh(k, Reverse(head), tail');
    assert Reverse(Reverse(head)) == head;
  }

  lemma {:induction false} RunsTwice(k: int, g: seq<Glyph>)
    ensures ReverseRuns(k, ReverseRuns(k, g)) == g
    decreases |g|
  {
    if g != [] {
      if g[0].level < k {
        var tail := g[1..];
        assert g == [g[0]] + tail;
        RunsTwice(k, tail);
        RunsLow(k, g[0], tail);
        RunsLow(k, g[0], ReverseRuns(k, tail));
      } else {
        var head, tail := FirstRun(k, g);
        RunsTwice(k, tail);
        TwiceHigh(k, head, tail);
      }
    }
  }

  lemma LevelsSplit(k: int, a: seq<Glyph>, b: seq<Glyph>)
    requires !HasLevel(k, a + b)
    ensures !HasLevel(k, a) && !HasLevel(k, b)
  {
    assert forall i :: 0 <= i < |a| ==> (a + b)[i] == a[i];
    assert forall i :: 0 <= i < |b| ==> (a + b)[|a| + i] == b[i];
  }

  lemma {:induction false} RunsSame(k: int, g: seq<Glyph>)
    requires !HasLevel(k, g)
    ensures ReverseRuns(k, g) == ReverseRuns(k + 1, g)
    decreases |g|
  {
    if g != [] {
      assert g[0].level != k;
      if g[0].level < k {
        var tail := g[1..];
        assert g == [g[0]] + tail;
        LevelsSplit(k, [g[0]], tail);
        RunsSame(k, tail);
        RunsLow(k, g[0], tail);
        RunsLow(k + 1, g[0], tail);
      } else {
        var head, tail := FirstRun(k, g);
        LevelsSplit(k, head, tail);
        RunsSame(k, tail);
        RunsHigh(k, head, tail);
        assert forall i :: 0 <= i < |head| ==> head[i].level != k;
        RunsHigh(k + 1, head, tail);
      }
    }
  }

  lemma Cancel(hi: int, lo: int, g: seq<Glyph>)
    requires lo < hi && !HasLevel(lo, g)
    ensures ReverseDown(hi, lo, g) == ReverseDown(hi, lo + 2, g)
  {
    var h := ReverseDown(hi, lo + 2, g);
    var h' := ReverseRuns(lo + 1, h);
    DownLast(hi, lo, g);
    DownLast(hi, lo + 1, g);
    DownPermutes(hi, lo + 2, g);
    RunsPermute(lo + 1, h);
    if HasLevel(lo, h') {
      LevelsPermute(lo, g, h');
    }
    RunsSame(lo, h');
    RunsTwice(lo + 1, h);
  }

  lemma {:induction false} DownFromLowestOdd(hi: int, lo: int, g: seq<Glyph>)
    requires Odd(lo) && (lo <= hi ==> HasLevel(hi, g))
    ensures ReverseDown(hi, lo, g) == ReverseDown(hi, LowestOdd(lo, hi, g), g)
    decreases hi - lo
  {
    if lo <= hi && !HasLevel(lo, g) {
      Cancel(hi, lo, g);
      DownFromLowestOdd(hi, lo + 2, g);
    }
  }

  /** The outermost call, which does not reverse yet, reverses from the first odd level on. */
  lemma ReorderFromBase(base: int, hi: int, g: seq<Glyph>)
    requires AtLeast(base, g) && AtMost(hi, g)
    ensures Reorder(base, hi, false, g) == ReverseDown(hi, if Odd(base) then base else base + 1, g)
  {
    if Odd(base) {
      assert Reorder(base, hi, false, g) == Reorder(base, hi, true, g);
      ReorderIsDown(base, hi, g);
    } else {
      assert Reorder(base, hi, false, g) == ReorderParts(base, hi, false, g);
      PartsAboveEven(base, hi, g);
      PartsAreDown(base, hi, g);
    }
  }

  /** The recursion is rule L2, although it also reverses at every level between the base level and the
      lowest odd level on the line. */
  lemma ReorderIsL2(base: int, g: seq<Glyph>)
    requires AtLeast(base, g)
    ensures AtMost(Highest(base, g), g)
    ensures Reorder(base, Highest(base, g), false, g) == RuleL2(base, g)
  {
    var hi := Highest(base, g);
    HighestBounds(base, g);
    var lo := if Odd(base) then base else base + 1;
    ReorderFromBase(base, hi, g);
    assert LowestOdd(base, hi, g) == LowestOdd(lo, hi, g) || hi < lo;
    if g == [] {
      DownOfLow(hi, lo, g);
      DownOfLow(hi, LowestOdd(base, hi, g), g);
    } else {
      assert hi == base ==> g[0].level == base;
      DownFromLowestOdd(hi, lo, g);
    }
  }
}
