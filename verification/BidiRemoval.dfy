/** Leaving the codes and BNs in the text does not change the display order of the other characters:
    removing them from a displayed line gives the display of the line from which they were removed. */
module BidiRemoval {
  import opened BidiClasses
  import opened BidiReorder
  import opened BidiWhitespace
  import opened BidiLines

  /** The glyphs that are not controls. */
  function Plain(g: seq<Glyph>): (r: seq<Glyph>)
    ensures |r| <= |g|
    decreases |g|
  {
    if g == [] then [] else if g[0].control then Plain(g[1..]) else [g[0]] + Plain(g[1..])
  }

  lemma {:induction false} PlainConcat(a: seq<Glyph>, b: seq<Glyph>)
    ensures Plain(a + b) == Plain(a) + Plain(b)
    decreases |a|
  {
    if a == [] {
      assert a + b == b;
    } else {
      assert (a + b)[1..] == a[1..] + b;
      PlainConcat(a[1..], b);
    }
  }

  lemma {:induction false} PlainReverse(g: seq<Glyph>)
    ensures Plain(Reverse(g)) == Reverse(Plain(g))
    decreases |g|
  {
    if g != [] {
      var tail := g[1..];
      assert Reverse(g) == Reverse(tail) + [g[0]];
      PlainConcat(Reverse(tail), [g[0]]);
      PlainReverse(tail);
      assert Plain([g[0]]) == if g[0].control then [] else [g[0]];
      assert Reverse([g[0]] + Plain(tail)) == Reverse(Plain(tail)) + [g[0]];
    }
  }

  lemma {:induction false} PlainBounds(lo: int, hi: int, g: seq<Glyph>)
    requires AtLeast(lo, g) && AtMost(hi, g)
    ensures AtLeast(lo, Plain(g)) && AtMost(hi, Plain(g))
    decreases |g|
  {
    if g != [] {
      PlainBounds(lo, hi, g[1..]);
    }
  }

  /** Positions i and m hold neighbouring characters that are not controls. */
  ghost predicate Gap(g: seq<Glyph>, i: nat, m: nat) {
    i < m < |g| && !g[i].control && !g[m].control && forall x :: i < x < m ==> g[x].control
  }

  /** The controls between two neighbours are not below both of them, so they split no run. */
  ghost predicate SplitsNoRun(g: seq<Glyph>) {
    forall i: nat, m: nat, j :: Gap(g, i, m) && i < j < m ==> g[j].level >= g[i].level || g[j].level >= g[m].level
  }

  lemma SplitsNoRunParts(a: seq<Glyph>, b: seq<Glyph>)
    requires SplitsNoRun(a + b)
    ensures SplitsNoRun(a) && SplitsNoRun(b)
  {
    var g := a + b;
    forall i: nat, m: nat, j | Gap(a, i, m) && i < j < m
      ensures a[j].level >= a[i].level || a[j].level >= a[m].level
    {
      assert Gap(g, i, m) && g[j] == a[j];
    }
    forall i: nat, m: nat, j | Gap(b, i, m) && i < j < m
      ensures b[j].level >= b[i].level || b[j].level >= b[m].level
    {
      assert forall x :: i < x < m ==> g[|a| + x] == b[x];
      assert Gap(g, |a| + i, |a| + m) && g[|a| + j] == b[j];
    }
  }

  lemma {:induction false} FirstPlain(g: seq<Glyph>) returns (m: nat)
    requires Plain(g) != []
    ensures m < |g| && !g[m].control && g[m] == Plain(g)[0] && forall x :: 0 <= x < m ==> g[x].control
    decreases |g|
  {
    if g[0].control {
      var n := FirstPlain(g[1..]);
      m := n + 1;
      assert forall x :: 1 <= x < m ==> g[x] == g[1..][x - 1];
    } else {
      m := 0;
    }
  }

  lemma {:induction false} LastPlain(g: seq<Glyph>) returns (i: nat)
    requires Plain(g) != []
    ensures i < |g| && !g[i].control && forall x :: i < x < |g| ==> g[x].control
    decreases |g|
  {
    var n := |g| - 1;
    if g[n].control {
      assert g == g[..n] + [g[n]];
      PlainConcat(g[..n], [g[n]]);
      i := LastPlain(g[..n]);
    } else {
      i := n;
    }
  }

  /** Behind a run above the level, the next character that is not a control is of the level. */
  lemma PlainBreak(level: int, head: seq<Glyph>, tail: seq<Glyph>)
    requires SplitsNoRun(head + tail) && AtLeast(level + 1, head) && AtLeast(level, tail)
    requires tail != [] && tail[0].level == level && Plain(head) != [] && Plain(tail) != []
    ensures Plain(tail)[0].level == level
  {
    var g := head + tail;
    var i := LastPlain(head);
    var m := FirstPlain(tail);
    if m > 0 {
      assert forall x :: |head| <= x < |head| + m ==> g[x] == tail[x - |head|];
      assert Gap(g, i, |head| + m);
      assert g[|head|] == tail[0] && g[i] == head[i] && g[|head| + m] == tail[m];
    }
  }

  lemma PlainPartsHigh(level: int, hi: int, rev: bool, head: seq<Glyph>, tail: seq<Glyph>)
    requires head != [] && AtLeast(level + 1, head) && (tail == [] || tail[0].level == level)
    requires AtMost(hi, head) && AtMost(hi, tail) && AtLeast(level, tail) && SplitsNoRun(head + tail)
    requires AtLeast(level + 1, Plain(head)) && AtMost(hi, Plain(head)) && AtLeast(level, Plain(tail))
             && AtMost(hi, Plain(tail))
    requires Plain(Reorder(level + 1, hi, rev, head)) == Reorder(level + 1, hi, rev, Plain(head))
    requires Plain(ReorderParts(level, hi, rev, tail)) == ReorderParts(level, hi, rev, Plain(tail))
    ensures AtLeast(level, head + tail) && AtMost(hi, head + tail)
    ensures AtLeast(level, Plain(head + tail)) && AtMost(hi, Plain(head + tail))
    ensures Plain(ReorderParts(level, hi, rev, head + tail)) == ReorderParts(level, hi, rev, Plain(head + tail))
  {
    var p, q := Plain(head), Plain(tail);
    PartsHigh(level, hi, rev, head, tail);
    PlainConcat(Reorder(level + 1, hi, rev, head), ReorderParts(level, hi, rev, tail));
    PlainConcat(head, tail);
    if p == [] {
      assert p + q == q;
      assert Reorder(level + 1, hi, rev, p) + ReorderParts(level, hi, rev, q) == ReorderParts(level, hi, rev, q);
    } else {
      if tail != [] && q != [] {
        PlainBreak(level, head, tail);
      }
      PartsHigh(level, hi, rev, p, q);
    }
  }

  lemma PlainPartsLow(level: int, hi: int, rev: bool, c: Glyph, tail: seq<Glyph>)
    requires c.level == level <= hi && AtLeast(level, tail) && AtMost(hi, tail)
    requires AtLeast(level, Plain(tail)) && AtMost(hi, Plain(tail))
    requires Plain(ReorderParts(level, hi, rev, tail)) == ReorderParts(level, hi, rev, Plain(tail))
    ensures AtLeast(level, [c] + tail) && AtMost(hi, [c] + tail)
    ensures AtLeast(level, Plain([c] + tail)) && AtMost(hi, Plain([c] + tail))
    ensures Plain(ReorderParts(level, hi, rev, [c] + tail)) == ReorderParts(level, hi, rev, Plain([c] + tail))
  {
    PartsLow(level, hi, rev, c, tail);
    PlainConcat([c], tail);
    PlainConcat([c], ReorderParts(level, hi, rev, tail));
    if c.control {
      assert Plain([c]) == [];
      assert [] + Plain(tail) == Plain(tail);
      assert [] + Plain(ReorderParts(level, hi, rev, tail)) == Plain(ReorderParts(level, hi, rev, tail));
    } else {
      assert Plain([c]) == [c];
      PartsLow(level, hi, rev, c, Plain(tail));
    }
  }

  lemma PlainNothing(level: int, hi: int, rev: bool)
    ensures Plain([]) == [] && ReorderParts(level, hi, rev, []) == []
  {}

  /** Removing the controls commutes with the reordering, when they split no run. */
  lemma {:induction false} PlainReorder(level: int, hi: int, rev: bool, g: seq<Glyph>)
    requires AtLeast(level, g) && AtMost(hi, g) && SplitsNoRun(g)
    requires AtLeast(level, Plain(g)) && AtMost(hi, Plain(g))
    ensures Plain(Reorder(level, hi, rev, g)) == Reorder(level, hi, rev, Plain(g))
    decreases hi - level, |g|, 1
  {
    var rev' := rev || Odd(level);
    PlainParts(level, hi, rev', g);
    PlainReverse(ReorderParts(level, hi, rev', g));
  }

  lemma {:induction false} PlainParts(level: int, hi: int, rev: bool, g: seq<Glyph>)
    requires AtLeast(level, g) && AtMost(hi, g) && SplitsNoRun(g)
    requires AtLeast(level, Plain(g)) && AtMost(hi, Plain(g))
    ensures Plain(ReorderParts(level, hi, rev, g)) == ReorderParts(level, hi, rev, Plain(g))
    decreases hi - level, |g|, 0
  {
    hide Reorder, ReorderParts, Plain, SplitsNoRun;
    if g == [] {
      PlainNothing(level, hi, rev);
    } else {
      if g[0].level == level {
        var tail := g[1..];
        assert g == [g[0]] + tail;
        SplitsNoRunParts([g[0]], tail);
        PlainBounds(level, hi, tail);
        PlainParts(level, hi, rev, tail);
        PlainPartsLow(level, hi, rev, g[0], tail);
      } else {
        var head, tail := FirstRun(level + 1, g);
        BoundsSplit(level, hi, head, tail);
        SplitsNoRunParts(head, tail);
        PlainBounds(level + 1, hi, head);
        PlainBounds(level, hi, tail);
        PlainReorder(level + 1, hi, rev, head);
        PlainParts(level, hi, rev, tail);
        PlainPartsHigh(level, hi, rev, head, tail);
      }
    }
  }

  // Rule L1 gives the controls levels that split no run.

  lemma {:induction false} BreakThrough(s: seq<Cls>, j: nat, m: nat)
    requires j <= m < |s| && LeadsToBreak(s[j..]) && forall x :: j <= x < m ==> IsControl(s[x])
    ensures LeadsToBreak(s[m..])
    decreases m - j
  {
    if j < m {
      BreakStep(s, j);
      BreakThrough(s, j + 1, m);
    }
  }

  lemma {:induction false} LevelThrough(base: int, s: seq<Cls>, lv: seq<int>, i: nat, j: nat)
    requires i < j < |s| == |lv| && !LeadsToBreak(s[j..]) && forall x :: i < x <= j ==> IsControl(s[x])
    ensures L1Level(base, s, lv, j) == L1Level(base, s, lv, i)
    decreases j - i
  {
    if i + 1 < j {
      BreakStep(s, j - 1);
      LevelThrough(base, s, lv, i, j - 1);
    }
  }

  lemma L1SplitsNoRun(base: int, text: seq<char>, s: seq<Cls>, lv: seq<int>)
    requires |text| == |s| == |lv|
    ensures SplitsNoRun(Glyphs(text, L1(base, s, lv), s))
  {
    var g := Glyphs(text, L1(base, s, lv), s);
    forall i: nat, m: nat, j | Gap(g, i, m) && i < j < m
      ensures g[j].level >= g[i].level || g[j].level >= g[m].level
    {
      assert forall x :: i < x < m ==> g[x].control == IsControl(s[x]);
      if LeadsToBreak(s[j..]) {
        BreakThrough(s, j, m);
      } else {
        LevelThrough(base, s, lv, i, j);
      }
    }
  }

  // The claim on lines.

  lemma {:induction false} PlainGlyphs(text: seq<char>, lv: seq<int>, s: seq<Cls>)
    requires |text| == |lv| == |s|
    ensures var m := NotControl(s);
            Plain(Glyphs(text, lv, s)) == Glyphs(Keep(m, text), Keep(m, lv), Keep(m, s))
    decreases |s|
  {
    if s != [] {
      var g := Glyphs(text, lv, s);
      NotControlTail(s);
      PlainGlyphs(text[1..], lv[1..], s[1..]);
      assert g[1..] == Glyphs(text[1..], lv[1..], s[1..]);
    }
  }

  lemma {:induction false} KeepMirrored(m: seq<bool>, text: seq<char>, lv: seq<int>)
    requires |m| == |text| == |lv|
    ensures Keep(m, Mirrored(text, lv)) == Mirrored(Keep(m, text), Keep(m, lv))
    decreases |m|
  {
    if m != [] {
      assert Mirrored(text, lv)[1..] == Mirrored(text[1..], lv[1..]);
      KeepMirrored(m[1..], text[1..], lv[1..]);
    }
  }

  /** Rules L1 and L4 prepare the other characters of a line as if the controls had been removed. */
  lemma PlainLogicalLine(base: int, mirror: bool, text: seq<char>, s: seq<Cls>, lv: seq<int>)
    requires |text| == |s| == |lv|
    ensures var m := NotControl(s);
            Plain(LogicalLine(base, mirror, text, s, lv))
            == LogicalLine(base, mirror, Keep(m, text), Keep(m, s), Keep(m, lv))
  {
    var m := NotControl(s);
    var l := L1(base, s, lv);
    L1WithoutControls(base, s, lv);
    KeepMirrored(m, text, l);
    PlainGlyphs(if mirror then Mirrored(text, l) else text, l, s);
  }

  /** The bound on the levels plays no part in the reordering. */
  lemma {:induction false} ReorderAnyHigh(level: int, hi: int, hi': int, rev: bool, g: seq<Glyph>)
    requires AtLeast(level, g) && AtMost(hi, g) && AtMost(hi', g)
    ensures Reorder(level, hi, rev, g) == Reorder(level, hi', rev, g)
    decreases hi - level, |g|, 1
  {
    PartsAnyHigh(level, hi, hi', rev || Odd(level), g);
  }

  /** Removing the controls from a displayed line gives the display of the line without controls. */
  lemma DisplayWithoutControls(base: int, mirror: bool, text: seq<char>, s: seq<Cls>, lv: seq<int>)
    requires |text| == |s| == |lv| && NoneBelow(base, lv)
    ensures var m := NotControl(s);
            Plain(RuleL2(base, LogicalLine(base, mirror, text, s, lv)))
            == RuleL2(base, LogicalLine(base, mirror, Keep(m, text), Keep(m, s), Keep(m, lv)))
  {
    var g := LogicalLine(base, mirror, text, s, lv);
    var p := Plain(g);
    LogicalNotBelow(base, mirror, text, s, lv);
    L1SplitsNoRun(base, if mirror then Mirrored(text, L1(base, s, lv)) else text, s, lv);
    HighestBounds(base, g);
    PlainBounds(base, Highest(base, g), g);
    PlainReorder(base, Highest(base, g), false, g);
    ReorderIsL2(base, g);
    ReorderIsL2(base, p);
    ReorderAnyHigh(base, Highest(base, g), Highest(base, p), false, p);
    PlainLogicalLine(base, mirror, text, s, lv);
  }

  lemma {:induction false} PartsAnyHigh(level: int, hi: int, hi': int, rev: bool, g: seq<Glyph>)
    requires AtLeast(level, g) && AtMost(hi, g) && AtMost(hi', g)
    ensures ReorderParts(level, hi, rev, g) == ReorderParts(level, hi', rev, g)
    decreases hi - level, |g|, 0
  {
    if g != [] {
      if g[0].level == level {
        var tail := g[1..];
        assert g == [g[0]] + tail;
        PartsAnyHigh(level, hi, hi', rev, tail);
        PartsLow(level, hi, rev, g[0], tail);
        PartsLow(level, hi', rev, g[0], tail);
      } else {
        var head, tail := FirstRun(level + 1, g);
        BoundsSplit(level, hi, head, tail);
        BoundsSplit(level, hi', head, tail);
        ReorderAnyHigh(level + 1, hi, hi', rev, head);
        PartsAnyHigh(level, hi, hi', rev, tail);
        PartsHigh(level, hi, rev, head, tail);
        PartsHigh(level, hi', rev, head, tail);
      }
    }
  }
}
