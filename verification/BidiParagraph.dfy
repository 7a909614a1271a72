/** From a line to the paragraph: the display of all lines, with and without the controls. */
module BidiParagraph {
  import opened BidiClasses
  import opened BidiReorder
  import opened BidiReorderPass
  import opened BidiWhitespace
  import opened BidiLines
  import opened BidiRemoval

  /** The paragraph in display order, with levels: rule L2 on one logical line after the other. */
  function DisplayGlyphs(base: int, mirror: bool, s: Stretch): (r: seq<Glyph>)
    requires s.Valid()
    ensures |r| == |s.text|
    decreases |s.text|
  {
    if s.text == [] then []
    else
      var n := FirstLine(s.text, s.brk);
      var line := s.Take(n);
      RuleL2(base, LogicalLine(base, mirror, line.text, line.cls, line.lev)) + DisplayGlyphs(base, mirror, s.Drop(n))
  }

  lemma {:induction false} GlyphsAreLines(base: int, mirror: bool, s: Stretch)
    requires s.Valid()
    ensures Chars(DisplayGlyphs(base, mirror, s)) == DisplayLines(base, mirror, s)
    decreases |s.text|
  {
    hide RuleL2, LogicalLine;
    if s.text != [] {
      GlyphsAreLines(base, mirror, s.Drop(FirstLine(s.text, s.brk)));
    }
  }

  // No character is lost and none changes its line.

  /** The paragraph in logical order, after rule L1 and mirroring line by line. */
  function LogicalGlyphs(base: int, mirror: bool, s: Stretch): (r: seq<Glyph>)
    requires s.Valid()
    ensures |r| == |s.text|
    decreases |s.text|
  {
    if s.text == [] then []
    else
      var n := FirstLine(s.text, s.brk);
      var line := s.Take(n);
      LogicalLine(base, mirror, line.text, line.cls, line.lev) + LogicalGlyphs(base, mirror, s.Drop(n))
  }

  /** Position i is where a line begins, or the end. */
  predicate LineStart(s: Stretch, i: nat)
    requires s.Valid()
    decreases |s.text|
  {
    i == 0 || (i <= |s.text| && s.text != [] && i >= FirstLine(s.text, s.brk)
               && LineStart(s.Drop(FirstLine(s.text, s.brk)), i - FirstLine(s.text, s.brk)))
  }

  lemma RuleL2Permutes(base: int, g: seq<Glyph>)
    ensures multiset(RuleL2(base, g)) == multiset(g)
  {
    DownPermutes(Highest(base, g), LowestOdd(base, Highest(base, g), g), g);
  }

  lemma PermuteStep(a: seq<Glyph>, b: seq<Glyph>, d: seq<Glyph>, l: seq<Glyph>, i: nat)
    requires |a| == |b| <= i && i - |a| <= |d| && i - |a| <= |l|
    requires multiset(a) == multiset(b) && multiset(d[..i - |a|]) == multiset(l[..i - |a|])
    ensures multiset((a + d)[..i]) == multiset((b + l)[..i])
  {
    assert (a + d)[..i] == a + d[..i - |a|];
    assert (b + l)[..i] == b + l[..i - |a|];
  }

  lemma FirstLineFirst(base: int, mirror: bool, s: Stretch)
    requires s.Valid() && s.text != []
    ensures var n := FirstLine(s.text, s.brk);
            var g := LogicalLine(base, mirror, s.text[..n], s.cls[..n], s.lev[..n]);
            && DisplayGlyphs(base, mirror, s) == RuleL2(base, g) + DisplayGlyphs(base, mirror, s.Drop(n))
            && LogicalGlyphs(base, mirror, s) == g + LogicalGlyphs(base, mirror, s.Drop(n))
  {}

  /** Up to every line start, the display is a permutation of the text. */
  lemma {:induction false} LinesPermute(base: int, mirror: bool, s: Stretch, i: nat)
    requires s.Valid() && LineStart(s, i) && i <= |s.text|
    ensures multiset(DisplayGlyphs(base, mirror, s)[..i]) == multiset(LogicalGlyphs(base, mirror, s)[..i])
    decreases |s.text|
  {
    hide RuleL2, LogicalLine, DisplayGlyphs, LogicalGlyphs;
    if i > 0 {
      var n := FirstLine(s.text, s.brk);
      var g := LogicalLine(base, mirror, s.text[..n], s.cls[..n], s.lev[..n]);
      RuleL2Permutes(base, g);
      LinesPermute(base, mirror, s.Drop(n), i - n);
      FirstLineFirst(base, mirror, s);
      PermuteStep(RuleL2(base, g), g, DisplayGlyphs(base, mirror, s.Drop(n)),
                  LogicalGlyphs(base, mirror, s.Drop(n)), i);
    }
  }

  // Removing the controls.

  function WithoutControls(s: Stretch): (r: Stretch)
    requires s.Valid()
    ensures r.Valid()
  {
    var m := NotControl(s.cls);
    Stretch(Keep(m, s.text), Keep(m, s.cls), Keep(m, s.lev), Keep(m, s.brk))
  }

  /** Lines end behind characters that are not controls. */
  predicate BreaksKept(s: Stretch)
    requires s.Valid()
  {
    forall i :: 0 <= i < |s.text| && (s.text[i] == LS || s.brk[i]) ==> !IsControl(s.cls[i])
  }

  lemma {:induction false} KeepConcat<T>(m: seq<bool>, m': seq<bool>, s: seq<T>, s': seq<T>)
    requires |m| == |s| && |m'| == |s'|
    ensures Keep(m + m', s + s') == Keep(m, s) + Keep(m', s')
    decreases |m|
  {
    if m == [] {
      assert m + m' == m' && s + s' == s';
    } else {
      assert (m + m')[1..] == m[1..] + m' && (s + s')[1..] == s[1..] + s';
      KeepConcat(m[1..], m', s[1..], s');
    }
  }

  lemma KeepSplit<T>(m: seq<bool>, s: seq<T>, n: nat)
    requires |m| == |s| && n <= |s|
    ensures Keep(m, s) == Keep(m[..n], s[..n]) + Keep(m[n..], s[n..])
  {
    hide Keep, Count;
    KeepConcat(m[..n], m[n..], s[..n], s[n..]);
    assert m[..n] + m[n..] == m && s[..n] + s[n..] == s;
  }

  lemma {:induction false} KeptFirstLine(m: seq<bool>, text: seq<char>, brk: seq<bool>)
    requires |m| == |text| == |brk|
    requires forall i :: 0 <= i < |text| && (text[i] == LS || brk[i]) ==> m[i]
    ensures FirstLine(Keep(m, text), Keep(m, brk)) == Count(m[..FirstLine(text, brk)])
    decreases |m|
  {
    if m != [] {
      var n := FirstLine(text, brk);
      if text[0] == LS || brk[0] {
        assert m[..1] == [m[0]];
      } else {
        KeptFirstLine(m[1..], text[1..], brk[1..]);
        assert m[..n][1..] == m[1..][..n - 1];
        if m[0] {
          var kt, kb := Keep(m[1..], text[1..]), Keep(m[1..], brk[1..]);
          assert ([text[0]] + kt)[1..] == kt && ([brk[0]] + kb)[1..] == kb;
        }
      }
    }
  }

  lemma SplitWithoutControls(s: Stretch, n: nat)
    requires s.Valid() && n <= |s.text|
    ensures var k := WithoutControls(s);
            var c := Count(NotControl(s.cls)[..n]);
            && c <= |k.text| && k.Take(c) == WithoutControls(s.Take(n)) && k.Drop(c) == WithoutControls(s.Drop(n))
  {
    var m := NotControl(s.cls);
    assert m[..n] == NotControl(s.cls[..n]) && m[n..] == NotControl(s.cls[n..]);
    KeepSplit(m, s.text, n);
    KeepSplit(m, s.cls, n);
    KeepSplit(m, s.lev, n);
    KeepSplit(m, s.brk, n);
  }

  /** The display of a paragraph is that of its first line, which may be empty when nothing follows, and
      that of the others. */
  lemma PrependLine(base: int, mirror: bool, s: Stretch, line: Stretch, rest: Stretch)
    requires s.Valid() && line.Valid() && rest.Valid() && FirstLine(s.text, s.brk) == |line.text|
    requires s.Take(|line.text|) == line && s.Drop(|line.text|) == rest
    ensures DisplayGlyphs(base, mirror, s)
            == RuleL2(base, LogicalLine(base, mirror, line.text, line.cls, line.lev))
               + DisplayGlyphs(base, mirror, rest)
  {
    hide RuleL2, LogicalLine;
    if s.text == [] {
      assert RuleL2(base, LogicalLine(base, mirror, line.text, line.cls, line.lev)) == [];
    }
  }

  /** Removing the controls from the displayed paragraph gives the display of the paragraph from which
      they were removed first. */
  lemma {:induction false} ParagraphWithoutControls(base: int, mirror: bool, s: Stretch)
    requires s.Valid() && NoneBelow(base, s.lev) && BreaksKept(s)
    ensures Plain(DisplayGlyphs(base, mirror, s)) == DisplayGlyphs(base, mirror, WithoutControls(s))
    decreases |s.text|
  {
    hide RuleL2, LogicalLine;
    if s.text != [] {
      var n := FirstLine(s.text, s.brk);
      var line, rest := s.Take(n), s.Drop(n);
      ParagraphWithoutControls(base, mirror, rest);
      DisplayWithoutControls(base, mirror, line.text, line.cls, line.lev);
      PlainConcat(RuleL2(base, LogicalLine(base, mirror, line.text, line.cls, line.lev)),
                  DisplayGlyphs(base, mirror, rest));
      KeptFirstLine(NotControl(s.cls), s.text, s.brk);
      SplitWithoutControls(s, n);
      PrependLine(base, mirror, WithoutControls(s), WithoutControls(line), WithoutControls(rest));
    }
  }

  // Rule L1 makes the levels of separators irrelevant.

  predicate SameButSeparators(s: seq<Cls>, lv: seq<int>, lv': seq<int>) {
    |s| == |lv| == |lv'| && forall i :: 0 <= i < |s| ==> lv[i] == lv'[i] || IsSeparator(s[i])
  }

  lemma {:induction false} L1LevelSame(base: int, s: seq<Cls>, lv: seq<int>, lv': seq<int>, i: nat)
    requires SameButSeparators(s, lv, lv') && i < |s|
    ensures L1Level(base, s, lv, i) == L1Level(base, s, lv', i)
    decreases i
  {
    if i > 0 {
      L1LevelSame(base, s, lv, lv', i - 1);
    }
  }

  lemma LineSame(base: int, mirror: bool, text: seq<char>, s: seq<Cls>, lv: seq<int>, lv': seq<int>)
    requires |text| == |s| && SameButSeparators(s, lv, lv')
    ensures LogicalLine(base, mirror, text, s, lv) == LogicalLine(base, mirror, text, s, lv')
  {
    forall i | 0 <= i < |s|
      ensures L1(base, s, lv)[i] == L1(base, s, lv')[i]
    {
      L1LevelSame(base, s, lv, lv', i);
    }
    assert L1(base, s, lv) == L1(base, s, lv');
  }

  lemma {:induction false} DisplaySame(base: int, mirror: bool, s: Stretch, lv: seq<int>)
    requires s.Valid() && SameButSeparators(s.cls, s.lev, lv)
    ensures DisplayGlyphs(base, mirror, s) == DisplayGlyphs(base, mirror, Stretch(s.text, s.cls, lv, s.brk))
    decreases |s.text|
  {
    hide RuleL2, LogicalLine;
    if s.text != [] {
      var n := FirstLine(s.text, s.brk);
      var s' := Stretch(s.text, s.cls, lv, s.brk);
      LineSame(base, mirror, s.text[..n], s.cls[..n], s.lev[..n], lv[..n]);
      DisplaySame(base, mirror, s.Drop(n), lv[n..]);
      assert s'.Drop(n) == Stretch(s.text[n..], s.cls[n..], lv[n..], s.brk[n..]);
    }
  }
}
