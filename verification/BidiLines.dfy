/** The line-by-line phase: line breaks, rule L1, mirroring (L4) and reordering (L2). */
module BidiLines {
  import opened BidiClasses
  import opened BidiReorder
  import opened BidiReorderPass
  import opened BidiWhitespace

  /** The line separator character. */
  const LS: char := 0x15 as char

  /** A stretch of text: characters, classes, levels and line-break flags. */
  datatype Stretch = Stretch(text: seq<char>, cls: seq<Cls>, lev: seq<int>, brk: seq<bool>)
  {
    predicate Valid() {
      |text| == |cls| == |lev| == |brk|
    }

    function Take(n: nat): (s: Stretch)
      requires Valid() && n <= |text|
      ensures s.Valid() && |s.text| == n
    {
      Stretch(text[..n], cls[..n], lev[..n], brk[..n])
    }

    function Drop(n: nat): (s: Stretch)
      requires Valid() && n <= |text|
      ensures s.Valid() && |s.text| == |text| - n
    {
      Stretch(text[n..], cls[n..], lev[n..], brk[n..])
    }
  }

  /** The number of characters on the first line: up to and including the first line separator or
      flagged character, or all of them. */
  function FirstLine(text: seq<char>, brk: seq<bool>): (n: nat)
    requires |text| == |brk|
    ensures n <= |text| && (text != [] ==> n > 0)
    ensures forall i :: 0 <= i < n - 1 ==> text[i] != LS && !brk[i]
    ensures n < |text| ==> text[n - 1] == LS || brk[n - 1]
    decreases |text|
  {
    if text == [] then 0
    else if text[0] == LS || brk[0] then 1
    else 1 + FirstLine(text[1..], brk[1..])
  }

  /** The stretch s is what stands in the arrays from position at on; without an array of break flags
      there are no flags. */
  ghost predicate Stands(text: array<char>, pcls: array<Cls>, plevel: array<int>, pbrk: array?<bool>, at: int,
                         s: Stretch)
    reads text, pcls, plevel, pbrk
  {
    && s.Valid() && 0 <= at && at + |s.text| <= text.Length == pcls.Length == plevel.Length
    && (pbrk != null ==> pbrk.Length == text.Length)
    && (forall j :: at <= j < at + |s.text| ==> text[j] == s.text[j - at])
    && (forall j :: at <= j < at + |s.text| ==> pcls[j] == s.cls[j - at])
    && (forall j :: at <= j < at + |s.text| ==> plevel[j] == s.lev[j - at])
    && (pbrk == null ==> forall i :: 0 <= i < |s.brk| ==> !s.brk[i])
    && (pbrk != null ==> forall j :: at <= j < at + |s.text| ==> pbrk[j] == s.brk[j - at])
  }

  lemma StandsDrop(text: array<char>, pcls: array<Cls>, plevel: array<int>, pbrk: array?<bool>, at: int, s: Stretch,
                   n: nat)
    requires s.Valid() && 0 <= at && at + |s.text| <= text.Length == pcls.Length == plevel.Length && n <= |s.text|
    requires pbrk != null ==> pbrk.Length == text.Length
    requires forall j :: at + n <= j < at + |s.text| ==> text[j] == s.text[j - at]
    requires forall j :: at + n <= j < at + |s.text| ==> pcls[j] == s.cls[j - at]
    requires forall j :: at + n <= j < at + |s.text| ==> plevel[j] == s.lev[j - at]
    requires pbrk == null ==> forall i :: 0 <= i < |s.brk| ==> !s.brk[i]
    requires pbrk != null ==> forall j :: at + n <= j < at + |s.text| ==> pbrk[j] == s.brk[j - at]
    ensures Stands(text, pcls, plevel, pbrk, at + n, s.Drop(n))
  {
    var d := s.Drop(n);
    forall j | at + n <= j < at + |s.text|
      ensures text[j] == d.text[j - (at + n)] && pcls[j] == d.cls[j - (at + n)] && plevel[j] == d.lev[j - (at + n)]
    {
      assert d.text[j - (at + n)] == s.text[j - at];
    }
  }

  /** The first line of the stretch s that begins at start. */
  method ResolveLines(text: array<char>, pbrk: array?<bool>, start: nat, cch: nat,
                      ghost pcls: array<Cls>, ghost plevel: array<int>, ghost s: Stretch) returns (n: nat)
    requires Stands(text, pcls, plevel, pbrk, start, s) && cch == |s.text|
    ensures n == FirstLine(s.text, s.brk)
  {
    n := 0;
    ghost var t, b := s.text, s.brk;
    while n < cch
      invariant 0 <= n <= cch
      invariant t == s.text[n..] && b == s.brk[n..]
      invariant FirstLine(s.text, s.brk) == n + FirstLine(t, b)
    {
      assert t[0] == text[start + n] && b[0] == (pbrk != null && pbrk[start + n]);
      n := n + 1;
      if text[start + n - 1] == LS || (pbrk != null && pbrk[start + n - 1]) {
        return;
      }
      t, b := t[1..], b[1..];
    }
  }

  /** Rule L4 for the paired characters the implementation knows. */
  function MirrorChar(ch: char, level: int): char {
    if !Odd(level) then ch
    else if ch == '<' then '>' else if ch == '>' then '<'
    else if ch == ')' then '(' else if ch == '(' then ')'
    else ch
  }

  lemma MirrorTwice(ch: char, level: int)
    ensures MirrorChar(MirrorChar(ch, level), level) == ch
  {}

  function Mirrored(text: seq<char>, lv: seq<int>): (r: seq<char>)
    requires |text| == |lv|
    ensures |r| == |text| && forall i :: 0 <= i < |text| ==> r[i] == MirrorChar(text[i], lv[i])
  {
    seq(|text|, i requires 0 <= i < |text| => MirrorChar(text[i], lv[i]))
  }

  method Mirror(text: array<char>, plevel: array<int>, start: nat, cch: nat)
    requires start + cch <= text.Length == plevel.Length
    modifies text
    ensures forall j :: start <= j < start + cch ==> text[j] == MirrorChar(old(text[j]), plevel[j])
    ensures forall j :: 0 <= j < start ==> text[j] == old(text[j])
    ensures forall j :: start + cch <= j < text.Length ==> text[j] == old(text[j])
  {
    for ich := start to start + cch
      invariant forall j :: start <= j < ich ==> text[j] == MirrorChar(old(text[j]), plevel[j])
      invariant forall j :: 0 <= j < start ==> text[j] == old(text[j])
      invariant forall j :: ich <= j < text.Length ==> text[j] == old(text[j])
    {
      if !Odd(plevel[ich]) {
        continue;
      }
      if text[ich] == '<' {
        text[ich] := '>';
      } else if text[ich] == '>' {
        text[ich] := '<';
      } else if text[ich] == ')' {
        text[ich] := '(';
      } else if text[ich] == '(' {
        text[ich] := ')';
      }
    }
  }

  function Glyphs(text: seq<char>, lv: seq<int>, cls: seq<Cls>): (g: seq<Glyph>)
    requires |text| == |lv| == |cls|
    ensures |g| == |text|
    ensures forall i :: 0 <= i < |g| ==> g[i] == Glyph(text[i], lv[i], IsControl(cls[i]))
  {
    seq(|text|, i requires 0 <= i < |text| => Glyph(text[i], lv[i], IsControl(cls[i])))
  }

  /** A line in logical order, ready for reordering: levels after L1, characters mirrored. */
  function LogicalLine(base: int, mirror: bool, text: seq<char>, cls: seq<Cls>, lv: seq<int>): (g: seq<Glyph>)
    requires |text| == |cls| == |lv|
    ensures |g| == |text|
  {
    var l := L1(base, cls, lv);
    Glyphs(if mirror then Mirrored(text, l) else text, l, cls)
  }

  predicate NoneBelow(base: int, lv: seq<int>) {
    forall i :: 0 <= i < |lv| ==> lv[i] >= base
  }

  /** The reordering of a line whose levels are not below the base level: rule L2. */
  method ReorderLine(baselevel: int, text: array<char>, plevel: array<int>, start: nat, cch: nat, ghost g: seq<Glyph>)
    requires |g| == cch && Shows(text, plevel, start, g) && AtLeast(baselevel, g)
    modifies text
    ensures ShowsChars(text, start, RuleL2(baselevel, g))
    ensures forall j :: 0 <= j < start ==> text[j] == old(text[j])
    ensures forall j :: start + cch <= j < text.Length ==> text[j] == old(text[j])
  {
    ghost var hi := Highest(baselevel, g);
    HighestBounds(baselevel, g);
    var ich := 0;
    assert g + [] == g;
    while ich < cch
      invariant ich == 0 || ich == cch
      invariant ich == 0 ==> Shows(text, plevel, start, g)
      invariant ich == cch > 0 ==> ShowsChars(text, start, Reorder(baselevel, hi, false, g))
      invariant forall j :: 0 <= j < start ==> text[j] == old(text[j])
      invariant forall j :: start + cch <= j < text.Length ==> text[j] == old(text[j])
      decreases cch - ich
    {
      var used := ReorderLevel(baselevel, text, plevel, start + ich, cch - ich, false, hi, g, []);
      ich := ich + used;
    }
    ReorderIsL2(baselevel, g);
  }

  lemma {:induction false} L1NotBelow(base: int, s: seq<Cls>, lv: seq<int>, i: nat)
    requires i < |s| == |lv| && NoneBelow(base, lv)
    ensures L1Level(base, s, lv, i) >= base
    decreases i
  {
    if i > 0 {
      L1NotBelow(base, s, lv, i - 1);
    }
  }

  lemma LogicalNotBelow(base: int, mirror: bool, text: seq<char>, cls: seq<Cls>, lv: seq<int>)
    requires |text| == |cls| == |lv| && NoneBelow(base, lv)
    ensures AtLeast(base, LogicalLine(base, mirror, text, cls, lv))
  {
    forall i | 0 <= i < |text|
      ensures LogicalLine(base, mirror, text, cls, lv)[i].level >= base
    {
      L1NotBelow(base, cls, lv, i);
    }
  }

  /** A line in display order: rule L2 on the logical line. */
  function DisplayLine(base: int, mirror: bool, s: Stretch): (r: seq<char>)
    requires s.Valid()
    ensures |r| == |s.text|
  {
    Chars(RuleL2(base, LogicalLine(base, mirror, s.text, s.cls, s.lev)))
  }

  /** A paragraph in display order: its lines one after the other. */
  function DisplayLines(base: int, mirror: bool, s: Stretch): (r: seq<char>)
    requires s.Valid()
    ensures |r| == |s.text|
    decreases |s.text|
  {
    if s.text == [] then []
    else
      var n := FirstLine(s.text, s.brk);
      DisplayLine(base, mirror, s.Take(n)) + DisplayLines(base, mirror, s.Drop(n))
  }

  /** Rule L1 and the mirroring, on the line s that begins at start. */
  method PrepareLine(baselevel: int, text: array<char>, pcls: array<Cls>, plevel: array<int>, start: nat, cch: nat,
                     fMirror: bool, ghost pbrk: array?<bool>, ghost s: Stretch)
    requires Stands(text, pcls, plevel, pbrk, start, s) && cch == |s.text|
    modifies text, plevel
    ensures Shows(text, plevel, start, LogicalLine(baselevel, fMirror, s.text, s.cls, s.lev))
    ensures forall j :: 0 <= j < start ==> text[j] == old(text[j])
    ensures forall j :: start + cch <= j < text.Length ==> text[j] == old(text[j])
    ensures forall j :: start + cch <= j < text.Length ==> plevel[j] == old(plevel[j])
  {
    assert pcls[start..start + cch] == s.cls && plevel[start..start + cch] == s.lev;
    ghost var behind := plevel[start + cch..];
    ResolveWhitespace(baselevel, pcls, plevel, start, cch);
    ghost var l := plevel[start..start + cch];
    assert l == L1(baselevel, s.cls, s.lev);
    forall j | start <= j < start + cch
      ensures plevel[j] == l[j - start]
    {}
    forall j | start + cch <= j < text.Length
      ensures plevel[j] == old(plevel[j])
    {
      assert behind[j - (start + cch)] == plevel[start + cch..][j - (start + cch)];
    }
    if fMirror {
      Mirror(text, plevel, start, cch);
    }
  }

  lemma ShowsSlice(text: array<char>, start: nat, g: seq<Glyph>)
    requires ShowsChars(text, start, g)
    ensures text[start..start + |g|] == Chars(g)
  {}

  /** One line of the in-place phase. */
  method BidiLine(baselevel: int, text: array<char>, pcls: array<Cls>, plevel: array<int>, start: nat, cch: nat,
                  fMirror: bool, ghost pbrk: array?<bool>, ghost s: Stretch)
    requires Stands(text, pcls, plevel, pbrk, start, s) && cch == |s.text| && NoneBelow(baselevel, s.lev)
    modifies text, plevel
    ensures text[start..start + cch] == DisplayLine(baselevel, fMirror, s)
    ensures forall j :: 0 <= j < start ==> text[j] == old(text[j])
    ensures forall j :: start + cch <= j < text.Length ==> text[j] == old(text[j])
    ensures forall j :: start + cch <= j < text.Length ==> plevel[j] == old(plevel[j])
  {
    hide RuleL2, LogicalLine;
    ghost var g := LogicalLine(baselevel, fMirror, s.text, s.cls, s.lev);
    LogicalNotBelow(baselevel, fMirror, s.text, s.cls, s.lev);
    PrepareLine(baselevel, text, pcls, plevel, start, cch, fMirror, pbrk, s);
    ReorderLine(baselevel, text, plevel, start, cch, g);
    ShowsSlice(text, start, RuleL2(baselevel, g));
  }

  /** The loop body: the line at the head of the stretch that is left. */
  method NextLine(baselevel: int, text: array<char>, pcls: array<Cls>, plevel: array<int>, fMirror: bool,
                  pbrk: array?<bool>, start: nat, left: nat, ghost s: Stretch)
    returns (n: nat)
    requires left > 0 && Stands(text, pcls, plevel, pbrk, start, s) && left == |s.text| && NoneBelow(baselevel, s.lev)
    modifies text, plevel
    ensures 0 < n == FirstLine(s.text, s.brk) <= left
    ensures text[start..start + n] == DisplayLine(baselevel, fMirror, s.Take(n))
    ensures text[..start] == old(text[..start])
    ensures Stands(text, pcls, plevel, pbrk, start + n, s.Drop(n)) && NoneBelow(baselevel, s.Drop(n).lev)
    ensures text[..start + n] == old(text[..start]) + DisplayLine(baselevel, fMirror, s.Take(n))
  {
    hide DisplayLine;
    n := ResolveLines(text, pbrk, start, left, pcls, plevel, s);
    BidiLine(baselevel, text, pcls, plevel, start, n, fMirror, pbrk, s.Take(n));
    StandsDrop(text, pcls, plevel, pbrk, start, s, n);
    assert text[..start + n] == text[..start] + text[start..start + n];
  }

  lemma LinesStep(base: int, mirror: bool, done: seq<char>, s: Stretch)
    requires s.Valid() && s.text != []
    ensures var n := FirstLine(s.text, s.brk);
            done + DisplayLines(base, mirror, s)
            == (done + DisplayLine(base, mirror, s.Take(n))) + DisplayLines(base, mirror, s.Drop(n))
  {
    hide DisplayLine;
  }

  /** The line-by-line phase on a paragraph whose levels are not below the base level. */
  method ReorderLines(baselevel: int, text: array<char>, pcls: array<Cls>, plevel: array<int>, fMirror: bool,
                      pbrk: array?<bool>, ghost s: Stretch)
    requires s.Valid() && text.Length == |s.text| && NoneBelow(baselevel, s.lev)
    requires Stands(text, pcls, plevel, pbrk, 0, s)
    modifies text, plevel
    ensures text[..] == DisplayLines(baselevel, fMirror, s)
  {
    hide *;
    var start := 0;
    var left := text.Length;
    ghost var rest := s;
    ghost var done := [];
    while left != 0
      invariant start + left == text.Length && rest.Valid() && left == |rest.text| && NoneBelow(baselevel, rest.lev)
      invariant Stands(text, pcls, plevel, pbrk, start, rest)
      invariant text[..start] == done
      invariant DisplayLines(baselevel, fMirror, s) == done + DisplayLines(baselevel, fMirror, rest)
      decreases left
    {
      LinesStep(baselevel, fMirror, done, rest);
      var n := NextLine(baselevel, text, pcls, plevel, fMirror, pbrk, start, left, rest);
      done := done + DisplayLine(baselevel, fMirror, rest.Take(n));
      rest := rest.Drop(n);
      start := start + n;
      left := left - n;
    }
    assert text[..] == text[..start];
  }
}
