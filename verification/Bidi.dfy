/** The whole algorithm: classes, the first paragraph, the base level, the passes, the lines, and the
    removal of the formatting codes from the displayed text. */
module Bidi {
  import opened BidiClasses
  import opened BidiAlphabet
  import opened BidiWeakRules
  import opened BidiPipeline
  import opened BidiReorder
  import opened BidiWhitespace
  import opened BidiLines
  import opened BidiReorderPass
  import opened BidiRemoval
  import opened BidiParagraph

  /** The classes as the passes in front of the line phase see them. */
  function Conflate(c: Cls): Cls {
    if c.S? || c.WS? then ON else c
  }

  /** Rule P1: the length of the first paragraph, with its separator. */
  function FirstParagraph(ws: seq<Cls>): (n: nat)
    ensures n <= |ws|
    ensures forall i :: 0 <= i < n - 1 ==> !ws[i].B?
    ensures n < |ws| ==> n > 0 && ws[n - 1].B?
  {
    if ws == [] then 0 else if ws[0].B? then 1 else 1 + FirstParagraph(ws[1..])
  }

  /** The classes of one paragraph for the passes: S and WS are neutral, the separator is a BN. */
  function PassClass(c: Cls): Cls {
    if c.B? then BN else Conflate(c)
  }

  function PassClasses(ws: seq<Cls>): (s: seq<Cls>)
    ensures |s| == |ws| && ParagraphText(s)
    ensures forall i :: 0 <= i < |ws| ==> s[i] == PassClass(ws[i])
  {
    seq(|ws|, i requires 0 <= i < |ws| => PassClass(ws[i]))
  }

  /** White space, segment separators and other neutrals are one class for the passes, the paragraph separator
      is a BN, and all other classes stay. */
  lemma PassClassesAt(ws: seq<Cls>, i: nat)
    requires i < |ws|
    ensures PassClasses(ws)[i] == if ws[i] == S || ws[i] == WS then ON else if ws[i] == B then BN else ws[i]
  {}

  /** Position i holds the first strong class. */
  predicate FirstStrong(s: seq<Cls>, i: nat) {
    && i < |s| && (s[i] == L || s[i] == R || s[i] == AL)
    && forall j :: 0 <= j < i ==> s[j] != L && s[j] != R && s[j] != AL
  }

  /** Rules P2 and P3: 1 when the first strong character is not left-to-right, otherwise 0. */
  function BaseLevel(s: seq<Cls>): (level: int)
    ensures level == 0 || level == 1
  {
    if s == [] then 0 else if IsStrong(s[0]) then (if s[0].L? then 0 else 1) else BaseLevel(s[1..])
  }

  /** The first strong class is a right-to-left one. */
  ghost predicate BeginsRightToLeft(s: seq<Cls>) {
    exists i: nat :: FirstStrong(s, i) && !s[i].L?
  }

  lemma {:induction false} BaseLevelFound(s: seq<Cls>)
    ensures BaseLevel(s) == 1 <==> BeginsRightToLeft(s)
    decreases |s|
  {
    if s != [] {
      if IsStrong(s[0]) {
        assert FirstStrong(s, 0);
      } else {
        BaseLevelFound(s[1..]);
        forall i: nat
          ensures FirstStrong(s[1..], i) == FirstStrong(s, i + 1)
        {
          assert forall j :: 1 <= j < |s| ==> s[j] == s[1..][j - 1];
        }
        if i: nat :| FirstStrong(s[1..], i) && !s[1..][i].L? {
          assert FirstStrong(s, i + 1);
        }
        if i: nat :| FirstStrong(s, i) && !s[i].L? {
          assert FirstStrong(s[1..], i - 1);
        }
      }
    }
  }

  /** The controls, wherever they stand, have no part in the base level. */
  lemma {:induction false} BaseLevelWithoutControls(ws: seq<Cls>)
    ensures BaseLevel(PassClasses(ws)) == BaseLevel(Keep(NotControl(ws), ws))
    decreases |ws|
  {
    if ws != [] {
      NotControlTail(ws);
      assert PassClasses(ws)[1..] == PassClasses(ws[1..]);
      BaseLevelWithoutControls(ws[1..]);
      if !IsControl(ws[0]) {
        var k := Keep(NotControl(ws[1..]), ws[1..]);
        assert ([ws[0]] + k)[1..] == k;
      }
    }
  }

  method ResolveBaseLevel(pcls: array<Cls>, cch: nat) returns (level: int)
    requires cch <= pcls.Length
    ensures level == BaseLevel(pcls[..cch])
  {
    ghost var s := pcls[..cch];
    ghost var rest := s;
    for ich := 0 to cch
      invariant rest == s[ich..] && BaseLevel(s) == BaseLevel(rest)
    {
      assert rest[0] == pcls[ich];
      match pcls[ich] {
        case L => return 0;
        case R | AL => return 1;
        case _ =>
      }
      rest := rest[1..];
    }
    return 0;
  }

  /** The classes of a text, with or without the distinction of S, WS and ON. */
  method Classify(types: char -> Cls, text: array<char>, pcls: array<Cls>, cch: nat, fWS: bool)
    requires cch <= text.Length && cch <= pcls.Length
    modifies pcls
    ensures forall i :: 0 <= i < cch ==> pcls[i] == if fWS then types(text[i]) else Conflate(types(text[i]))
    ensures forall i :: cch <= i < pcls.Length ==> pcls[i] == old(pcls[i])
  {
    for ich := 0 to cch
      invariant forall i :: 0 <= i < ich ==> pcls[i] == if fWS then types(text[i]) else Conflate(types(text[i]))
      invariant forall i :: ich <= i < pcls.Length ==> pcls[i] == old(pcls[i])
    {
      pcls[ich] := if fWS then types(text[ich]) else Conflate(types(text[ich]));
    }
  }

  lemma {:induction false} ParagraphFound(ws: seq<Cls>, i: nat)
    requires i <= |ws| && (forall j :: 0 <= j < i ==> !ws[j].B?) && (i < |ws| ==> ws[i].B?)
    ensures FirstParagraph(ws) == if i < |ws| then i + 1 else i
    decreases i
  {
    if i > 0 {
      ParagraphFound(ws[1..], i - 1);
    }
  }

  /** Cuts the text behind the first paragraph separator, which becomes a BN. */
  method ResolveParagraphs(pcls: array<Cls>, ghost ws: seq<Cls>) returns (n: nat)
    requires |ws| == pcls.Length && forall i :: 0 <= i < |ws| ==> pcls[i] == Conflate(ws[i])
    modifies pcls
    ensures n == FirstParagraph(ws)
    ensures pcls[..n] == PassClasses(ws[..n])
  {
    n := 0;
    while n < pcls.Length && !pcls[n].B?
      invariant 0 <= n <= |ws| && forall j :: 0 <= j < n ==> !ws[j].B?
    {
      n := n + 1;
    }
    ParagraphFound(ws, n);
    if n < pcls.Length && pcls[n].B? {
      pcls[n] := BN;
      n := n + 1;
    }
  }

  /** A paragraph as the line phase gets it, without break flags. */
  function Resolved(base: int, text: seq<char>, ws: seq<Cls>): (s: Stretch)
    requires |text| == |ws| && 0 <= base <= MAX_LEVEL
    ensures s.Valid()
  {
    Stretch(text, ws, ResolvedLevels(base, PassClasses(ws)), Fill(|text|, false))
  }

  // Cleaning.

  /** The characters that the final cleaning removes: the ones that stand for codes and BN, and the
      control characters. */
  predicate IsCleaned(ch: char) {
    ch < 0x20 as char || ch == '}' || ch == '{' || ch == ']' || ch == '[' || ch == '^' || ch == '~'
  }

  function Clean(text: seq<char>): (r: seq<char>)
    ensures |r| <= |text|
    ensures forall i :: 0 <= i < |r| ==> !IsCleaned(r[i])
  {
    if text == [] then [] else if IsCleaned(text[0]) then Clean(text[1..]) else [text[0]] + Clean(text[1..])
  }

  /** The characters that the cleaning keeps: not below 0x20 and none of the six that stand for codes. */
  function Uncleaned(text: seq<char>): (m: seq<bool>)
    ensures |m| == |text|
    ensures forall i :: 0 <= i < |text| ==>
              (m[i] <==> text[i] as int >= 0x20 && text[i] !in ['{', '}', '[', ']', '^', '~'])
  {
    seq(|text|, i requires 0 <= i < |text| => !IsCleaned(text[i]))
  }

  lemma {:induction false} CleanKeeps(text: seq<char>)
    ensures Clean(text) == Keep(Uncleaned(text), text)
    decreases |text|
  {
    if text != [] {
      assert Uncleaned(text)[1..] == Uncleaned(text[1..]);
      CleanKeeps(text[1..]);
    }
  }

  lemma {:induction false} CleanConcat(a: seq<char>, b: seq<char>)
    ensures Clean(a + b) == Clean(a) + Clean(b)
    decreases |a|
  {
    if a == [] {
      assert a + b == b;
    } else {
      assert (a + b)[1..] == a[1..] + b;
      CleanConcat(a[1..], b);
    }
  }

  /** The in-place removal: n characters are left. */
  method CleanText(text: array<char>) returns (n: nat)
    modifies text
    ensures n <= text.Length && text[..n] == Clean(old(text[..]))
    ensures text[..n] == Keep(Uncleaned(old(text[..])), old(text[..]))
  {
    var cchMove := 0;
    ghost var t := text[..];
    for ich := 0 to text.Length
      invariant 0 <= cchMove <= ich
      invariant text[..ich - cchMove] == Clean(t[..ich])
      invariant forall j :: ich <= j < text.Length ==> text[j] == t[j]
    {
      assert t[..ich + 1] == t[..ich] + [t[ich]];
      CleanConcat(t[..ich], [t[ich]]);
      if IsCleaned(text[ich]) {
        cchMove := cchMove + 1;
      } else {
        text[ich - cchMove] := text[ich];
        assert text[..ich + 1 - cchMove] == text[..ich - cchMove] + [t[ich]];
      }
    }
    assert t[..text.Length] == t;
    n := text.Length - cchMove;
    CleanKeeps(t);
  }

  lemma {:induction false} CleanPlain(g: seq<Glyph>)
    requires forall i :: 0 <= i < |g| && g[i].control ==> IsCleaned(g[i].ch)
    ensures Clean(Chars(g)) == Clean(Chars(Plain(g)))
    decreases |g|
  {
    if g != [] {
      CleanPlain(g[1..]);
      assert Chars(g)[1..] == Chars(g[1..]);
      if !g[0].control {
        assert Chars([g[0]] + Plain(g[1..]))[1..] == Chars(Plain(g[1..]));
      }
    }
  }

  // The rules.

  /** Keeping the last element or not. */
  lemma KeepLast<T>(m: seq<bool>, o: seq<bool>, s: seq<T>)
    requires |m| == |o| == |s| > 0 && m[|m| - 1] && !o[|m| - 1] && m[..|m| - 1] == o[..|m| - 1]
    ensures Keep(m, s) == Keep(o, s) + [s[|s| - 1]]
  {
    var k := |m| - 1;
    KeepSplit(m, s, k);
    KeepSplit(o, s, k);
    assert m[k..] == [true] && o[k..] == [false] && s[k..] == [s[k]];
  }

  lemma MaskAt(ws: seq<Cls>, i: nat)
    requires i < |ws|
    ensures NotControl(ws)[i] == (Ordinary(PassClasses(ws))[i] || ws[i].B?)
    ensures ws[i].B? ==> !Ordinary(PassClasses(ws))[i]
  {
    assert PassClasses(ws)[i] == PassClass(ws[i]);
  }

  /** The two masks differ in the separator only. */
  lemma MasksApart(ws: seq<Cls>)
    requires FirstParagraph(ws) == |ws|
    ensures var m, o, k := NotControl(ws), Ordinary(PassClasses(ws)), |ws| - 1;
            if ws != [] && ws[k].B? then m[..k] == o[..k] && m[k] && !o[k] else m == o
  {
    hide *;
    forall i | 0 <= i < |ws|
      ensures NotControl(ws)[i] == (Ordinary(PassClasses(ws))[i] || ws[i].B?)
      ensures ws[i].B? ==> !Ordinary(PassClasses(ws))[i]
    {
      MaskAt(ws, i);
    }
  }

  lemma SeparatorApart(base: int, ws: seq<Cls>, r: seq<int>, rules: seq<int>)
    requires FirstParagraph(ws) == |ws| == |r| && Keep(Ordinary(PassClasses(ws)), r) == rules
    ensures SameButSeparators(Keep(NotControl(ws), ws), Keep(NotControl(ws), r),
                              rules + (if ws != [] && ws[|ws| - 1].B? then [base] else []))
  {
    hide Keep, Count, NotControl, Ordinary, PassClasses, FirstParagraph;
    var m, o := NotControl(ws), Ordinary(PassClasses(ws));
    MasksApart(ws);
    if ws != [] && ws[|ws| - 1].B? {
      KeepLast(m, o, ws);
      KeepLast(m, o, r);
    }
  }

  /** The levels that the passes give the characters other than controls are those of the rules; the
      separator, which the passes treat as a BN, stands apart. */
  lemma KeptLevels(base: int, ws: seq<Cls>)
    requires FirstParagraph(ws) == |ws| && 0 <= base <= MAX_LEVEL
    ensures var m := NotControl(ws);
            var lv := RuleLevels(base, PassClasses(ws)) + (if ws != [] && ws[|ws| - 1].B? then [base] else []);
            SameButSeparators(Keep(m, ws), Keep(m, ResolvedLevels(base, PassClasses(ws))), lv)
  {
    hide *;
    PassesAreRules(base, PassClasses(ws));
    SeparatorApart(base, ws, ResolvedLevels(base, PassClasses(ws)), RuleLevels(base, PassClasses(ws)));
  }

  /** The paragraph by the rules: X1 to X8 give levels, X9 removes the controls, X10, W1 to W7, N1, N2, I1
      and I2 resolve the levels of what is left, and L1, L4 and L2 bring its lines in display order.  The
      separator at the end has the base level. */
  function RuleDisplay(base: int, mirror: bool, text: seq<char>, ws: seq<Cls>): (r: seq<Glyph>)
    requires |text| == |ws| && FirstParagraph(ws) == |ws| && 0 <= base <= MAX_LEVEL
  {
    var m := NotControl(ws);
    var lv := RuleLevels(base, PassClasses(ws)) + (if ws != [] && ws[|ws| - 1].B? then [base] else []);
    KeptLevels(base, ws);
    DisplayGlyphs(base, mirror, Stretch(Keep(m, text), Keep(m, ws), lv, Fill(Count(m), false)))
  }

  lemma {:induction false} KeepFill(m: seq<bool>)
    ensures Keep(m, Fill(|m|, false)) == Fill(Count(m), false)
    decreases |m|
  {
    if m != [] {
      assert Fill(|m|, false)[1..] == Fill(|m| - 1, false);
      KeepFill(m[1..]);
    }
  }

  /** The display of a paragraph by the passes, which leave all controls in place, shows the other
      characters exactly as the rules do, which remove the controls first. */
  lemma DisplayIsRules(base: int, mirror: bool, text: seq<char>, ws: seq<Cls>)
    requires |text| == |ws| && FirstParagraph(ws) == |ws| && 0 <= base <= MAX_LEVEL
    requires forall i :: 0 <= i < |text| && text[i] == LS ==> !IsControl(ws[i])
    ensures Plain(DisplayGlyphs(base, mirror, Resolved(base, text, ws))) == RuleDisplay(base, mirror, text, ws)
  {
    var s := Resolved(base, text, ws);
    LevelsWithin(base, PassClasses(ws));
    ParagraphWithoutControls(base, mirror, s);
    KeptLevels(base, ws);
    var k := WithoutControls(s);
    var lv := RuleLevels(base, PassClasses(ws)) + (if ws != [] && ws[|ws| - 1].B? then [base] else []);
    DisplaySame(base, mirror, k, lv);
    KeepFill(NotControl(ws));
  }

  /** The shown text: what the line phase displays, cleaned. */
  function Shown(base: int, mirror: bool, text: seq<char>, ws: seq<Cls>): seq<char>
    requires |text| == |ws| && 0 <= base <= MAX_LEVEL
  {
    Clean(DisplayLines(base, mirror, Resolved(base, text, ws)))
  }

  lemma ShownUnfolds(base: int, mirror: bool, text: seq<char>, ws: seq<Cls>)
    requires |text| == |ws| && 0 <= base <= MAX_LEVEL
    ensures Shown(base, mirror, text, ws) == Clean(DisplayLines(base, mirror, Resolved(base, text, ws)))
  {}

  predicate ControlsCleaned(g: seq<Glyph>) {
    forall i :: 0 <= i < |g| && g[i].control ==> IsCleaned(g[i].ch)
  }

  lemma CleanedPermute(a: seq<Glyph>, b: seq<Glyph>)
    requires multiset(a) == multiset(b) && ControlsCleaned(a)
    ensures ControlsCleaned(b)
  {
    forall i | 0 <= i < |b| && b[i].control
      ensures IsCleaned(b[i].ch)
    {
      assert b[i] in multiset(b) && b[i] in a;
    }
  }

  lemma LineControlsCleaned(base: int, mirror: bool, text: seq<char>, s: seq<Cls>, lv: seq<int>)
    requires |text| == |s| == |lv| && forall i :: 0 <= i < |s| && IsControl(s[i]) ==> IsCleaned(text[i])
    ensures ControlsCleaned(RuleL2(base, LogicalLine(base, mirror, text, s, lv)))
  {
    var g := LogicalLine(base, mirror, text, s, lv);
    assert ControlsCleaned(g);
    CleanedPermute(g, RuleL2(base, g)) by {
      RuleL2Permutes(base, g);
    }
  }

  lemma {:induction false} DisplayControlsCleaned(base: int, mirror: bool, s: Stretch)
    requires s.Valid() && forall i :: 0 <= i < |s.cls| && IsControl(s.cls[i]) ==> IsCleaned(s.text[i])
    ensures ControlsCleaned(DisplayGlyphs(base, mirror, s))
    decreases |s.text|
  {
    hide LogicalLine, RuleL2;
    if s.text != [] {
      var n := FirstLine(s.text, s.brk);
      var line := s.Take(n);
      LineControlsCleaned(base, mirror, line.text, line.cls, line.lev);
      DisplayControlsCleaned(base, mirror, s.Drop(n));
    }
  }

  /** Every control of the text stands at a character that the cleaning removes, and no line separator is
      a control. */
  predicate ControlsVanish(text: seq<char>, ws: seq<Cls>)
    requires |text| == |ws|
  {
    && (forall i :: 0 <= i < |text| && IsControl(ws[i]) ==> IsCleaned(text[i]))
    && (forall i :: 0 <= i < |text| && text[i] == LS ==> !IsControl(ws[i]))
  }

  /** When all controls are cleaned away, the shown text is the cleaned display by the rules. */
  lemma ShownIsRules(base: int, mirror: bool, text: seq<char>, ws: seq<Cls>)
    requires |text| == |ws| && FirstParagraph(ws) == |ws| && 0 <= base <= MAX_LEVEL
    requires ControlsVanish(text, ws)
    ensures Shown(base, mirror, text, ws) == Clean(Chars(RuleDisplay(base, mirror, text, ws)))
  {
    hide ResolvedLevels, RuleDisplay, DisplayGlyphs, DisplayLines;
    var s := Resolved(base, text, ws);
    GlyphsAreLines(base, mirror, s);
    DisplayControlsCleaned(base, mirror, s);
    DisplayIsRules(base, mirror, text, ws);
    CleanPlain(DisplayGlyphs(base, mirror, s));
  }

  /** A paragraph by the rules from its classes on: the base level is found by P2 and P3 in the text
      without controls, then come the levels, the lines and the cleaning. */
  function ShownByRules(mirror: bool, text: seq<char>, ws: seq<Cls>): (r: seq<char>)
    requires |text| == |ws| && FirstParagraph(ws) == |ws|
    ensures forall i :: 0 <= i < |r| ==> !IsCleaned(r[i])
  {
    Clean(Chars(RuleDisplay(BaseLevel(Keep(NotControl(ws), ws)), mirror, text, ws)))
  }

  /** The whole way of a paragraph, its base level included, is that of the rules. */
  lemma ParagraphIsRules(mirror: bool, text: seq<char>, ws: seq<Cls>)
    requires |text| == |ws| && FirstParagraph(ws) == |ws| && ControlsVanish(text, ws)
    ensures Shown(BaseLevel(PassClasses(ws)), mirror, text, ws) == ShownByRules(mirror, text, ws)
  {
    hide Shown, RuleDisplay, Clean, FirstParagraph, ControlsVanish, PassClasses;
    BaseLevelWithoutControls(ws);
    ShownIsRules(BaseLevel(PassClasses(ws)), mirror, text, ws);
  }

  /** The classes of the characters of a text. */
  function ClassesOf(types: char -> Cls, text: seq<char>): (ws: seq<Cls>)
    ensures |ws| == |text| && forall i :: 0 <= i < |text| ==> ws[i] == types(text[i])
  {
    seq(|text|, i requires 0 <= i < |text| => types(text[i]))
  }

  /** The passes and the line phase on a paragraph in place. */
  method DisplayParagraph(types: char -> Cls, base: int, mirror: bool, text: array<char>, pcls: array<Cls>,
                          plevel: array<int>)
    requires text.Length == pcls.Length == plevel.Length && (base == 0 || base == 1)
    requires pcls[..] == PassClasses(ClassesOf(types, text[..]))
    modifies text, pcls, plevel
    ensures text[..] == DisplayLines(base, mirror, Resolved(base, old(text[..]), ClassesOf(types, old(text[..]))))
  {
    hide ResolvedLevels, DisplayLines;
    ghost var s := Resolved(base, text[..], ClassesOf(types, text[..]));
    LevelsWithin(base, pcls[..]);
    ResolveLevels(base, pcls, plevel);
    Classify(types, text, pcls, text.Length, true);
    assert Stands(text, pcls, plevel, null, 0, s) by {
      forall j | 0 <= j < |s.text|
        ensures text[j] == s.text[j] && pcls[j] == s.cls[j] && plevel[j] == s.lev[j]
      {
        assert plevel[j] == plevel[..][j];
      }
    }
    ReorderLines(base, text, pcls, plevel, mirror, null, s);
  }

  /** A copy of the first n elements. */
  method Copied<T(0)>(a: array<T>, n: nat) returns (b: array<T>)
    requires n <= a.Length
    ensures fresh(b) && b[..] == a[..n]
  {
    b := new T[n];
    for i := 0 to n
      invariant b[..i] == a[..i]
    {
      b[i] := a[i];
    }
  }

  lemma ClassesOfTake(types: char -> Cls, text: seq<char>, n: nat)
    requires n <= |text|
    ensures ClassesOf(types, text[..n]) == ClassesOf(types, text)[..n]
  {}

  /** The characters of one row of the alphabet whose classes are those of controls. */
  lemma ControlOfRow(row: int, k: int)
    requires 0 <= row < 8 && 0 <= k < 16
    ensures IsControl(TypesFromChar(row, k)) ==> IsCleaned((16 * row + k) as char)
  {}

  /** The table gives the classes of controls to characters that the cleaning removes, but the cleaning
      looks at all bits: a character stays displayed exactly when it takes the class of a control from
      another one, 128 or more in front of it. */
  lemma ControlOfTable(ch: char)
    ensures IsControl(ClassFromChWS(ch)) && !IsCleaned(ch) <==> IsControl(ClassFromChWS(ch)) && ch as int >= 128
  {
    ControlOfRow(ch as int % 128 / 16, ch as int % 16);
  }

  lemma LineSeparatorStays()
    ensures !IsControl(ClassFromChWS(LS))
  {}

  /** So the text is displayed by the rules whenever it keeps to the alphabet, and also beyond it unless a
      character there is taken for a control. */
  lemma AlphabetVanishes(text: seq<char>)
    ensures ControlsVanish(text, ClassesOf(ClassFromChWS, text))
       <==> forall i :: 0 <= i < |text| && text[i] as int >= 128 ==> !IsControl(ClassFromChWS(text[i]))
  {
    hide ClassFromChWS, IsControl, IsCleaned;
    var ws := ClassesOf(ClassFromChWS, text);
    forall i | 0 <= i < |text|
      ensures IsControl(ws[i]) && !IsCleaned(text[i]) <==> IsControl(ws[i]) && text[i] as int >= 128
    {
      ControlOfTable(text[i]);
    }
    LineSeparatorStays();
  }

  /** The longest text that is looked at. */
  const MAX_CCH := 256

  /** What is left of a text behind the cut at that length. */
  function Seen<T>(s: seq<T>): seq<T> {
    if |s| > MAX_CCH then s[..MAX_CCH] else s
  }

  /** The first paragraph of what is seen of a text with the given classes. */
  function ParagraphLength(ws: seq<Cls>): (n: nat)
    ensures n <= |ws| && n <= MAX_CCH
  {
    FirstParagraph(Seen(ws))
  }

  lemma {:induction false} FirstParagraphTake(ws: seq<Cls>)
    ensures FirstParagraph(ws[..FirstParagraph(ws)]) == FirstParagraph(ws)
    decreases |ws|
  {
    if ws != [] && !ws[0].B? {
      FirstParagraphTake(ws[1..]);
      var n := FirstParagraph(ws);
      assert ws[..n][1..] == ws[1..][..n - 1];
    }
  }

  /** The text is cut behind 256 characters, and behind the first paragraph separator in front of that. */
  lemma ParagraphCut(ws: seq<Cls>)
    ensures var n := ParagraphLength(ws);
            && n <= |ws| && n <= 256 && (forall i :: 0 <= i < n - 1 ==> ws[i] != B)
            && (n < |ws| && n < 256 ==> n > 0 && ws[n - 1] == B)
  {}

  /** The part in front of the cut is one paragraph. */
  lemma ParagraphStands(ws: seq<Cls>)
    ensures FirstParagraph(ws[..ParagraphLength(ws)]) == ParagraphLength(ws)
  {
    FirstParagraphTake(Seen(ws));
    assert Seen(ws)[..ParagraphLength(ws)] == ws[..ParagraphLength(ws)];
  }

  /** The first paragraph of the input: its classes for the passes and its base level. */
  method FindParagraph(types: char -> Cls, input: array<char>) returns (base: int, pcls: array<Cls>)
    ensures fresh(pcls)
    ensures var ws := ClassesOf(types, input[..]);
            && pcls.Length == ParagraphLength(ws)
            && pcls[..] == PassClasses(ws[..pcls.Length]) && base == BaseLevel(pcls[..])
  {
    hide BaseLevel, FirstParagraph;
    ghost var ws := ClassesOf(types, input[..]);
    var cch := input.Length;
    if cch > MAX_CCH {
      cch := MAX_CCH;
    }
    var classes := new Cls[cch];
    Classify(types, input, classes, cch, false);
    cch := ResolveParagraphs(classes, Seen(ws));
    base := ResolveBaseLevel(classes, cch);
    pcls := Copied(classes, cch);
    assert Seen(ws)[..cch] == ws[..cch];
  }

  /** The entry point: the first paragraph of the input, as far as it is looked at, is displayed, mirrored
      and cleaned; the input itself stays. */
  method BidiInterface(types: char -> Cls, input: array<char>) returns (output: array<char>, length: nat)
    ensures fresh(output) && length <= output.Length
    ensures var n := ParagraphLength(ClassesOf(types, input[..]));
            var text, ws := input[..n], ClassesOf(types, input[..n]);
            var base := BaseLevel(PassClasses(ws));
            var display := DisplayLines(base, true, Resolved(base, text, ws));
            && output[..length] == Keep(Uncleaned(display), display) == Shown(base, true, text, ws)
            && FirstParagraph(ws) == |ws|
            && (ControlsVanish(text, ws) ==> output[..length] == ShownByRules(true, text, ws))
  {
    hide Shown, ShownByRules, DisplayLines, Resolved, Clean, PassClasses, FirstParagraph, BaseLevel, ParagraphLength,
      ControlsVanish;
    var base, pcls := FindParagraph(types, input);
    var plevel := new int[pcls.Length];
    output := Copied(input, pcls.Length);
    ghost var text := output[..];
    ghost var ws := ClassesOf(types, text);
    ClassesOfTake(types, input[..], pcls.Length);
    assert text == input[..][..pcls.Length];
    DisplayParagraph(types, base, true, output, pcls, plevel);
    length := CleanText(output);
    ShownUnfolds(base, true, text, ws);
    ParagraphStands(ClassesOf(types, input[..]));
    if ControlsVanish(text, ws) {
      ParagraphIsRules(true, text, ws);
    }
  }

  /** The query for the direction of a text, as it is: false when the base level is 1. */
  function IsRtl(ws: seq<Cls>): bool {
    if BaseLevel(PassClasses(ws[..ParagraphLength(ws)])) == 1 then false else true
  }

  lemma IsRtlOfOne(c: Cls)
    requires IsStrong(c)
    ensures IsRtl([c]) == c.L?
  {
    var ws := [c];
    ParagraphFound(ws, 1);
    assert ws[..1] == ws;
    var s := PassClasses(ws);
    assert s[0] == c && s != [];
    assert BaseLevel(s) == if c.L? then 0 else 1;
  }

  /** Its answer is the opposite of its name: it holds exactly for the texts whose first paragraph, as far as
      it is looked at, does not begin, as far as strong characters go, with a right-to-left one. */
  lemma IsRtlInverted(ws: seq<Cls>)
    ensures IsRtl(ws) <==> !BeginsRightToLeft(PassClasses(ws[..ParagraphLength(ws)]))
    ensures IsRtl([L]) && !IsRtl([R])
  {
    BaseLevelFound(PassClasses(ws[..ParagraphLength(ws)]));
    IsRtlOfOne(L);
    IsRtlOfOne(R);
  }
}
