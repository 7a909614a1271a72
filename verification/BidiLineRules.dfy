/** What a line shows, position by position: the levels of rule L1, the mirrored characters and the order. */
module BidiLineRules {
  import opened BidiClasses
  import opened BidiReorder
  import opened BidiWhitespace
  import opened BidiLines
  import opened BidiOrder

  predicate Removable(c: Cls) {
    c == BN || c == RLE || c == RLO || c == LRE || c == LRO || c == PDF
  }

  predicate Blank(c: Cls) {
    c == WS || Removable(c)
  }

  /** Position k is the end of the line or a separator, and from i on nothing but white space and controls
      stands in front of it. */
  predicate BreaksAt(s: seq<Cls>, i: int, k: int) {
    && 0 <= i <= k <= |s| && (k == |s| || s[k] == S || s[k] == B)
    && forall x :: i <= x < k ==> Blank(s[x])
  }

  ghost predicate Breaks(s: seq<Cls>, i: int) {
    exists k :: BreaksAt(s, i, k)
  }

  lemma {:induction false} BreaksAhead(s: seq<Cls>, i: nat)
    requires i <= |s|
    ensures LeadsToBreak(s[i..]) <==> Breaks(s, i)
    decreases |s| - i
  {
    if i == |s| {
      assert BreaksAt(s, i, i);
    } else {
      BreakStep(s, i);
      BreaksAhead(s, i + 1);
      if Breaks(s, i) {
        var k :| BreaksAt(s, i, k);
        assert k > i ==> BreaksAt(s, i + 1, k);
      }
      if Breaks(s, i + 1) {
        var k :| BreaksAt(s, i + 1, k);
        assert Blank(s[i]) ==> BreaksAt(s, i, k);
      }
      if s[i] == S || s[i] == B {
        assert BreaksAt(s, i, i);
      }
    }
  }

  /** Rule L1: separators, and white space and controls in front of a separator or the end of the line, get the
      base level; other controls take the level in front, at the head of the line the base level; all other
      levels stay. */
  lemma L1At(base: int, s: seq<Cls>, lv: seq<int>, i: nat)
    requires i < |s| == |lv|
    ensures L1(base, s, lv)[i]
         == if Breaks(s, i) then base
            else if Removable(s[i]) then (if i == 0 then base else L1(base, s, lv)[i - 1])
            else lv[i]
  {
    BreaksAhead(s, i);
  }

  /** The four paired characters are exchanged on odd levels, and nothing else is. */
  predicate ShownAs(ch: char, level: int, shown: char) {
    if level % 2 == 1 && ch == '<' then shown == '>'
    else if level % 2 == 1 && ch == '>' then shown == '<'
    else if level % 2 == 1 && ch == '(' then shown == ')'
    else if level % 2 == 1 && ch == ')' then shown == '('
    else shown == ch
  }

  /** A displayed line: every character of the text once, mirrored by its level, and two characters in the
      order of the text exactly when the lowest level from the one to the other is even.  The levels are
      those of rule L1. */
  lemma LineShown(base: int, s: Stretch) returns (p: seq<int>)
    requires s.Valid() && NoneBelow(base, s.lev)
    ensures var g, shown := LogicalLine(base, true, s.text, s.cls, s.lev), DisplayLine(base, true, s);
            var lv := L1(base, s.cls, s.lev);
            && |p| == |s.text|
            && (forall x :: 0 <= x < |g| ==> g[x].level == lv[x])
            && (forall q :: 0 <= q < |p| ==> 0 <= p[q] < |p| && ShownAs(s.text[p[q]], lv[p[q]], shown[q]))
            && (forall q, q' :: 0 <= q < q' < |p| ==>
                  p[q] != p[q'] && (p[q] < p[q'] <==> Lowest(g, p[q], p[q']) % 2 == 0))
  {
    hide RuleL2, L1Level, Lowest;
    var g := LogicalLine(base, true, s.text, s.cls, s.lev);
    LogicalNotBelow(base, true, s.text, s.cls, s.lev);
    p := DisplayOrder(base, g);
  }

  /** The separator that ends a line is character 0x15. */
  lemma LineEnds(text: seq<char>, brk: seq<bool>, n: nat)
    requires |text| == |brk| && n == FirstLine(text, brk)
    ensures n <= |text| && (n == 0 <==> text == [])
    ensures forall i :: 0 <= i < n - 1 ==> text[i] as int != 0x15 && !brk[i]
    ensures n < |text| ==> text[n - 1] as int == 0x15 || brk[n - 1]
  {}
}
