/** What the passes make of the neutrals, told from the letters around them and the levels of the text. */
module BidiNeutralLevels {
  import opened BidiClasses
  import opened BidiExplicit
  import opened BidiWeakRules
  import opened BidiRuns
  import opened BidiNeutralRules
  import opened BidiImplicit
  import opened BidiPipeline
  import opened BidiEmbedding
  import opened BidiByPosition

  /** The classes and levels that X1 to X9 leave. */
  function Left(base: int, s: seq<Cls>): (t: Text)
    ensures |t.cls| == |t.lev| == Count(Ordinary(s))
  {
    Text(Keep(Ordinary(s), Explicit(base, s).cls), Keep(Ordinary(s), Explicit(base, s).lev))
  }

  lemma ImplicitOfLetter(level: int, d: Cls)
    requires Letter(d)
    ensures Implicit(level, d) == if (level % 2 == 1) == (d == R) then level else level + 1
  {}

  lemma RuleLevelsUnfold(base: int, s: seq<Cls>, i: nat)
    requires var t := Left(base, s); i < |t.cls|
    ensures var t := Left(base, s);
            var y := WeakByRuns(base, t.cls, t.lev);
            |RuleLevels(base, s)| == |t.cls|
            && RuleLevels(base, s)[i] == Implicit(t.lev[i], NeutralByRuns(base, base, y, t.lev)[i])
  {
    hide Explicit, Ordinary, WeakByRuns, NeutralByRuns, Implicit;
  }

  /** In the level run from a to b only neutrals stand between p and q, which are letters of that run or its
      ends. */
  predicate Amid(x: seq<Cls>, a: int, b: int, p: int, q: int) {
    && 0 <= a <= b <= |x| && a - 1 <= p && p + 1 < q <= b
    && (p >= a ==> Letter(x[p])) && (q < b ==> Letter(x[q]))
    && forall j :: p < j < q ==> x[j] == ON
  }

  /** The weak rules leave that stretch as it is. */
  lemma WeakLeaves(base: int, x: seq<Cls>, xl: seq<int>, a: int, b: int, p: int, q: int)
    requires |x| == |xl| && IsRun(xl, a, b) && Amid(x, a, b, p, q)
    ensures forall j :: a <= j < b && p <= j <= q ==> WeakByRuns(base, x, xl)[j] == x[j]
  {
    hide WeakByRuns, WeakRules, Between;
    WeakOfRun(base, x, xl, a, b);
    var y := WeakByRuns(base, x, xl);
    var sor := Between(LevelInFront(base, xl, a), xl[a]);
    forall j | a <= j < b && p <= j <= q
      ensures y[j] == x[j]
    {
      WeakKeeps(sor, x[a..b], j - a);
      assert y[a..b][j - a] == y[j] && x[a..b][j - a] == x[j];
    }
  }

  lemma NeutralGets(base: int, y: seq<Cls>, xl: seq<int>, a: int, b: int, p: int, i: int, q: int)
    requires |y| == |xl| && IsRun(xl, a, b) && Amid(y, a, b, p, q) && p < i < q
    ensures var before := if p < a then Between(LevelInFront(base, xl, a), xl[a]) else y[p];
            var after := if q == b then Between(xl[a], LevelBehind(base, xl, b)) else y[q];
            NeutralByRuns(base, base, y, xl)[i]
            == if before == after then before else if xl[a] % 2 == 1 then R else L
  {
    hide NeutralByRuns, NeutralRules, Between;
    NeutralOfRun(base, base, y, xl, a, b);
    var s := y[a..b];
    assert forall j :: 0 <= j < |s| ==> s[j] == y[a + j];
    assert Nearest(NotNeutral, s, i - a, p - a) && NextOn(s, i - a, q - a);
    NeutralRulesAt(Between(LevelInFront(base, xl, a), xl[a]), Between(xl[a], LevelBehind(base, xl, b)),
                   if xl[a] % 2 == 1 then R else L, s, i - a, p - a, q - a);
    assert NeutralByRuns(base, base, y, xl)[a..b][i - a] == NeutralByRuns(base, base, y, xl)[i];
  }

  /** The level of a neutral.  With letters or the ends of its level run on both sides, where an end counts as
      R exactly when the higher one of the two levels there is odd, it keeps the explicit level if the two
      sides differ; otherwise it gets the least level from that on which has the direction of both. */
  lemma NeutralLevel(base: int, s: seq<Cls>, a: int, b: int, p: int, i: int, q: int)
    requires var t := Left(base, s); IsRun(t.lev, a, b) && Amid(t.cls, a, b, p, q) && p < i < q
    ensures var t := Left(base, s);
            var before := if p < a then Between(LevelInFront(base, t.lev, a), t.lev[a]) else t.cls[p];
            var after := if q == b then Between(t.lev[a], LevelBehind(base, t.lev, b)) else t.cls[q];
            && i < |RuleLevels(base, s)|
            && RuleLevels(base, s)[i]
               == if before != after || (t.lev[i] % 2 == 1) == (before == R) then t.lev[i] else t.lev[i] + 1
  {
    hide Left, RuleLevels, WeakByRuns, NeutralByRuns, Implicit;
    var t := Left(base, s);
    var y := WeakByRuns(base, t.cls, t.lev);
    WeakLeaves(base, t.cls, t.lev, a, b, p, q);
    assert Amid(y, a, b, p, q);
    NeutralGets(base, y, t.lev, a, b, p, i, q);
    RuleLevelsUnfold(base, s, i);
    ImplicitOfLetter(t.lev[i], NeutralByRuns(base, base, y, t.lev)[i]);
  }

  lemma NeutralRulesKeep(sor: Cls, eor: Cls, embedding: Cls, s: seq<Cls>, i: nat)
    requires Letter(sor) && Letter(embedding) && i < |s| && s[i] != ON
    ensures NeutralRules(sor, eor, embedding, s)[i] == s[i]
  {
    NeutralRulesSettle(sor, eor, embedding, s);
  }

  /** The level of a letter: the least one from its explicit level on that is odd for R and even for L. */
  lemma LetterLevel(base: int, s: seq<Cls>, a: int, b: int, i: int)
    requires var t := Left(base, s); IsRun(t.lev, a, b) && a <= i < b && Letter(t.cls[i])
    ensures var t := Left(base, s);
            && i < |RuleLevels(base, s)|
            && RuleLevels(base, s)[i]
               == if (t.lev[i] % 2 == 1) == (t.cls[i] == R) then t.lev[i] else t.lev[i] + 1
  {
    hide Left, RuleLevels, WeakByRuns, NeutralByRuns, NeutralRules, WeakRules, Implicit;
    var t := Left(base, s);
    var y := WeakByRuns(base, t.cls, t.lev);
    var z := NeutralByRuns(base, base, y, t.lev);
    var sor := Between(LevelInFront(base, t.lev, a), t.lev[a]);
    WeakOfRun(base, t.cls, t.lev, a, b);
    WeakKeeps(sor, t.cls[a..b], i - a);
    NeutralOfRun(base, base, y, t.lev, a, b);
    NeutralRulesKeep(sor, Between(t.lev[a], LevelBehind(base, t.lev, b)), if t.lev[a] % 2 == 1 then R else L,
                     y[a..b], i - a);
    assert y[a..b][i - a] == y[i] && z[a..b][i - a] == z[i];
    RuleLevelsUnfold(base, s, i);
    ImplicitOfLetter(t.lev[i], t.cls[i]);
  }

  lemma {:induction false} PlainMachine(base: int, s: seq<Cls>)
    requires NoCodes(s)
    ensures Explicit(base, s) == Text(s, Fill(|s|, base))
    decreases |s|
  {
    if s != [] {
      PlainMachine(base, s[1..]);
      OutermostStays(base, [], s[0], s[1..]);
      assert [] + [s[0]] + s[1..] == s;
      var t := Explicit(base, s);
      assert t.cls == [t.cls[0]] + t.cls[1..] && t.lev == [t.lev[0]] + t.lev[1..];
      assert s == [s[0]] + s[1..] && Fill(|s|, base) == [base] + Fill(|s| - 1, base);
    }
  }

  lemma RuleLevelsLength(base: int, s: seq<Cls>)
    ensures |RuleLevels(base, s)| == |Left(base, s).cls|
  {}

  /** A paragraph of neutrals only keeps the base level, by the rules and by the passes. */
  lemma NeutralsKeepBase(base: int, s: seq<Cls>)
    requires 0 <= base <= 61 && forall i :: 0 <= i < |s| ==> s[i] == ON
    ensures RuleLevels(base, s) == Fill(|s|, base)
    ensures ParagraphText(s) && ResolvedLevels(base, s) == Fill(|s|, base)
  {
    hide Explicit, RuleLevels, ResolvedLevels;
    PlainMachine(base, s);
    KeepAll(Ordinary(s), s);
    KeepAll(Ordinary(s), Fill(|s|, base));
    assert Left(base, s) == Text(s, Fill(|s|, base));
    PassesAreRules(base, s);
    KeepAll(Ordinary(s), ResolvedLevels(base, s));
    RuleLevelsLength(base, s);
    forall i | 0 <= i < |s|
      ensures RuleLevels(base, s)[i] == base
    {
      NeutralLevel(base, s, 0, |s|, -1, i, |s|);
    }
  }
}
