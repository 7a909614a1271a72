/** The passes X, W, N and I in sequence, against the rules of the algorithm applied to the text from
    which rule X9 has removed the BNs and the explicit codes. */
module BidiPipeline {
  import opened BidiClasses
  import opened BidiExplicit
  import opened BidiRuns
  import opened BidiNeutralRules
  import opened BidiImplicit
  import opened BidiMarking
  import Weak = BidiWeak
  import WeakTables = BidiWeakTables
  import WeakProof = BidiWeakProof
  import Neutral = BidiNeutral
  import NeutralProof = BidiNeutralProof

  /** The classes of a paragraph in front of the first pass: S and WS count as ON, and the paragraph
      separator as BN. */
  predicate ParagraphText(s: seq<Cls>) {
    forall i :: 0 <= i < |s| ==> Ord(s[i]) <= Ord(BN) || IsCode(s[i])
  }

  /** The characters that rule X9 keeps. */
  function Ordinary(s: seq<Cls>): (m: seq<bool>)
    ensures |m| == |s| && forall i :: 0 <= i < |s| ==> m[i] == !(s[i].BN? || IsCode(s[i]))
  {
    seq(|s|, i requires 0 <= i < |s| => !(s[i].BN? || IsCode(s[i])))
  }

  predicate Within(lo: int, hi: int, lv: seq<int>) {
    forall i :: 0 <= i < |lv| ==> lo <= lv[i] <= hi
  }

  // Rules X1 to X9.

  predicate StackWithin(lo: int, stack: Stack) {
    && (stack.Bottom? || StackWithin(lo, stack.below))
    && (!stack.Overflow? ==> lo <= stack.level <= MAX_LEVEL)
    && (!stack.Overflow? ==> stack.dir.ON? || stack.dir.L? || stack.dir.R?)
  }

  lemma TopWithin(lo: int, stack: Stack)
    requires StackWithin(lo, stack)
    ensures lo <= stack.Top().level <= MAX_LEVEL
    ensures stack.Top().dir.ON? || stack.Top().dir.L? || stack.Top().dir.R?
  {}

  lemma StepWithin(lo: int, stack: Stack, c: Cls)
    requires StackWithin(lo, stack) && (Ord(c) <= Ord(BN) || IsCode(c))
    ensures var step := StackStep(stack, c);
            && StackWithin(lo, step.stack) && lo <= step.level <= MAX_LEVEL
            && Ord(step.cls) <= Ord(BN) && step.cls.BN? == (c.BN? || IsCode(c))
            && (!step.cls.BN? ==> step.stack == stack && step.level == stack.Top().level)
  {
    TopWithin(lo, stack);
  }

  /** What the explicit pass leaves: no codes, BN exactly in place of codes and BNs, levels from the
      base level to MAX_LEVEL, and changes of level only behind BNs. */
  ghost predicate ExplicitShape(lo: int, level: int, s: seq<Cls>, t: Text)
    requires |t.cls| == |s| == |t.lev|
  {
    UpToBN(t.cls) && NotBN(t.cls) == Ordinary(s) && Within(lo, MAX_LEVEL, t.lev) && Levelled(level, t.cls, t.lev)
  }

  lemma ShapeCons(lo: int, level: int, level': int, s: seq<Cls>, t: Text, rest: Text)
    requires s != [] && |t.cls| == |s| == |t.lev| && |rest.cls| == |s| - 1 == |rest.lev|
    requires t.cls[1..] == rest.cls && t.lev[1..] == rest.lev
    requires Ord(t.cls[0]) <= Ord(BN) && t.cls[0].BN? == (s[0].BN? || IsCode(s[0])) && lo <= t.lev[0] <= MAX_LEVEL
    requires !t.cls[0].BN? ==> t.lev[0] == level
    requires level' == if t.cls[0].BN? && |s| > 1 && !t.cls[1].BN? then t.lev[1] else level
    requires ExplicitShape(lo, level', s[1..], rest)
    ensures ExplicitShape(lo, level, s, t)
  {
    forall i | 0 < i < |s|
      ensures Ord(t.cls[i]) <= Ord(BN) && lo <= t.lev[i] <= MAX_LEVEL && NotBN(t.cls)[i] == Ordinary(s)[i]
    {
      assert t.cls[i] == rest.cls[i - 1] && t.lev[i] == rest.lev[i - 1];
      assert NotBN(rest.cls)[i - 1] == Ordinary(s[1..])[i - 1];
    }
  }

  lemma {:induction false} MachineShape(lo: int, stack: Stack, level: int, s: seq<Cls>)
    requires ParagraphText(s) && StackWithin(lo, stack)
    requires s != [] && !(s[0].BN? || IsCode(s[0])) ==> level == stack.Top().level
    ensures ExplicitShape(lo, level, s, StackMachine(stack, s))
    decreases |s|
  {
    if s != [] {
      var step := StackStep(stack, s[0]);
      StepWithin(lo, stack, s[0]);
      if |s| > 1 {
        StepWithin(lo, step.stack, s[1]);
      }
      var level' := if |s| > 1 && !(s[1].BN? || IsCode(s[1])) then step.stack.Top().level else level;
      MachineShape(lo, step.stack, level', s[1..]);
      ShapeCons(lo, level, level', s, StackMachine(stack, s), StackMachine(step.stack, s[1..]));
    }
  }

  lemma ExplicitPass(base: int, s: seq<Cls>)
    requires ParagraphText(s) && 0 <= base <= MAX_LEVEL
    ensures ExplicitShape(base, base, s, Explicit(base, s))
  {
    MachineShape(base, Bottom(base, ON), base, s);
  }

  // Rules W1 to W7 and N1, N2.

  /** The weak-type pass keeps the levels in range. */
  lemma {:induction false} WeakWithin(lo: int, hi: int, base: int, st: WeakTables.WeakState, level: int,
                                      s: seq<Cls>, lv: seq<int>)
    requires |s| == |lv| && UpToBN(s) && lo <= level <= hi && Within(lo, hi, lv)
    ensures Within(lo, hi, Weak.WeakMachine(base, st, level, s, lv).lev)
    decreases |s|
  {
    if s != [] {
      var f := Weak.Fix(level, s, lv, 0);
      if Weak.Skipped(base, level, s, lv, 0) {
        WeakWithin(lo, hi, base, st, level, s[1..], lv[1..]);
      } else {
        WeakWithin(lo, hi, base, WeakTables.StateWeak(st, f.cls), f.level, s[1..], lv[1..]);
      }
    }
  }

  /** The neutral-type pass leaves no neutral, and a pending run becomes L or R. */
  lemma {:induction false} NeutralsSettled(st: Neutral.NeutralState, level: int, s: seq<Cls>, lv: seq<int>)
    requires |s| == |lv| && Neutral.NeutralText(s)
    ensures var o := Neutral.NeutralMachine(st, level, s, lv);
            ImplicitText(o.cls) && (Neutral.IsPending(st) ==> o.pend.L? || o.pend.R?)
    decreases |s|
  {
    if s == [] {
      Neutral.TablesVerified(st, EmbeddingDirection(level), level);
    } else if s[0].BN? {
      NeutralsSettled(st, level, s[1..], lv[1..]);
    } else {
      Neutral.TablesVerified(st, s[0], level);
      NeutralsSettled(Neutral.StateNeutrals(st, s[0]), lv[0], s[1..], lv[1..]);
    }
  }

  // All passes.

  /** What the four passes make of a paragraph. */
  function ResolvedLevels(base: int, s: seq<Cls>): (r: seq<int>)
    requires ParagraphText(s) && 0 <= base <= MAX_LEVEL
    ensures |r| == |s|
  {
    ExplicitPass(base, s);
    var t := Explicit(base, s);
    var w := Weak.Weak(base, t.cls, t.lev);
    WeakPassMarks(base, t.cls, t.lev);
    ImplicitLevels(Neutral.Neutrals(base, w.cls, w.lev), w.lev)
  }

  /** The rules: explicit levels (X1 to X8), removal of the codes and BNs (X9), level runs (X10), W1 to
      W7, N1 and N2, and I1 and I2. */
  function RuleLevels(base: int, s: seq<Cls>): (r: seq<int>) {
    var t := Explicit(base, s);
    var m := Ordinary(s);
    var x, xl := Keep(m, t.cls), Keep(m, t.lev);
    ImplicitLevels(NeutralByRuns(base, base, WeakByRuns(base, x, xl), xl), xl)
  }

  lemma {:induction false} KeepImplicit(m: seq<bool>, s: seq<Cls>, lv: seq<int>)
    requires |m| == |s| == |lv|
    ensures Keep(m, ImplicitLevels(s, lv)) == ImplicitLevels(Keep(m, s), Keep(m, lv))
    decreases |s|
  {
    if s != [] {
      var r := ImplicitLevels(s, lv);
      assert r[1..] == ImplicitLevels(s[1..], lv[1..]);
      KeepImplicit(m[1..], s[1..], lv[1..]);
      if m[0] {
        var x, xl := Keep(m[1..], s[1..]), Keep(m[1..], lv[1..]);
        assert ([s[0]] + x)[1..] == x && ([lv[0]] + xl)[1..] == xl;
      }
    }
  }

  /** The passes, which leave the codes and BNs in place, give every other character the level that the
      rules give it in the text from which the codes and BNs have been removed. */
  lemma PassesAreRules(base: int, s: seq<Cls>)
    requires ParagraphText(s) && 0 <= base <= MAX_LEVEL
    ensures Keep(Ordinary(s), ResolvedLevels(base, s)) == RuleLevels(base, s)
  {
    ExplicitPass(base, s);
    var t := Explicit(base, s);
    var m := Ordinary(s);
    WeakProof.WeakPassIsRules(base, t.cls, t.lev);
    WeakPassMarks(base, t.cls, t.lev);
    var w := Weak.Weak(base, t.cls, t.lev);
    NeutralProof.NeutralPassIsRules(base, w.cls, w.lev, m);
    KeepImplicit(m, Neutral.Neutrals(base, w.cls, w.lev), w.lev);
  }

  lemma ImplicitWithin(base: int, s: seq<Cls>, lv: seq<int>)
    requires |s| == |lv| && Within(base, MAX_LEVEL, lv)
    ensures Within(base, MAX_LEVEL + 1, ImplicitLevels(s, lv))
  {}

  /** All levels, also those of BNs, stay from the base level to MAX_LEVEL + 1. */
  lemma LevelsWithin(base: int, s: seq<Cls>)
    requires ParagraphText(s) && 0 <= base <= MAX_LEVEL
    ensures Within(base, MAX_LEVEL + 1, ResolvedLevels(base, s))
  {
    ExplicitPass(base, s);
    var t := Explicit(base, s);
    WeakWithin(base, MAX_LEVEL, base, Weak.StartState(base), base, t.cls, t.lev);
    WeakPassMarks(base, t.cls, t.lev);
    var w := Weak.Weak(base, t.cls, t.lev);
    ImplicitWithin(base, Neutral.Neutrals(base, w.cls, w.lev), w.lev);
  }

  /** The four passes in place.  The preconditions of the passes, which keep every table look-up in
      range, hold for every paragraph. */
  method ResolveLevels(base: int, pcls: array<Cls>, plevel: array<int>)
    requires pcls.Length == plevel.Length && ParagraphText(pcls[..]) && 0 <= base <= MAX_LEVEL
    modifies pcls, plevel
    ensures plevel[..] == ResolvedLevels(base, old(pcls[..]))
  {
    ghost var s := pcls[..];
    ExplicitPass(base, s);
    var _, _ := ResolveExplicit(base, pcls, plevel);
    ghost var t := Text(pcls[..], plevel[..]);
    WeakPassMarks(base, t.cls, t.lev);
    Weak.ResolveWeak(base, pcls, plevel);
    Neutral.ResolveNeutrals(base, pcls, plevel);
    NeutralsSettled(Neutral.StartState(base), base, Weak.Weak(base, t.cls, t.lev).cls, plevel[..]);
    ResolveImplicit(pcls, plevel);
  }
}
