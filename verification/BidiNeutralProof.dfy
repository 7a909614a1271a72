/** The neutral-type machine computes rules N1 and N2 on every level run of the text that is left
    when the BNs are removed, although some BNs have become ordinary classes by then. */
module BidiNeutralProof {
  import opened BidiClasses
  import opened BidiRuns
  import opened BidiNeutralRules
  import opened BidiNeutral

  /** What is known about the characters in front, since the start of the level run: the class of the
      last one, the direction N1 sees, and the nearest L or R. */
  datatype Ctx = Ctx(last: Cls, before: Cls, strong: Cls)

  function Sor(d: Cls): Ctx {
    Ctx(d, d, d)
  }

  function Advance(k: Ctx, c: Cls): Ctx {
    Ctx(c, if c.ON? then k.before else Direction(c), if c.L? || c.R? then c else k.strong)
  }

  /** A text whose unmarked characters are BNs in origin (m is false there).  Marked characters are of
      the current level, and EN only behind R.  An unmarked one is still a BN, or repeats the class and
      level of the character before, or stands for the border of two level runs. */
  predicate Marked(base: int, k: Ctx, level: int, s: seq<Cls>, lv: seq<int>, m: seq<bool>)
    requires |s| == |lv| == |m|
    decreases |s|
  {
    level >= base &&
    (s == [] ||
     if m[0] then
       && NeutralInput(s[0]) && lv[0] == level && (s[0].EN? ==> k.strong.R?)
       && Marked(base, Advance(k, s[0]), level, s[1..], lv[1..], m[1..])
     else
       || ((s[0].BN? || (s[0] == k.last && lv[0] == level)) && Marked(base, k, level, s[1..], lv[1..], m[1..]))
       || (|s| == 1 && s[0] == EmbeddingDirection(level))
       || (|s| > 1 && IsBorder(base, level, s, lv, m)))
  }

  /** The first character stands for sor and eor at a change of level. */
  predicate IsBorder(base: int, level: int, s: seq<Cls>, lv: seq<int>, m: seq<bool>)
    requires |s| == |lv| == |m| > 1
    decreases |s|, 0
  {
    && m[1] && lv[1] != level && s[0] == Border(level, lv[1]) && lv[0] == Max(level, lv[1])
    && Marked(base, Sor(s[0]), lv[1], s[1..], lv[1..], m[1..])
  }

  /** What a state says about the left context. */
  predicate Rel(st: NeutralState, k: Ctx) {
    match st
    case r => k.before.R? && k.strong.R? && (k.last.R? || k.last.AN? || k.last.EN?)
    case rn => k.before.R? && k.strong.R? && k.last.ON?
    case l => k.before.L? && k.strong.L? && k.last.L?
    case ln => k.before.L? && k.strong.L? && k.last.ON?
    case a => k.before.R? && k.strong.L? && k.last.AN?
    case na => k.before.R? && k.strong.L? && k.last.ON?
  }

  /** One step of the table agrees with the rules, next being the direction that follows. */
  lemma TableStep(st: NeutralState, k: Ctx, c: Cls, level: int, next: Cls)
    requires NeutralInput(c) && Rel(st, k) && (c.EN? ==> k.strong.R?)
    ensures Rel(StateNeutrals(st, c), Advance(k, c))
    ensures var act := ActionNeutrals(st, c);
            var e := EmbeddingDirection(level);
            && Current(act, c, Settle(k.before, next, e)) == (if c.ON? then Settle(k.before, next, e) else c)
            && (IsPending(st) ==>
                  PendBefore(act, level, Settle(k.before, next, e))
                  == Settle(k.before, if c.ON? then next else Direction(c), e))
            && (!c.ON? ==> !act.inc)
  {}

  /** Reading the class of the last character again changes nothing. */
  lemma RepeatStep(st: NeutralState, k: Ctx)
    requires Rel(st, k)
    ensures NeutralInput(k.last) && StateNeutrals(st, k.last) == st
    ensures ActionNeutrals(st, k.last) == if IsPending(st) then In else zz
  {}

  /** The direction that follows the neutrals at the head of what is left of a level run. */
  function NextOf(base: int, level: int, x: seq<Cls>, xl: seq<int>): Cls
    requires |x| == |xl|
  {
    var n := RunLen(level, xl);
    NextStrong(Border(level, LevelAt(base, xl, n)), x[..n])
  }

  /** The rules on the rest of a text: what is left of the level run at the given level, and then the
      other level runs. */
  function NeutralFrom(base: int, k: Ctx, level: int, x: seq<Cls>, xl: seq<int>): (t: seq<Cls>)
    requires |x| == |xl|
    ensures |t| == |x|
  {
    var n := RunLen(level, xl);
    NeutralRules(k.before, Border(level, LevelAt(base, xl, n)), EmbeddingDirection(level), x[..n])
    + NeutralByRuns(base, level, x[n..], xl[n..])
  }

  lemma RunLenCons(level: int, xl: seq<int>)
    ensures RunLen(level, [level] + xl) == RunLen(level, xl) + 1
  {
    assert ([level] + xl)[1..] == xl;
  }

  lemma NextStrongCons(eor: Cls, c: Cls, x: seq<Cls>)
    ensures NextStrong(eor, [c] + x) == if c.ON? then NextStrong(eor, x) else Direction(c)
  {
    hide Direction;
    assert ([c] + x)[1..] == x;
  }

  lemma RulesCons(before: Cls, eor: Cls, embedding: Cls, c: Cls, x: seq<Cls>)
    ensures NeutralRules(before, eor, embedding, [c] + x)
         == [if c.ON? then Settle(before, NextStrong(eor, x), embedding) else c]
            + NeutralRules(if c.ON? then before else Direction(c), eor, embedding, x)
  {
    hide NextStrong, Settle, Direction;
    var s := [c] + x;
    assert s[1..] == x && s[0] == c && s != [];
    NextStrongCons(eor, c, x);
  }

  lemma NeutralFromStep(base: int, k: Ctx, c: Cls, level: int, x: seq<Cls>, xl: seq<int>)
    requires |x| == |xl|
    ensures NextOf(base, level, [c] + x, [level] + xl) == if c.ON? then NextOf(base, level, x, xl) else Direction(c)
    ensures NeutralFrom(base, k, level, [c] + x, [level] + xl)
         == [if c.ON? then Settle(k.before, NextOf(base, level, x, xl), EmbeddingDirection(level)) else c]
            + NeutralFrom(base, Advance(k, c), level, x, xl)
  {
    hide RunLen, NeutralByRuns, NeutralRules, NextStrong, Settle, EmbeddingDirection, Border;
    var n := RunLen(level, xl);
    RunLenCons(level, xl);
    assert ([c] + x)[..n + 1] == [c] + x[..n];
    assert ([c] + x)[n + 1..] == x[n..] && ([level] + xl)[n + 1..] == xl[n..];
    NextStrongCons(Border(level, LevelAt(base, xl, n)), c, x[..n]);
    RulesCons(k.before, Border(level, LevelAt(base, xl, n)), EmbeddingDirection(level), c, x[..n]);
  }

  /** At the end of a level run the rules start over with the direction of the border. */
  lemma NeutralFromBorder(base: int, k: Ctx, level: int, x: seq<Cls>, xl: seq<int>)
    requires |x| == |xl| && x != [] && xl[0] != level
    ensures NextOf(base, level, x, xl) == Border(level, xl[0])
    ensures NeutralFrom(base, k, level, x, xl) == NeutralFrom(base, Sor(Border(level, xl[0])), xl[0], x, xl)
  {
    assert x[..0] == [] && x[0..] == x && xl[0..] == xl;
  }

  lemma NeutralFromNothing(base: int, k: Ctx, level: int)
    ensures NeutralFrom(base, k, level, [], []) == []
    ensures NextOf(base, level, [], []) == Border(level, base)
  {}

  /** The claim of the simulation about a result o of the machine that was started in a state that
      describes the context k. */
  ghost predicate AgreesWith(o: NeutralOut, st: NeutralState, base: int, k: Ctx, level: int,
                             s: seq<Cls>, lv: seq<int>, m: seq<bool>)
    requires |s| == |lv| == |m| == |o.cls|
  {
    && Keep(m, o.cls) == NeutralFrom(base, k, level, Keep(m, s), Keep(m, lv))
    && (IsPending(st) ==>
          o.pend == Settle(k.before, NextOf(base, level, Keep(m, s), Keep(m, lv)), EmbeddingDirection(level)))
  }

  /** A character that is not marked and after which the context and the level are the same. */
  lemma UnmarkedAgrees(o: NeutralOut, rest: NeutralOut, st: NeutralState, base: int, k: Ctx, level: int,
                       s: seq<Cls>, lv: seq<int>, m: seq<bool>)
    requires s != [] && |s| == |lv| == |m| == |o.cls| && !m[0]
    requires o.cls[1..] == rest.cls && (IsPending(st) ==> o.pend == rest.pend)
    requires AgreesWith(rest, st, base, k, level, s[1..], lv[1..], m[1..])
    ensures AgreesWith(o, st, base, k, level, s, lv, m)
  {}

  lemma MarkedAgrees(o: NeutralOut, rest: NeutralOut, st: NeutralState, base: int, k: Ctx, level: int, mlevel: int,
                     act: NeutralAction, st': NeutralState, s: seq<Cls>, lv: seq<int>, m: seq<bool>)
    requires s != [] && |s| == |lv| == |m| == |o.cls| && m[0] && lv[0] == level && NeutralInput(s[0])
    requires Rel(st, k) && (s[0].EN? ==> k.strong.R?) && (IsPending(st) ==> mlevel == level)
    requires act == ActionNeutrals(st, s[0]) && st' == StateNeutrals(st, s[0])
    requires o == NeutralOut(PendBefore(act, mlevel, rest.pend), [Current(act, s[0], rest.pend)] + rest.cls)
    requires AgreesWith(rest, st', base, Advance(k, s[0]), level, s[1..], lv[1..], m[1..])
    ensures AgreesWith(o, st, base, k, level, s, lv, m)
  {
    var x, xl := Keep(m[1..], s[1..]), Keep(m[1..], lv[1..]);
    assert o.cls[1..] == rest.cls;
    NeutralFromStep(base, k, s[0], level, x, xl);
    TableStep(st, k, s[0], level, NextOf(base, level, x, xl));
    TablesVerified(st, s[0], level);
  }

  lemma AgreesAtEnd(st: NeutralState, base: int, k: Ctx, level: int, mlevel: int)
    requires level >= base && Rel(st, k) && (IsPending(st) ==> mlevel == level)
    ensures AgreesWith(NeutralMachine(st, mlevel, [], []), st, base, k, level, [], [], [])
  {
    NeutralFromNothing(base, k, level);
    TableStep(st, k, EmbeddingDirection(level), level, L);
  }

  /** The last character stands for the border with the base level behind the text. */
  lemma AgreesLast(st: NeutralState, base: int, k: Ctx, level: int, mlevel: int,
                   s: seq<Cls>, lv: seq<int>, m: seq<bool>)
    requires |s| == |lv| == |m| == 1 && !m[0] && s[0] == EmbeddingDirection(level)
    requires level >= base && Rel(st, k) && (IsPending(st) ==> mlevel == level)
    ensures AgreesWith(NeutralMachine(st, mlevel, s, lv), st, base, k, level, s, lv, m)
  {
    assert s[1..] == [] && lv[1..] == [] && m[1..] == [];
    NeutralFromNothing(base, k, level);
    TableStep(st, k, s[0], level, L);
    assert Keep(m, s) == [] && Keep(m, lv) == [];
  }

  lemma AgreesBorder(st: NeutralState, base: int, k: Ctx, level: int, mlevel: int,
                     s: seq<Cls>, lv: seq<int>, m: seq<bool>)
    requires |s| == |lv| == |m| > 1 && NeutralText(s) && !m[0] && IsBorder(base, level, s, lv, m)
    requires Rel(st, k) && (IsPending(st) ==> mlevel == level)
    requires var st' := StateNeutrals(st, s[0]);
             AgreesWith(NeutralMachine(st', lv[0], s[1..], lv[1..]), st', base, Sor(s[0]), lv[1],
                        s[1..], lv[1..], m[1..])
    ensures AgreesWith(NeutralMachine(st, mlevel, s, lv), st, base, k, level, s, lv, m)
  {
    var o := NeutralMachine(st, mlevel, s, lv);
    var rest := NeutralMachine(StateNeutrals(st, s[0]), lv[0], s[1..], lv[1..]);
    assert o.cls[1..] == rest.cls;
    var x, xl := Keep(m[1..], s[1..]), Keep(m[1..], lv[1..]);
    assert Keep(m, s) == x && Keep(m, lv) == xl && xl[0] == lv[1];
    NeutralFromBorder(base, k, level, x, xl);
    TableStep(st, k, s[0], level, L);
  }

  lemma AgreesBN(st: NeutralState, base: int, k: Ctx, level: int, mlevel: int, s: seq<Cls>, lv: seq<int>, m: seq<bool>)
    requires s != [] && |s| == |lv| == |m| && NeutralText(s) && !m[0] && s[0].BN?
    requires AgreesWith(NeutralMachine(st, mlevel, s[1..], lv[1..]), st, base, k, level, s[1..], lv[1..], m[1..])
    ensures AgreesWith(NeutralMachine(st, mlevel, s, lv), st, base, k, level, s, lv, m)
  {
    var o, rest := NeutralMachine(st, mlevel, s, lv), NeutralMachine(st, mlevel, s[1..], lv[1..]);
    assert o.cls[1..] == rest.cls;
    UnmarkedAgrees(o, rest, st, base, k, level, s, lv, m);
  }

  lemma AgreesRepeat(st: NeutralState, base: int, k: Ctx, level: int, mlevel: int,
                     s: seq<Cls>, lv: seq<int>, m: seq<bool>)
    requires s != [] && |s| == |lv| == |m| && NeutralText(s) && !m[0] && s[0] == k.last && Rel(st, k)
    requires AgreesWith(NeutralMachine(st, lv[0], s[1..], lv[1..]), st, base, k, level, s[1..], lv[1..], m[1..])
    ensures AgreesWith(NeutralMachine(st, mlevel, s, lv), st, base, k, level, s, lv, m)
  {
    RepeatStep(st, k);
    var o, rest := NeutralMachine(st, mlevel, s, lv), NeutralMachine(st, lv[0], s[1..], lv[1..]);
    assert o.cls[1..] == rest.cls;
    UnmarkedAgrees(o, rest, st, base, k, level, s, lv, m);
  }

  /** By induction on the text. */
  lemma {:induction false} NeutralSimulation(st: NeutralState, base: int, k: Ctx, level: int, mlevel: int,
                                             s: seq<Cls>, lv: seq<int>, m: seq<bool>)
    requires |s| == |lv| == |m| && NeutralText(s) && Marked(base, k, level, s, lv, m)
    requires Rel(st, k) && (IsPending(st) ==> mlevel == level)
    ensures AgreesWith(NeutralMachine(st, mlevel, s, lv), st, base, k, level, s, lv, m)
    decreases |s|
  {
    if s == [] {
      AgreesAtEnd(st, base, k, level, mlevel);
    } else if m[0] {
      TableStep(st, k, s[0], level, L);
      var act, st' := ActionNeutrals(st, s[0]), StateNeutrals(st, s[0]);
      NeutralSimulation(st', base, Advance(k, s[0]), level, lv[0], s[1..], lv[1..], m[1..]);
      MarkedAgrees(NeutralMachine(st, mlevel, s, lv), NeutralMachine(st', lv[0], s[1..], lv[1..]),
                   st, base, k, level, mlevel, act, st', s, lv, m);
    } else if s[0].BN? {
      NeutralSimulation(st, base, k, level, mlevel, s[1..], lv[1..], m[1..]);
      AgreesBN(st, base, k, level, mlevel, s, lv, m);
    } else if s[0] == k.last && lv[0] == level && Marked(base, k, level, s[1..], lv[1..], m[1..]) {
      NeutralSimulation(st, base, k, level, lv[0], s[1..], lv[1..], m[1..]);
      AgreesRepeat(st, base, k, level, mlevel, s, lv, m);
    } else if |s| == 1 {
      AgreesLast(st, base, k, level, mlevel, s, lv, m);
    } else {
      NeutralSimulation(StateNeutrals(st, s[0]), base, Sor(s[0]), lv[1], lv[0], s[1..], lv[1..], m[1..]);
      AgreesBorder(st, base, k, level, mlevel, s, lv, m);
    }
  }

  /** The neutral-type pass on a paragraph, seen at the marked positions, is N1 and N2 on the level
      runs. */
  lemma NeutralPassIsRules(base: int, s: seq<Cls>, lv: seq<int>, m: seq<bool>)
    requires |s| == |lv| == |m| && NeutralText(s)
    requires Marked(base, Sor(EmbeddingDirection(base)), base, s, lv, m)
    ensures Keep(m, Neutrals(base, s, lv)) == NeutralByRuns(base, base, Keep(m, s), Keep(m, lv))
  {
    var k := Sor(EmbeddingDirection(base));
    var x, xl := Keep(m, s), Keep(m, lv);
    NeutralSimulation(StartState(base), base, k, base, base, s, lv, m);
    if x != [] && xl[0] != base {
      NeutralFromBorder(base, k, base, x, xl);
    }
  }
}
