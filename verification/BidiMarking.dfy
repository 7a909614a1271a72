/** What the weak-type pass leaves is a text that the neutral-type pass can read: the BNs it has
    rewritten stand for level-run borders or repeat the character before. */
module BidiMarking {
  import opened BidiClasses
  import opened BidiRuns
  import opened BidiWeakTables
  import opened BidiWeak
  import opened BidiWeakProof
  import N = BidiNeutralProof
  import Neutral = BidiNeutral

  /** A context as the simulation of the weak rules carries it, in any state. */
  predicate Sound(k: Ctx) {
    WeakInput(k.prev) && !k.prev.NSM? && WeakInput(k.before) && (k.dir.L? || k.dir.R?)
  }

  /** The class the rules give an ordinary character is one the neutral pass reads, EN stands only
      behind R, and W7 looks back to the nearest L or R of the result. */
  lemma RuleOutput(k: Ctx, c: Cls, look: Look)
    requires Sound(k) && WeakInput(c)
    ensures var w := AfterW7(k, c, look);
            && Neutral.NeutralInput(w) && (w.EN? ==> k.dir.R?)
            && (if w.L? || w.R? then w else k.dir) == Advance(k, c, look).dir
  {}

  lemma RelSound(st: WeakState, k: Ctx, look: Look)
    requires Rel(st, k, look)
    ensures Sound(k)
  {}

  /** A pending run becomes ON or AN, EN behind R, or L behind L. */
  lemma PendingClass(st: WeakState, k: Ctx, look: Look)
    requires Rel(st, k, look) && IsDeferredState(st)
    ensures var p := PendOf(st, look);
            Neutral.NeutralInput(p) && (p.EN? ==> k.dir.R?) && (p.L? ==> k.dir.L?) && !p.R?
  {}

  /** The context of the neutral pass that goes with a context of the weak rules, with the class of
      the last character and the direction that N1 sees. */
  ghost predicate Goes(n: N.Ctx, st: WeakState, k: Ctx, o: WeakOut) {
    n.strong == k.dir && (IsDeferredState(st) ==> n.last == o.pend)
  }

  /** No level is below the base level. */
  predicate NotBelow(base: int, lv: seq<int>) {
    forall i :: 0 <= i < |lv| ==> lv[i] >= base
  }

  ghost predicate Marks(base: int, n: N.Ctx, level: int, s: seq<Cls>, o: WeakOut)
    requires |s| == |o.cls| == |o.lev|
  {
    N.Marked(base, n, level, o.cls, o.lev, NotBN(s)) && Neutral.NeutralText(o.cls)
  }

  lemma MarksTail(s: seq<Cls>)
    requires s != []
    ensures NotBN(s)[0] == !s[0].BN? && NotBN(s)[1..] == NotBN(s[1..])
  {}

  lemma TextCons(c: Cls, s: seq<Cls>)
    requires (Neutral.NeutralInput(c) || c.BN?) && Neutral.NeutralText(s)
    ensures Neutral.NeutralText([c] + s)
  {}

  lemma MarksSkip(base: int, n: N.Ctx, st: WeakState, k: Ctx, level: int, s: seq<Cls>, o: WeakOut, rest: WeakOut)
    requires s != [] && |s| == |o.cls| == |o.lev| == |rest.cls| + 1 == |rest.lev| + 1 && s[0].BN? && level >= base
    requires o == WeakOut(rest.pend, [if IsDeferredState(st) then rest.pend else BN] + rest.cls, [level] + rest.lev)
    requires IsDeferredState(st) ==> n.last == rest.pend && Neutral.NeutralInput(rest.pend)
    requires Marks(base, n, level, s[1..], rest)
    ensures Marks(base, n, level, s, o)
  {
    MarksTail(s);
    TextCons(o.cls[0], rest.cls);
    assert o.cls[1..] == rest.cls && o.lev[1..] == rest.lev;
  }

  lemma MarksBorder(base: int, n: N.Ctx, level: int, s: seq<Cls>, lv: seq<int>, o: WeakOut, rest: WeakOut)
    requires |s| == |lv| == |o.cls| == |o.lev| == |rest.cls| + 1 == |rest.lev| + 1 && |s| > 1
    requires s[0].BN? && !s[1].BN? && lv[1] != level && level >= base
    requires o.cls == [Border(level, lv[1])] + rest.cls && o.lev == [Max(level, lv[1])] + rest.lev
    requires Marks(base, N.Sor(Border(level, lv[1])), lv[1], s[1..], rest)
    ensures Marks(base, n, level, s, o)
  {
    MarksTail(s);
    MarksTail(s[1..]);
    TextCons(o.cls[0], rest.cls);
    assert o.cls[1..] == rest.cls && o.lev[1..] == rest.lev;
    assert o.lev[1] == rest.lev[0] == lv[1];
    assert N.IsBorder(base, level, o.cls, o.lev, NotBN(s));
  }

  lemma MarksOrdinary(base: int, n: N.Ctx, level: int, s: seq<Cls>, o: WeakOut, rest: WeakOut, w: Cls)
    requires s != [] && |s| == |o.cls| == |o.lev| == |rest.cls| + 1 == |rest.lev| + 1 && !s[0].BN? && level >= base
    requires o.cls == [w] + rest.cls && o.lev == [level] + rest.lev
    requires Neutral.NeutralInput(w) && (w.EN? ==> n.strong.R?)
    requires Marks(base, N.Advance(n, w), level, s[1..], rest)
    ensures Marks(base, n, level, s, o)
  {
    MarksTail(s);
    TextCons(w, rest.cls);
    assert o.cls[1..] == rest.cls && o.lev[1..] == rest.lev;
  }

  lemma PendingSound(base: int, st: WeakState, k: Ctx, level: int, s: seq<Cls>, lv: seq<int>)
    requires |s| == |lv| && Ready(st, k, level, s, lv)
    ensures IsDeferredState(st) ==> Neutral.NeutralInput(WeakMachine(base, st, level, s, lv).pend)
  {
    WeakSimulation(base, st, k, level, s, lv);
    if IsDeferredState(st) {
      PendingClass(st, k, Ahead(k, RunOf(level, s, lv)));
    }
  }

  /** What the machine makes of an ordinary character, and how it goes on. */
  lemma OrdinaryOutput(base: int, st: WeakState, k: Ctx, n: N.Ctx, level: int, s: seq<Cls>, lv: seq<int>)
    returns (st': WeakState, k': Ctx, w: Cls)
    requires s != [] && |s| == |lv| && Ready(st, k, level, s, lv) && !s[0].BN? && n.strong == k.dir
    ensures Ready(st', k', level, s[1..], lv[1..])
    ensures var rest := WeakMachine(base, st', level, s[1..], lv[1..]);
            && WeakMachine(base, st, level, s, lv).cls == [w] + rest.cls
            && WeakMachine(base, st, level, s, lv).lev == [level] + rest.lev
            && Goes(N.Advance(n, w), st', k', rest)
    ensures Neutral.NeutralInput(w) && (w.EN? ==> n.strong.R?)
  {
    var look;
    look, st', k' := ReadyOrdinary(st, k, level, s, lv);
    RelSound(st, k, Ahead(k, RunOf(level, s, lv)));
    RuleOutput(k, s[0], look);
    WeakSimulation(base, st', k', level, s[1..], lv[1..]);
    w := AfterW7(k, s[0], look);
  }

  lemma BorderOutput(base: int, st: WeakState, k: Ctx, level: int, s: seq<Cls>, lv: seq<int>) returns (st': WeakState)
    requires |s| == |lv| > 1 && Ready(st, k, level, s, lv) && s[0].BN? && !Skipped(base, level, s, lv, 0)
    ensures !s[1].BN? && lv[1] != level
    ensures var rest := WeakMachine(base, st', lv[1], s[1..], lv[1..]);
            && Ready(st', Sor(Border(level, lv[1])), lv[1], s[1..], lv[1..]) && !IsDeferredState(st')
            && WeakMachine(base, st, level, s, lv).cls == [Border(level, lv[1])] + rest.cls
            && WeakMachine(base, st, level, s, lv).lev == [Max(level, lv[1])] + rest.lev
  {
    hide StateWeak, ActionWeak, Ready, Rel, RunOf;
    st' := ReadyBorder(base, st, k, level, s, lv);
    StrongEntry(st, Border(level, lv[1]));
  }

  lemma MarksLast(base: int, st: WeakState, n: N.Ctx, level: int, s: seq<Cls>, lv: seq<int>)
    requires |s| == |lv| == 1 && s[0].BN? && level != base && level >= base
    ensures Marks(base, n, level, s, WeakMachine(base, st, level, s, lv))
  {
    StrongEntry(st, EmbeddingDirection(level));
    MarksTail(s);
  }

  lemma MarksSkipped(base: int, st: WeakState, k: Ctx, n: N.Ctx, level: int, s: seq<Cls>, lv: seq<int>)
    requires s != [] && |s| == |lv| && Ready(st, k, level, s, lv) && level >= base && Skipped(base, level, s, lv, 0)
    requires Goes(n, st, k, WeakMachine(base, st, level, s, lv))
    requires Marks(base, n, level, s[1..], WeakMachine(base, st, level, s[1..], lv[1..]))
    ensures Marks(base, n, level, s, WeakMachine(base, st, level, s, lv))
  {
    PendingSound(base, st, k, level, s, lv);
    MarksSkip(base, n, st, k, level, s, WeakMachine(base, st, level, s, lv),
              WeakMachine(base, st, level, s[1..], lv[1..]));
  }

  /** The context for the text behind a BN that is passed over. */
  lemma GoesOn(base: int, st: WeakState, k: Ctx, n: N.Ctx, level: int, s: seq<Cls>, lv: seq<int>)
    requires s != [] && |s| == |lv| && UpToBN(s) && Skipped(base, level, s, lv, 0)
    requires Goes(n, st, k, WeakMachine(base, st, level, s, lv))
    ensures Goes(n, st, k, WeakMachine(base, st, level, s[1..], lv[1..]))
  {}

  /** By induction on the text. */
  lemma {:induction false} WeakMarks(base: int, st: WeakState, k: Ctx, n: N.Ctx, level: int, s: seq<Cls>, lv: seq<int>)
    requires |s| == |lv| && Ready(st, k, level, s, lv) && level >= base && NotBelow(base, lv)
    requires Goes(n, st, k, WeakMachine(base, st, level, s, lv))
    ensures Marks(base, n, level, s, WeakMachine(base, st, level, s, lv))
    decreases |s|
  {
    if s == [] {
    } else if Skipped(base, level, s, lv, 0) {
      ReadySkip(base, st, k, level, s, lv);
      GoesOn(base, st, k, n, level, s, lv);
      WeakMarks(base, st, k, n, level, s[1..], lv[1..]);
      MarksSkipped(base, st, k, n, level, s, lv);
    } else if !s[0].BN? {
      OrdinaryMarks(base, st, k, n, level, s, lv);
    } else if |s| == 1 {
      MarksLast(base, st, n, level, s, lv);
    } else {
      BorderMarks(base, st, k, n, level, s, lv);
    }
  }

  lemma {:induction false} OrdinaryMarks(base: int, st: WeakState, k: Ctx, n: N.Ctx, level: int, s: seq<Cls>,
                                         lv: seq<int>)
    requires s != [] && |s| == |lv| && Ready(st, k, level, s, lv) && !s[0].BN? && level >= base && NotBelow(base, lv)
    requires Goes(n, st, k, WeakMachine(base, st, level, s, lv))
    ensures Marks(base, n, level, s, WeakMachine(base, st, level, s, lv))
    decreases |s|, 0
  {
    var st', k', w := OrdinaryOutput(base, st, k, n, level, s, lv);
    WeakMarks(base, st', k', N.Advance(n, w), level, s[1..], lv[1..]);
    MarksOrdinary(base, n, level, s, WeakMachine(base, st, level, s, lv),
                  WeakMachine(base, st', level, s[1..], lv[1..]), w);
  }

  lemma {:induction false} BorderMarks(base: int, st: WeakState, k: Ctx, n: N.Ctx, level: int, s: seq<Cls>,
                                       lv: seq<int>)
    requires |s| == |lv| > 1 && Ready(st, k, level, s, lv) && s[0].BN? && !Skipped(base, level, s, lv, 0)
    requires level >= base && NotBelow(base, lv)
    ensures Marks(base, n, level, s, WeakMachine(base, st, level, s, lv))
    decreases |s|, 0
  {
    var d := Border(level, lv[1]);
    var st' := BorderOutput(base, st, k, level, s, lv);
    WeakMarks(base, st', Sor(d), N.Sor(d), lv[1], s[1..], lv[1..]);
    MarksBorder(base, n, level, s, lv, WeakMachine(base, st, level, s, lv),
                WeakMachine(base, st', lv[1], s[1..], lv[1..]));
  }

  /** The weak-type pass on a paragraph leaves a text for the neutral-type pass. */
  lemma WeakPassMarks(base: int, s: seq<Cls>, lv: seq<int>)
    requires |s| == |lv| && UpToBN(s) && Levelled(base, s, lv) && NotBelow(base, lv)
    ensures var o := Weak(base, s, lv);
            && Neutral.NeutralText(o.cls)
            && N.Marked(base, N.Sor(EmbeddingDirection(base)), base, o.cls, o.lev, NotBN(s))
  {
    var d := EmbeddingDirection(base);
    WeakMarks(base, StartState(base), Sor(d), N.Sor(d), base, s, lv);
  }
}
