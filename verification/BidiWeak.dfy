/** The weak-type pass: the table machine run over a text with embedding levels and boundary
    neutrals, as a function of the text and as the in-place loop. */
module BidiWeak {
  import opened BidiClasses
  import opened BidiWeakTables

  /** What the machine makes of a text: the class its pending run gets (when there is one), and the
      class and the level of every character. */
  datatype WeakOut = WeakOut(pend: Cls, cls: seq<Cls>, lev: seq<int>)

  /** A character as the table sees it: its class, the level it is given, and the running level
      after it. */
  datatype Fixed = Fixed(cls: Cls, lev: int, level: int)

  /** The character at i is a BN that does not end a level run, so the machine passes over it. */
  predicate Skipped(base: int, level: int, s: seq<Cls>, lv: seq<int>, i: nat)
    requires i < |s| == |lv|
  {
    && s[i].BN?
    && !(i + 1 == |s| && level != base)
    && !(i + 1 < |s| && level != lv[i + 1] && !s[i + 1].BN?)
  }

  /** The last BN of a level run acts as the run's boundary character, sor and eor in one. */
  function Fix(level: int, s: seq<Cls>, lv: seq<int>, i: nat): Fixed
    requires i < |s| == |lv|
  {
    if !s[i].BN? then Fixed(s[i], lv[i], level)
    else if i + 1 == |s| then Fixed(EmbeddingDirection(level), level, level)
    else
      var newlevel := Max(level, lv[i + 1]);
      Fixed(EmbeddingDirection(newlevel), newlevel, lv[i + 1])
  }

  function StartState(base: int): WeakState {
    if Odd(base) then xr else xl
  }

  /** The class a run still pending at the end of the text gets. */
  function EndPend(st: WeakState, level: int): Cls {
    var a := ActionWeak(st, EmbeddingDirection(level));
    if a.run.To? then a.run.cls else BN
  }

  function Current(a: Action, c: Cls, pend: Cls): Cls {
    if a.cur.To? then a.cur.cls else if a.inc then pend else c
  }

  function WeakMachine(base: int, st: WeakState, level: int, s: seq<Cls>, lv: seq<int>): (o: WeakOut)
    requires |s| == |lv| && UpToBN(s)
    ensures |o.cls| == |s| == |o.lev|
    decreases |s|
  {
    if s == [] then WeakOut(EndPend(st, level), [], [])
    else if Skipped(base, level, s, lv, 0) then
      var rest := WeakMachine(base, st, level, s[1..], lv[1..]);
      WeakOut(rest.pend, [if IsDeferredState(st) then rest.pend else BN] + rest.cls, [level] + rest.lev)
    else
      var f := Fix(level, s, lv, 0);
      var a := ActionWeak(st, f.cls);
      var rest := WeakMachine(base, StateWeak(st, f.cls), f.level, s[1..], lv[1..]);
      WeakOut(if a.run.To? then a.run.cls else rest.pend,
              [Current(a, f.cls, rest.pend)] + rest.cls, [f.lev] + rest.lev)
  }

  /** The weak-type pass on a paragraph. */
  function Weak(base: int, s: seq<Cls>, lv: seq<int>): (o: WeakOut)
    requires |s| == |lv| && UpToBN(s)
    ensures |o.cls| == |s| == |o.lev|
  {
    WeakMachine(base, StartState(base), base, s, lv)
  }

  /** The machine's run over a text, position by position: the state and the running level in front
      of each character, and the class a run pending there gets. */
  datatype Trace = Trace(st: seq<WeakState>, level: seq<int>, pend: seq<Cls>)

  /** Passing over a BN. */
  ghost predicate SkipStep(out: WeakOut, t: Trace, i: nat)
    requires i < |out.cls| == |out.lev| && |t.st| == |t.level| == |t.pend| == |out.cls| + 1
  {
    && t.st[i + 1] == t.st[i] && t.level[i + 1] == t.level[i] && t.pend[i + 1] == t.pend[i]
    && out.cls[i] == (if IsDeferredState(t.st[i]) then t.pend[i] else BN)
    && out.lev[i] == t.level[i]
  }

  /** Looking a character up in the tables. */
  ghost predicate TableStep(out: WeakOut, t: Trace, i: nat, f: Fixed)
    requires i < |out.cls| == |out.lev| && |t.st| == |t.level| == |t.pend| == |out.cls| + 1
  {
    WeakInput(f.cls) &&
    var a := ActionWeak(t.st[i], f.cls);
    && t.st[i + 1] == StateWeak(t.st[i], f.cls) && t.level[i + 1] == f.level
    && t.pend[i] == (if a.run.To? then a.run.cls else t.pend[i + 1])
    && out.cls[i] == Current(a, f.cls, t.pend[i + 1])
    && out.lev[i] == f.lev
  }

  /** At position i the trace takes one step of the machine, with the result out. */
  ghost predicate TraceStep(base: int, s: seq<Cls>, lv: seq<int>, out: WeakOut, t: Trace, i: nat)
    requires i < |s| == |lv| == |out.cls| == |out.lev| && UpToBN(s)
    requires |t.st| == |t.level| == |t.pend| == |s| + 1
  {
    if Skipped(base, t.level[i], s, lv, i) then SkipStep(out, t, i)
    else TableStep(out, t, i, Fix(t.level[i], s, lv, i))
  }

  ghost predicate Traces(base: int, s: seq<Cls>, lv: seq<int>, out: WeakOut, t: Trace)
    requires |s| == |lv| == |out.cls| == |out.lev| && UpToBN(s)
  {
    && |t.st| == |t.level| == |t.pend| == |s| + 1
    && t.pend[|s|] == EndPend(t.st[|s|], t.level[|s|])
    && forall i :: 0 <= i < |s| ==> TraceStep(base, s, lv, out, t, i)
  }

  lemma TraceStepShift(base: int, s: seq<Cls>, lv: seq<int>, out: WeakOut, t: Trace, tail: WeakOut, u: Trace, i: nat)
    requires 0 < i < |s| == |lv| == |out.cls| == |out.lev| && UpToBN(s)
    requires |t.st| == |t.level| == |t.pend| == |s| + 1
    requires tail.cls == out.cls[1..] && tail.lev == out.lev[1..]
    requires u == Trace(t.st[1..], t.level[1..], t.pend[1..])
    requires TraceStep(base, s[1..], lv[1..], tail, u, i - 1)
    ensures TraceStep(base, s, lv, out, t, i)
  {
    assert Skipped(base, u.level[i - 1], s[1..], lv[1..], i - 1) == Skipped(base, t.level[i], s, lv, i);
    assert Fix(u.level[i - 1], s[1..], lv[1..], i - 1) == Fix(t.level[i], s, lv, i);
  }

  lemma TraceShift(base: int, s: seq<Cls>, lv: seq<int>, out: WeakOut, t: Trace, tail: WeakOut, u: Trace)
    requires s != [] && |s| == |lv| == |out.cls| == |out.lev| && UpToBN(s)
    requires |t.st| == |t.level| == |t.pend| == |s| + 1
    requires tail.cls == out.cls[1..] && tail.lev == out.lev[1..]
    requires u == Trace(t.st[1..], t.level[1..], t.pend[1..])
    requires Traces(base, s[1..], lv[1..], tail, u)
    requires TraceStep(base, s, lv, out, t, 0)
    ensures Traces(base, s, lv, out, t)
  {
    forall i | 0 < i < |s|
      ensures TraceStep(base, s, lv, out, t, i)
    {
      assert TraceStep(base, s[1..], lv[1..], tail, u, i - 1);
      TraceStepShift(base, s, lv, out, t, tail, u, i);
    }
  }

  /** Puts one step of the machine in front of a trace of the rest. */
  lemma TraceCons(base: int, st: WeakState, level: int, s: seq<Cls>, lv: seq<int>, u: Trace) returns (t: Trace)
    requires s != [] && |s| == |lv| && UpToBN(s)
    requires |u.st| == |u.level| == |u.pend| == |s|
    requires var f := Fix(level, s, lv, 0);
             if Skipped(base, level, s, lv, 0) then
               u.st[0] == st && u.level[0] == level
               && u.pend[0] == WeakMachine(base, st, level, s[1..], lv[1..]).pend
             else
               u.st[0] == StateWeak(st, f.cls) && u.level[0] == f.level
               && u.pend[0] == WeakMachine(base, StateWeak(st, f.cls), f.level, s[1..], lv[1..]).pend
    ensures t.st == [st] + u.st && t.level == [level] + u.level
    ensures t.pend == [WeakMachine(base, st, level, s, lv).pend] + u.pend
    ensures TraceStep(base, s, lv, WeakMachine(base, st, level, s, lv), t, 0)
  {
    t := Trace([st] + u.st, [level] + u.level, [WeakMachine(base, st, level, s, lv).pend] + u.pend);
  }

  lemma {:induction false} RunTrace(base: int, st: WeakState, level: int, s: seq<Cls>, lv: seq<int>)
    returns (t: Trace)
    requires |s| == |lv| && UpToBN(s)
    ensures Traces(base, s, lv, WeakMachine(base, st, level, s, lv), t)
    ensures t.st[0] == st && t.level[0] == level && t.pend[0] == WeakMachine(base, st, level, s, lv).pend
    decreases |s|
  {
    hide StateWeak, ActionWeak, TraceStep, IsDeferredState, Current;
    var out := WeakMachine(base, st, level, s, lv);
    if s == [] {
      t := Trace([st], [level], [out.pend]);
    } else {
      var f := Fix(level, s, lv, 0);
      var u;
      if Skipped(base, level, s, lv, 0) {
        u := RunTrace(base, st, level, s[1..], lv[1..]);
        t := TraceCons(base, st, level, s, lv, u);
        TraceShift(base, s, lv, out, t, WeakMachine(base, st, level, s[1..], lv[1..]), u);
      } else {
        u := RunTrace(base, StateWeak(st, f.cls), f.level, s[1..], lv[1..]);
        t := TraceCons(base, st, level, s, lv, u);
        TraceShift(base, s, lv, out, t, WeakMachine(base, StateWeak(st, f.cls), f.level, s[1..], lv[1..]), u);
      }
    }
  }

  /** The boundary-neutral part of the loop body: flattens the level of a BN and, at the end of a
      level run, makes the BN the strong character that stands for sor and eor. */
  method FixBoundary(baselevel: int, level: int, pcls: array<Cls>, plevel: array<int>, ich: nat,
                     ghost s: seq<Cls>, ghost lv: seq<int>, ghost goal: WeakOut, ghost t: Trace)
    returns (skip: bool, newLevel: int)
    requires ich < pcls.Length == plevel.Length == |s| == |lv| && UpToBN(s)
    requires forall j :: ich <= j < |s| ==> pcls[j] == s[j] && plevel[j] == lv[j]
    requires |goal.cls| == |goal.lev| == |s| && Traces(baselevel, s, lv, goal, t) && level == t.level[ich]
    modifies pcls, plevel
    ensures skip ==> pcls[ich].BN? && level == newLevel && SkipStep(goal, t, ich)
    ensures !skip ==> TableStep(goal, t, ich, Fixed(pcls[ich], plevel[ich], newLevel))
    ensures plevel[ich] == goal.lev[ich]
    ensures forall j :: 0 <= j < pcls.Length && j != ich ==> pcls[j] == old(pcls[j])
    ensures forall j :: 0 <= j < pcls.Length && j != ich ==> plevel[j] == old(plevel[j])
  {
    assert TraceStep(baselevel, s, lv, goal, t, ich);
    skip, newLevel := false, level;
    if pcls[ich].BN? {
      // flatten levels unless at a level change
      plevel[ich] := level;
      if ich + 1 == pcls.Length && level != baselevel {
        pcls[ich] := EmbeddingDirection(level);
      } else if ich + 1 < pcls.Length && level != plevel[ich + 1] && !pcls[ich + 1].BN? {
        newLevel := plevel[ich + 1];
        if level > newLevel {
          newLevel := level;
        }
        plevel[ich] := newLevel;
        pcls[ich] := EmbeddingDirection(newLevel);
        newLevel := plevel[ich + 1];
      } else {
        skip := true;
      }
    }
  }

  /** Carries out one action at position ich with cchRun characters deferred in front of it.  The
      ghosts pend and pend' are the classes pending before and after the character. */
  method ApplyAction(action: Action, pcls: array<Cls>, ich: nat, cchRun: nat,
                     ghost goal: seq<Cls>, ghost pend: Cls, ghost pend': Cls) returns (run: nat)
    requires ich < pcls.Length && Window(pcls, goal, ich, cchRun, pend)
    requires goal[ich] == Current(action, pcls[ich], pend')
    requires pend == if action.run.To? then action.run.cls else pend'
    requires action.run.To? || action.inc || cchRun == 0
    requires action.inc ==> action.cur.XX?
    modifies pcls
    ensures run == (if action.run.To? then 0 else cchRun) + (if action.inc then 1 else 0)
    ensures Window(pcls, goal, ich + 1, run, pend')
    ensures forall j :: ich < j < pcls.Length ==> pcls[j] == old(pcls[j])
  {
    run := cchRun;
    // resolve the deferred run
    if action.run.To? {
      SetDeferredRun(pcls, run, ich, action.run.cls);
      run := 0;
    }
    // resolve the current character
    if action.cur.To? {
      pcls[ich] := action.cur.cls;
    }
    // extend the deferred run
    if action.inc {
      run := run + 1;
    }
  }

  /** The table part of the loop body: looks the character at ich up and carries out the action. */
  method LookUp(pcls: array<Cls>, ich: nat, state: WeakState, cchRun: nat,
                ghost goal: WeakOut, ghost t: Trace, ghost f: Fixed)
    returns (newState: WeakState, run: nat)
    requires ich < pcls.Length == |goal.cls| == |goal.lev| && |t.st| == |t.level| == |t.pend| == pcls.Length + 1
    requires state == t.st[ich] && (cchRun > 0) == IsDeferredState(state)
    requires f.cls == pcls[ich] && TableStep(goal, t, ich, f)
    requires Window(pcls, goal.cls, ich, cchRun, t.pend[ich])
    modifies pcls
    ensures newState == t.st[ich + 1] && (run > 0) == IsDeferredState(newState)
    ensures Window(pcls, goal.cls, ich + 1, run, t.pend[ich + 1])
    ensures forall j :: ich < j < pcls.Length ==> pcls[j] == old(pcls[j])
  {
    var cls := pcls[ich];
    TablesVerified(state, cls);
    run := ApplyAction(ActionWeak(state, cls), pcls, ich, cchRun, goal.cls, t.pend[ich], t.pend[ich + 1]);
    newState := StateWeak(state, cls);
  }

  /** Resolves a run deferred to the end of the text by the direction of the current level. */
  method FlushRun(pcls: array<Cls>, state: WeakState, level: int, cchRun: nat, ghost goal: seq<Cls>)
    requires (cchRun > 0) == IsDeferredState(state)
    requires Window(pcls, goal, pcls.Length, cchRun, EndPend(state, level))
    modifies pcls
    ensures pcls[..] == goal
  {
    TablesVerified(state, EmbeddingDirection(level));
    var action := ActionWeak(state, EmbeddingDirection(level));
    if action.run.To? {
      SetDeferredRun(pcls, cchRun, pcls.Length, action.run.cls);
    }
  }

  /** The loop invariant: characters before the deferred window are final, those in it all get the
      class pending there, those from ich on are untouched; the window is nonempty exactly in the
      deferred states. */
  ghost predicate Reached(pcls: array<Cls>, plevel: array<int>, s: seq<Cls>, lv: seq<int>, goal: WeakOut, t: Trace,
                          ich: int, state: WeakState, level: int, cchRun: int)
    reads pcls, plevel
  {
    && pcls.Length == plevel.Length == |s| == |lv| == |goal.cls| == |goal.lev|
    && 0 <= ich <= pcls.Length && |t.st| == |t.level| == |t.pend| == |s| + 1
    && state == t.st[ich] && level == t.level[ich]
    && (cchRun > 0) == IsDeferredState(state)
    && Window(pcls, goal.cls, ich, cchRun, t.pend[ich])
    && (forall j :: 0 <= j < ich ==> plevel[j] == goal.lev[j])
    && (forall j :: ich <= j < |s| ==> pcls[j] == s[j] && plevel[j] == lv[j])
  }

  /** The loop body. */
  method ResolveAt(baselevel: int, pcls: array<Cls>, plevel: array<int>, ich: nat,
                   state: WeakState, level: int, cchRun: nat,
                   ghost s: seq<Cls>, ghost lv: seq<int>, ghost goal: WeakOut, ghost t: Trace)
    returns (newState: WeakState, newLevel: int, run: nat)
    requires ich < pcls.Length && UpToBN(s) && Reached(pcls, plevel, s, lv, goal, t, ich, state, level, cchRun)
    requires Traces(baselevel, s, lv, goal, t)
    modifies pcls, plevel
    ensures Reached(pcls, plevel, s, lv, goal, t, ich + 1, newState, newLevel, run)
  {
    newState, run := state, cchRun;
    var skip;
    skip, newLevel := FixBoundary(baselevel, level, pcls, plevel, ich, s, lv, goal, t);
    assert Window(pcls, goal.cls, ich, cchRun, t.pend[ich]);
    if skip {
      // do not interrupt runs
      if run != 0 {
        run := run + 1;
      }
      assert Window(pcls, goal.cls, ich + 1, run, t.pend[ich + 1]);
    } else {
      newState, run := LookUp(pcls, ich, state, run, goal, t, Fixed(pcls[ich], plevel[ich], newLevel));
    }
  }

  /** The loop of the in-place pass, for a goal that the trace t leads to. */
  method RunWeak(baselevel: int, pcls: array<Cls>, plevel: array<int>,
                 ghost s: seq<Cls>, ghost lv: seq<int>, ghost goal: WeakOut, ghost t: Trace)
    requires UpToBN(s) && Reached(pcls, plevel, s, lv, goal, t, 0, StartState(baselevel), baselevel, 0)
    requires Traces(baselevel, s, lv, goal, t)
    modifies pcls, plevel
    ensures pcls[..] == goal.cls && plevel[..] == goal.lev
  {
    hide StateWeak, ActionWeak, TraceStep, IsDeferredState, StartState;
    var cch := pcls.Length;
    var state := StartState(baselevel);
    var level := baselevel;
    var cchRun := 0;
    var ich := 0;
    while ich < cch
      invariant Reached(pcls, plevel, s, lv, goal, t, ich, state, level, cchRun)
    {
      state, level, cchRun := ResolveAt(baselevel, pcls, plevel, ich, state, level, cchRun, s, lv, goal, t);
      ich := ich + 1;
    }
    FlushRun(pcls, state, level, cchRun, goal.cls);
  }

  /** The in-place pass computes what the machine does. */
  method ResolveWeak(baselevel: int, pcls: array<Cls>, plevel: array<int>)
    requires pcls.Length == plevel.Length && UpToBN(pcls[..])
    modifies pcls, plevel
    ensures pcls[..] == Weak(baselevel, old(pcls[..]), old(plevel[..])).cls
    ensures plevel[..] == Weak(baselevel, old(pcls[..]), old(plevel[..])).lev
  {
    ghost var s, lv := pcls[..], plevel[..];
    ghost var t := RunTrace(baselevel, StartState(baselevel), baselevel, s, lv);
    RunWeak(baselevel, pcls, plevel, s, lv, Weak(baselevel, s, lv), t);
  }
}
