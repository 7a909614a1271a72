/** The neutral-type pass: its tables, the table machine as a function of the text, and the in-place
    loop. */
module BidiNeutral {
  import opened BidiClasses

  datatype NeutralState =
    | r    // R and characters resolved to R
    | l    // L and characters resolved to L
    | rn   // N preceded by right
    | ln   // N preceded by left
    | a    // AN preceded by left
    | na   // N preceded by a

  /** What happens to the deferred neutrals: nothing, the embedding direction, or a strong class. */
  datatype Deferred = Nothing | Embedding | Strong(cls: Cls)

  /** An action: the deferred run, the class set on the current character (ON for none), and whether
      the current character is deferred. */
  datatype NeutralAction = NeutralAction(run: Deferred, cur: Cls, inc: bool)

  const zz := NeutralAction(Nothing, ON, false)
  const nL := NeutralAction(Nothing, L, false)
  const In := NeutralAction(Nothing, ON, true)
  const En := NeutralAction(Embedding, ON, false)
  const Rn := NeutralAction(Strong(R), ON, false)
  const Ln := NeutralAction(Strong(L), ON, false)
  const LnL := NeutralAction(Strong(L), L, false)

  /** The classes that select a column of the tables. */
  predicate NeutralInput(c: Cls) {
    Ord(c) < 5
  }

  predicate NeutralText(s: seq<Cls>) {
    forall i :: 0 <= i < |s| ==> NeutralInput(s[i]) || s[i].BN?
  }

  function Act(c: Cls, n: NeutralAction, l: NeutralAction, r: NeutralAction, an: NeutralAction,
               en: NeutralAction): NeutralAction
    requires NeutralInput(c)
  {
    match c case ON => n case L => l case R => r case AN => an case EN => en
  }

  function Next(c: Cls, n: NeutralState, l: NeutralState, r: NeutralState, an: NeutralState,
                en: NeutralState): NeutralState
    requires NeutralInput(c)
  {
    match c case ON => n case L => l case R => r case AN => an case EN => en
  }

  function ActionNeutrals(st: NeutralState, c: Cls): NeutralAction
    requires NeutralInput(c)
  {
    match st
    //             N,  L,  R,  AN, EN
    case r => Act(c, In, zz, zz, zz, zz)
    case l => Act(c, In, zz, zz, zz, nL)

    case rn => Act(c, In, En, Rn, Rn, Rn)
    case ln => Act(c, In, Ln, En, En, LnL)

    case a => Act(c, In, zz, zz, zz, nL)
    case na => Act(c, In, En, Rn, Rn, En)
  }

  function StateNeutrals(st: NeutralState, c: Cls): NeutralState
    requires NeutralInput(c)
  {
    match st
    //              N,  L, R, AN, EN
    case r => Next(c, rn, l, r, r, r)
    case l => Next(c, ln, l, r, a, l)

    case rn => Next(c, rn, l, r, r, r)
    case ln => Next(c, ln, l, r, a, l)

    case a => Next(c, na, l, r, a, l)
    case na => Next(c, na, l, r, a, l)
  }

  /** The class for the deferred run, ON when it is not to be resolved. */
  function GetDeferredNeutrals(act: NeutralAction, level: int): Cls {
    match act.run
    case Nothing => ON
    case Embedding => EmbeddingDirection(level)
    case Strong(c) => c
  }

  /** The states in which neutrals are deferred. */
  predicate IsPending(st: NeutralState) {
    st.rn? || st.ln? || st.na?
  }

  /** Neutrals and only they are deferred, exactly into the pending states; exactly the pending states
      settle their run at any other character. */
  lemma TablesVerified(st: NeutralState, c: Cls, level: int)
    requires NeutralInput(c)
    ensures var act := ActionNeutrals(st, c);
            && act.inc == c.ON? == IsPending(StateNeutrals(st, c))
            && (act.cur == ON || (act.cur == L && c.EN?))
            && (GetDeferredNeutrals(act, level) == ON || GetDeferredNeutrals(act, level) == L
                || GetDeferredNeutrals(act, level) == R)
            && ((GetDeferredNeutrals(act, level) != ON) == (IsPending(st) && !c.ON?))
  {}

  datatype NeutralOut = NeutralOut(pend: Cls, cls: seq<Cls>)

  function StartState(base: int): NeutralState {
    if Odd(base) then r else l
  }

  function EndPend(st: NeutralState, level: int): Cls {
    GetDeferredNeutrals(ActionNeutrals(st, EmbeddingDirection(level)), level)
  }

  function Current(act: NeutralAction, c: Cls, pend: Cls): Cls {
    if !act.cur.ON? then act.cur else if act.inc then pend else c
  }

  function PendBefore(act: NeutralAction, level: int, pend: Cls): Cls {
    if !GetDeferredNeutrals(act, level).ON? then GetDeferredNeutrals(act, level) else pend
  }

  /** What the machine makes of a text, when started in a state and with the level of the last
      character it read. */
  function NeutralMachine(st: NeutralState, level: int, s: seq<Cls>, lv: seq<int>): (o: NeutralOut)
    requires |s| == |lv| && NeutralText(s)
    ensures |o.cls| == |s|
    decreases |s|
  {
    if s == [] then NeutralOut(EndPend(st, level), [])
    else if s[0].BN? then
      var rest := NeutralMachine(st, level, s[1..], lv[1..]);
      NeutralOut(rest.pend, [if IsPending(st) then rest.pend else BN] + rest.cls)
    else
      var act := ActionNeutrals(st, s[0]);
      var rest := NeutralMachine(StateNeutrals(st, s[0]), lv[0], s[1..], lv[1..]);
      NeutralOut(PendBefore(act, level, rest.pend), [Current(act, s[0], rest.pend)] + rest.cls)
  }

  /** The neutral-type pass on a paragraph. */
  function Neutrals(base: int, s: seq<Cls>, lv: seq<int>): (t: seq<Cls>)
    requires |s| == |lv| && NeutralText(s)
    ensures |t| == |s|
  {
    NeutralMachine(StartState(base), base, s, lv).cls
  }

  /** The machine's run, position by position. */
  datatype Trace = Trace(st: seq<NeutralState>, level: seq<int>, pend: seq<Cls>)

  ghost predicate TraceStep(s: seq<Cls>, lv: seq<int>, out: seq<Cls>, t: Trace, i: nat)
    requires i < |s| == |lv| == |out| && NeutralText(s)
    requires |t.st| == |t.level| == |t.pend| == |s| + 1
  {
    if s[i].BN? then
      && t.st[i + 1] == t.st[i] && t.level[i + 1] == t.level[i] && t.pend[i + 1] == t.pend[i]
      && out[i] == (if IsPending(t.st[i]) then t.pend[i] else BN)
    else
      var act := ActionNeutrals(t.st[i], s[i]);
      && t.st[i + 1] == StateNeutrals(t.st[i], s[i]) && t.level[i + 1] == lv[i]
      && t.pend[i] == PendBefore(act, t.level[i], t.pend[i + 1])
      && out[i] == Current(act, s[i], t.pend[i + 1])
  }

  ghost predicate Traces(s: seq<Cls>, lv: seq<int>, out: seq<Cls>, t: Trace)
    requires |s| == |lv| == |out| && NeutralText(s)
  {
    && |t.st| == |t.level| == |t.pend| == |s| + 1
    && t.pend[|s|] == EndPend(t.st[|s|], t.level[|s|])
    && forall i :: 0 <= i < |s| ==> TraceStep(s, lv, out, t, i)
  }

  lemma TraceStepShift(s: seq<Cls>, lv: seq<int>, out: seq<Cls>, t: Trace, u: Trace, i: nat)
    requires 0 < i < |s| == |lv| == |out| && NeutralText(s)
    requires |t.st| == |t.level| == |t.pend| == |s| + 1
    requires u == Trace(t.st[1..], t.level[1..], t.pend[1..])
    requires TraceStep(s[1..], lv[1..], out[1..], u, i - 1)
    ensures TraceStep(s, lv, out, t, i)
  {}

  /** Puts one step of the machine in front of a trace of the rest. */
  lemma TraceCons(st: NeutralState, level: int, s: seq<Cls>, lv: seq<int>, u: Trace) returns (t: Trace)
    requires s != [] && |s| == |lv| && NeutralText(s)
    requires |u.st| == |u.level| == |u.pend| == |s|
    requires if s[0].BN? then
               u.st[0] == st && u.level[0] == level && u.pend[0] == NeutralMachine(st, level, s[1..], lv[1..]).pend
             else
               u.st[0] == StateNeutrals(st, s[0]) && u.level[0] == lv[0]
               && u.pend[0] == NeutralMachine(StateNeutrals(st, s[0]), lv[0], s[1..], lv[1..]).pend
    ensures t.st == [st] + u.st && t.level == [level] + u.level
    ensures t.pend == [NeutralMachine(st, level, s, lv).pend] + u.pend
    ensures TraceStep(s, lv, NeutralMachine(st, level, s, lv).cls, t, 0)
  {
    t := Trace([st] + u.st, [level] + u.level, [NeutralMachine(st, level, s, lv).pend] + u.pend);
  }

  lemma TraceShift(s: seq<Cls>, lv: seq<int>, out: seq<Cls>, t: Trace, u: Trace)
    requires s != [] && |s| == |lv| == |out| && NeutralText(s)
    requires |t.st| == |t.level| == |t.pend| == |s| + 1
    requires u == Trace(t.st[1..], t.level[1..], t.pend[1..])
    requires Traces(s[1..], lv[1..], out[1..], u)
    requires TraceStep(s, lv, out, t, 0)
    ensures Traces(s, lv, out, t)
  {
    forall i | 0 < i < |s|
      ensures TraceStep(s, lv, out, t, i)
    {
      assert TraceStep(s[1..], lv[1..], out[1..], u, i - 1);
      TraceStepShift(s, lv, out, t, u, i);
    }
  }

  lemma {:induction false} RunTrace(st: NeutralState, level: int, s: seq<Cls>, lv: seq<int>) returns (t: Trace)
    requires |s| == |lv| && NeutralText(s)
    ensures Traces(s, lv, NeutralMachine(st, level, s, lv).cls, t)
    ensures t.st[0] == st && t.level[0] == level && t.pend[0] == NeutralMachine(st, level, s, lv).pend
    decreases |s|
  {
    var out := NeutralMachine(st, level, s, lv);
    if s == [] {
      t := Trace([st], [level], [out.pend]);
    } else {
      var u;
      if s[0].BN? {
        u := RunTrace(st, level, s[1..], lv[1..]);
        assert out.cls[1..] == NeutralMachine(st, level, s[1..], lv[1..]).cls;
      } else {
        u := RunTrace(StateNeutrals(st, s[0]), lv[0], s[1..], lv[1..]);
        assert out.cls[1..] == NeutralMachine(StateNeutrals(st, s[0]), lv[0], s[1..], lv[1..]).cls;
      }
      t := TraceCons(st, level, s, lv, u);
      assert u == Trace(t.st[1..], t.level[1..], t.pend[1..]);
      TraceShift(s, lv, out.cls, t, u);
    }
  }

  /** The loop invariant. */
  ghost predicate Reached(pcls: array<Cls>, s: seq<Cls>, goal: seq<Cls>, t: Trace, ich: int, state: NeutralState,
                          level: int, cchRun: int)
    reads pcls
  {
    && pcls.Length == |s| == |goal| && |t.st| == |t.level| == |t.pend| == |s| + 1 && 0 <= ich <= |s|
    && state == t.st[ich] && level == t.level[ich]
    && (cchRun > 0) == IsPending(state)
    && Window(pcls, goal, ich, cchRun, t.pend[ich])
    && forall j :: ich <= j < |s| ==> pcls[j] == s[j]
  }

  /** The loop body at an ordinary character. */
  method ApplyAction(pcls: array<Cls>, ich: nat, state: NeutralState, level: int, cchRun: nat,
                     ghost s: seq<Cls>, ghost lv: seq<int>, ghost goal: seq<Cls>, ghost t: Trace)
    returns (run: nat)
    requires ich < |s| == |lv| && NeutralText(s) && NeutralInput(s[ich])
    requires Reached(pcls, s, goal, t, ich, state, level, cchRun) && Traces(s, lv, goal, t)
    modifies pcls
    ensures Reached(pcls, s, goal, t, ich + 1, StateNeutrals(state, s[ich]), lv[ich], run)
  {
    assert TraceStep(s, lv, goal, t, ich);
    run := cchRun;
    var cls := pcls[ich];
    TablesVerified(state, cls, level);
    var action := ActionNeutrals(state, cls);
    // resolve the deferred run
    var clsRun := GetDeferredNeutrals(action, level);
    if !clsRun.ON? {
      SetDeferredRun(pcls, run, ich, clsRun);
      run := 0;
    }
    // resolve the current character
    if !action.cur.ON? {
      pcls[ich] := action.cur;
    }
    if action.inc {
      run := run + 1;
    }
  }

  /** The loop of the in-place pass. */
  method RunNeutrals(baselevel: int, pcls: array<Cls>, plevel: array<int>,
                     ghost s: seq<Cls>, ghost goal: seq<Cls>, ghost t: Trace)
    requires pcls.Length == plevel.Length && NeutralText(s)
    requires Reached(pcls, s, goal, t, 0, StartState(baselevel), baselevel, 0) && Traces(s, plevel[..], goal, t)
    modifies pcls
    ensures pcls[..] == goal
  {
    var state := StartState(baselevel);
    var cchRun := 0;
    var level := baselevel;
    var ich := 0;
    ghost var lv := plevel[..];
    while ich < pcls.Length
      invariant Reached(pcls, s, goal, t, ich, state, level, cchRun)
    {
      var cls := pcls[ich];
      if cls.BN? {
        assert TraceStep(s, lv, goal, t, ich);
        // include in the count of a deferred run
        if cchRun != 0 {
          cchRun := cchRun + 1;
        }
      } else {
        assert NeutralInput(s[ich]);
        cchRun := ApplyAction(pcls, ich, state, level, cchRun, s, lv, goal, t);
        state := StateNeutrals(state, cls);
        level := plevel[ich];
      }
      ich := ich + 1;
    }
    // resolve a run deferred to the end: eor has the direction of the current level
    TablesVerified(state, EmbeddingDirection(level), level);
    var clsRun := GetDeferredNeutrals(ActionNeutrals(state, EmbeddingDirection(level)), level);
    if !clsRun.ON? {
      SetDeferredRun(pcls, cchRun, ich, clsRun);
    }
  }

  /** The in-place pass computes what the machine does. */
  method ResolveNeutrals(baselevel: int, pcls: array<Cls>, plevel: array<int>)
    requires pcls.Length == plevel.Length && NeutralText(pcls[..])
    modifies pcls
    ensures pcls[..] == Neutrals(baselevel, old(pcls[..]), plevel[..])
  {
    ghost var s := pcls[..];
    ghost var t := RunTrace(StartState(baselevel), baselevel, s, plevel[..]);
    RunNeutrals(baselevel, pcls, plevel, s, Neutrals(baselevel, s, plevel[..]), t);
  }
}
