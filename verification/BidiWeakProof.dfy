/** The weak-type machine computes rules W1 to W7 on every level run (X10) of the text that is left
    when the BNs are removed (X9). */
module BidiWeakProof {
  import opened BidiClasses
  import opened BidiWeakTables
  import opened BidiWeakRules
  import opened BidiWeak
  import opened BidiRuns

  /** What the seven rules carry from the left at some point inside a level run: the class of the
      character before after W1 and after W3, the nearest strong character for W2 and for W7, and
      whether the character before is EN after W5. */
  datatype Ctx = Ctx(prev: Cls, strong: Cls, before: Cls, afterEN: bool, dir: Cls)

  function Sor(dir: Cls): Ctx {
    Ctx(dir, dir, ON, false, dir)
  }

  function UpToW3(k: Ctx, s: seq<Cls>): (t: seq<Cls>)
    ensures |t| == |s|
  {
    W3(W2(k.strong, W1(k.prev, s)))
  }

  function UpToW4(k: Ctx, s: seq<Cls>): (t: seq<Cls>)
    ensures |t| == |s|
  {
    W4(k.before, UpToW3(k, s))
  }

  /** The seven rules on the rest of a level run. */
  function RulesFrom(k: Ctx, s: seq<Cls>): (t: seq<Cls>)
    ensures |t| == |s|
  {
    W7(k.dir, W6(W5(k.afterEN, UpToW4(k, s))))
  }

  /** All that the resolution of a character depends on to its right, within its level run: the next
      class after W3 (BN when there is none), and whether the text after W4 leads to EN. */
  datatype Look = Look(first: Cls, leads: bool)

  function Ahead(k: Ctx, s: seq<Cls>): Look {
    Look(if s == [] then BN else UpToW3(k, s)[0], LeadsToEN(UpToW4(k, s)))
  }

  // One character under the seven rules.

  function AfterW1(k: Ctx, c: Cls): Cls {
    if c.NSM? then k.prev else c
  }

  function AfterW3(k: Ctx, c: Cls): Cls {
    var w := AfterW1(k, c);
    if w.EN? && k.strong.AL? then AN else if w.AL? then R else w
  }

  function AfterW4(k: Ctx, c: Cls, look: Look): Cls {
    var w := AfterW3(k, c);
    if k.before == look.first && ((w.ES? && k.before.EN?) || (w.CS? && (k.before.EN? || k.before.AN?)))
    then k.before else w
  }

  function AfterW5(k: Ctx, c: Cls, look: Look): Cls {
    var w := AfterW4(k, c, look);
    if w.ET? && (k.afterEN || look.leads) then EN else w
  }

  function AfterW7(k: Ctx, c: Cls, look: Look): Cls {
    var w := AfterW5(k, c, look);
    if w.ES? || w.CS? || w.ET? then ON else if w.EN? && k.dir.L? then L else w
  }

  function Advance(k: Ctx, c: Cls, look: Look): Ctx {
    var w := AfterW1(k, c);
    var u := AfterW3(k, c);
    Ctx(w, if IsStrong(w) then w else k.strong, u, AfterW5(k, c, look).EN?,
        if u.L? || u.R? then u else k.dir)
  }

  /** The look-ahead seen from in front of c, given the one from behind it. */
  function LookOver(k: Ctx, c: Cls, look: Look): Look {
    var w := AfterW4(k, c, look);
    Look(AfterW3(k, c), w.EN? || (w.ET? && look.leads))
  }

  lemma StepUpToW4(k: Ctx, c: Cls, s: seq<Cls>, look: Look)
    requires look == Ahead(Advance(k, c, look), s)
    ensures UpToW3(k, [c] + s) == [AfterW3(k, c)] + UpToW3(Advance(k, c, look), s)
    ensures UpToW4(k, [c] + s) == [AfterW4(k, c, look)] + UpToW4(Advance(k, c, look), s)
  {
    var k' := Advance(k, c, look);
    assert ([c] + s)[1..] == s;
    assert W1(k.prev, [c] + s) == [AfterW1(k, c)] + W1(k'.prev, s);
    assert UpToW3(k, [c] + s) == [AfterW3(k, c)] + UpToW3(k', s);
  }

  /** One step of the seven rules: the first character and what is carried to the next. */
  lemma RulesStep(k: Ctx, c: Cls, s: seq<Cls>, look: Look)
    requires look == Ahead(Advance(k, c, look), s)
    ensures RulesFrom(k, [c] + s) == [AfterW7(k, c, look)] + RulesFrom(Advance(k, c, look), s)
    ensures Ahead(k, [c] + s) == LookOver(k, c, look)
  {
    var k' := Advance(k, c, look);
    StepUpToW4(k, c, s, look);
    var d := UpToW4(k', s);
    assert W5(k.afterEN, [AfterW4(k, c, look)] + d) == [AfterW5(k, c, look)] + W5(k'.afterEN, d);
  }

  /** After AL no European number is left by W3 before the next strong character. */
  lemma {:induction false} NothingLeadsAfterAL(k: Ctx, s: seq<Cls>)
    requires k.strong.AL? && !k.before.EN?
    ensures !Ahead(k, s).first.EN? && !Ahead(k, s).leads
    decreases |s|
  {
    if s != [] {
      var k' := Advance(k, s[0], Look(BN, false));
      var look := Ahead(k', s[1..]);
      assert [s[0]] + s[1..] == s;
      RulesStep(k, s[0], s[1..], look);
      if AfterW3(k, s[0]).ET? {
        NothingLeadsAfterAL(k', s[1..]);
      }
    }
  }

  /** The side of the states: what W2 would look back to. */
  function StrongOf(st: WeakState): Cls {
    match st
    case xa | ao | cn | ac => AL
    case xr | ro | rt | ra | re | rc | rs | ret => R
    case xl | lo | lt | la | le | lc | ls | let => L
  }

  /** What a state says about the left context, given the look-ahead. */
  predicate Rel(st: WeakState, k: Ctx, look: Look) {
    && k.strong == StrongOf(st)
    && k.dir == (if k.strong.L? then L else R)
    && (k.strong.AL? ==> !look.first.EN? && !look.leads)
    && match st
       case xa => k.prev.AL? && k.before.R? && !k.afterEN
       case xr | xl => k.prev == k.strong && (k.before == k.strong || k.before.ON?) && !k.afterEN
       case ao => (k.prev.ON? || k.prev.CS? || k.prev.ES? || k.prev.ET?) && k.before == k.prev && !k.afterEN
       case ro | lo => (k.prev.ON? || k.prev.CS? || k.prev.ES?) && k.before == k.prev && !k.afterEN
       case rt | lt => k.prev.ET? && k.before.ET? && (k.afterEN ==> look.leads)
       case cn => (k.prev.AN? || k.prev.EN?) && k.before.AN? && !k.afterEN
       case ra | la => k.prev.AN? && k.before.AN? && !k.afterEN
       case re | le => k.prev.EN? && k.before.EN? && k.afterEN
       case ac | rc | lc => k.prev.CS? && k.before.CS? && !k.afterEN
       case rs | ls => (k.prev.CS? || k.prev.ES?) && k.before == k.prev && (k.afterEN ==> look.first.EN?)
       case ret | let => k.prev.ET? && k.before.ET? && k.afterEN
  }

  /** The class the rules give to the characters deferred in a state. */
  function PendOf(st: WeakState, look: Look): Cls {
    match st
    case rt => if look.leads then EN else ON
    case lt => if look.leads then L else ON
    case ac | rc | lc => if look.first.AN? then AN else ON
    case rs => if look.first.EN? then EN else ON
    case ls => if look.first.EN? then L else ON
    case _ => BN
  }

  /** The next state describes the next context. */
  predicate ContextAgrees(st: WeakState, k: Ctx, c: Cls, look: Look)
    requires WeakInput(c)
  {
    Rel(StateWeak(st, c), Advance(k, c, look), look)
  }

  /** The action gives the character, and the characters deferred in front of it, the class that the
      rules give them. */
  predicate ActionAgrees(st: WeakState, k: Ctx, c: Cls, look: Look)
    requires WeakInput(c)
  {
    var a := ActionWeak(st, c);
    var pend := PendOf(StateWeak(st, c), look);
    && AfterW7(k, c, look) == Current(a, c, pend)
    && (IsDeferredState(st) ==> PendOf(st, LookOver(k, c, look)) == if a.run.To? then a.run.cls else pend)
  }

  /** The hypotheses of a step: the state describes the context, and behind AL no number leads. */
  predicate CanStep(st: WeakState, k: Ctx, c: Cls, look: Look) {
    && WeakInput(c)
    && Rel(st, k, LookOver(k, c, look))
    && (Advance(k, c, look).strong.AL? ==> !look.first.EN? && !look.leads)
  }

  lemma ArabicLetterContext(st: WeakState, k: Ctx, c: Cls, look: Look)
    requires CanStep(st, k, c, look) && (st.xa? || st.ao?)
    ensures ContextAgrees(st, k, c, look)
  {}

  lemma RightLetterContext(st: WeakState, k: Ctx, c: Cls, look: Look)
    requires CanStep(st, k, c, look) && (st.xr? || st.ro?)
    ensures ContextAgrees(st, k, c, look)
  {}

  lemma LeftLetterContext(st: WeakState, k: Ctx, c: Cls, look: Look)
    requires CanStep(st, k, c, look) && (st.xl? || st.lo?)
    ensures ContextAgrees(st, k, c, look)
  {}

  lemma TerminatorContext(st: WeakState, k: Ctx, c: Cls, look: Look)
    requires CanStep(st, k, c, look) && (st.rt? || st.lt?)
    ensures ContextAgrees(st, k, c, look)
  {}

  lemma ArabicContextNumberContext(st: WeakState, k: Ctx, c: Cls, look: Look)
    requires CanStep(st, k, c, look) && (st.cn? || st.ac?)
    ensures ContextAgrees(st, k, c, look)
  {}

  lemma ArabicNumberContext(st: WeakState, k: Ctx, c: Cls, look: Look)
    requires CanStep(st, k, c, look) && (st.ra? || st.la?)
    ensures ContextAgrees(st, k, c, look)
  {}

  lemma EuropeanNumberContext(st: WeakState, k: Ctx, c: Cls, look: Look)
    requires CanStep(st, k, c, look) && (st.re? || st.le?)
    ensures ContextAgrees(st, k, c, look)
  {}

  lemma ArabicSeparatorContext(st: WeakState, k: Ctx, c: Cls, look: Look)
    requires CanStep(st, k, c, look) && (st.rc? || st.lc?)
    ensures ContextAgrees(st, k, c, look)
  {}

  lemma EuropeanSeparatorContext(st: WeakState, k: Ctx, c: Cls, look: Look)
    requires CanStep(st, k, c, look) && (st.rs? || st.ls?)
    ensures ContextAgrees(st, k, c, look)
  {}

  lemma TerminatorAfterNumberContext(st: WeakState, k: Ctx, c: Cls, look: Look)
    requires CanStep(st, k, c, look) && (st.ret? || st.let?)
    ensures ContextAgrees(st, k, c, look)
  {}

  lemma ContextStep(st: WeakState, k: Ctx, c: Cls, look: Look)
    requires CanStep(st, k, c, look)
    ensures ContextAgrees(st, k, c, look)
  {
    match st {
      case xa | ao => ArabicLetterContext(st, k, c, look);
      case xr | ro => RightLetterContext(st, k, c, look);
      case xl | lo => LeftLetterContext(st, k, c, look);
      case rt | lt => TerminatorContext(st, k, c, look);
      case cn | ac => ArabicContextNumberContext(st, k, c, look);
      case ra | la => ArabicNumberContext(st, k, c, look);
      case re | le => EuropeanNumberContext(st, k, c, look);
      case rc | lc => ArabicSeparatorContext(st, k, c, look);
      case rs | ls => EuropeanSeparatorContext(st, k, c, look);
      case ret | let => TerminatorAfterNumberContext(st, k, c, look);
    }
  }

  lemma ArabicLetterAction(st: WeakState, k: Ctx, c: Cls, look: Look)
    requires CanStep(st, k, c, look) && (st.xa? || st.ao?)
    ensures ActionAgrees(st, k, c, look)
  {}

  lemma RightLetterAction(st: WeakState, k: Ctx, c: Cls, look: Look)
    requires CanStep(st, k, c, look) && (st.xr? || st.ro?)
    ensures ActionAgrees(st, k, c, look)
  {}

  lemma LeftLetterAction(st: WeakState, k: Ctx, c: Cls, look: Look)
    requires CanStep(st, k, c, look) && (st.xl? || st.lo?)
    ensures ActionAgrees(st, k, c, look)
  {}

  lemma TerminatorAction(st: WeakState, k: Ctx, c: Cls, look: Look)
    requires CanStep(st, k, c, look) && (st.rt? || st.lt?)
    ensures ActionAgrees(st, k, c, look)
  {}

  lemma ArabicContextNumberAction(st: WeakState, k: Ctx, c: Cls, look: Look)
    requires CanStep(st, k, c, look) && (st.cn? || st.ac?)
    ensures ActionAgrees(st, k, c, look)
  {}

  lemma ArabicNumberAction(st: WeakState, k: Ctx, c: Cls, look: Look)
    requires CanStep(st, k, c, look) && (st.ra? || st.la?)
    ensures ActionAgrees(st, k, c, look)
  {}

  lemma EuropeanNumberAction(st: WeakState, k: Ctx, c: Cls, look: Look)
    requires CanStep(st, k, c, look) && (st.re? || st.le?)
    ensures ActionAgrees(st, k, c, look)
  {}

  lemma ArabicSeparatorAction(st: WeakState, k: Ctx, c: Cls, look: Look)
    requires CanStep(st, k, c, look) && (st.rc? || st.lc?)
    ensures ActionAgrees(st, k, c, look)
  {}

  lemma EuropeanSeparatorAction(st: WeakState, k: Ctx, c: Cls, look: Look)
    requires CanStep(st, k, c, look) && (st.rs? || st.ls?)
    ensures ActionAgrees(st, k, c, look)
  {}

  lemma TerminatorAfterNumberAction(st: WeakState, k: Ctx, c: Cls, look: Look)
    requires CanStep(st, k, c, look) && (st.ret? || st.let?)
    ensures ActionAgrees(st, k, c, look)
  {}

  lemma ActionStep(st: WeakState, k: Ctx, c: Cls, look: Look)
    requires CanStep(st, k, c, look)
    ensures ActionAgrees(st, k, c, look)
  {
    match st {
      case xa | ao => ArabicLetterAction(st, k, c, look);
      case xr | ro => RightLetterAction(st, k, c, look);
      case xl | lo => LeftLetterAction(st, k, c, look);
      case rt | lt => TerminatorAction(st, k, c, look);
      case cn | ac => ArabicContextNumberAction(st, k, c, look);
      case ra | la => ArabicNumberAction(st, k, c, look);
      case re | le => EuropeanNumberAction(st, k, c, look);
      case rc | lc => ArabicSeparatorAction(st, k, c, look);
      case rs | ls => EuropeanSeparatorAction(st, k, c, look);
      case ret | let => TerminatorAfterNumberAction(st, k, c, look);
    }
  }

  /** The seven rules on the rest of a text: what is left of the level run at the given level, with the
      context k, and then the other level runs. */
  function WeakFrom(k: Ctx, level: int, s: seq<Cls>, lv: seq<int>): (t: seq<Cls>)
    requires |s| == |lv|
    ensures |t| == |s|
  {
    var n := RunLen(level, lv);
    RulesFrom(k, s[..n]) + WeakByRuns(level, s[n..], lv[n..])
  }

  /** What is left of the current level run in a text with BNs. */
  function RunOf(level: int, s: seq<Cls>, lv: seq<int>): seq<Cls>
    requires |s| == |lv|
  {
    Kept(s, s)[..RunLen(level, Kept(s, lv))]
  }

  /** The result o of the machine on a text is what the rules, from the context k on, make of what X9
      leaves of it; the levels of the ordinary characters are left alone. */
  ghost predicate Simulates(o: WeakOut, k: Ctx, level: int, s: seq<Cls>, lv: seq<int>)
    requires |s| == |lv| == |o.cls| == |o.lev|
  {
    && Kept(s, o.cls) == WeakFrom(k, level, Kept(s, s), Kept(s, lv))
    && Kept(s, o.lev) == Kept(s, lv)
  }

  lemma SimulateBN(o: WeakOut, rest: WeakOut, k: Ctx, level: int, s: seq<Cls>, lv: seq<int>)
    requires s != [] && |s| == |lv| == |o.cls| == |o.lev| && s[0].BN?
    requires o.cls[1..] == rest.cls && o.lev[1..] == rest.lev
    requires Simulates(rest, k, level, s[1..], lv[1..])
    ensures Simulates(o, k, level, s, lv)
    ensures RunOf(level, s, lv) == RunOf(level, s[1..], lv[1..])
  {
    KeptStep(s, s);
    KeptStep(s, lv);
    KeptStep(s, o.cls);
    KeptStep(s, o.lev);
  }

  lemma RunCons(c: Cls, level: int, x: seq<Cls>, xl: seq<int>)
    requires |x| == |xl|
    ensures var n := RunLen(level, xl);
            && RunLen(level, [level] + xl) == n + 1
            && ([c] + x)[..n + 1] == [c] + x[..n]
            && ([c] + x)[n + 1..] == x[n..] && ([level] + xl)[n + 1..] == xl[n..]
  {
    assert ([level] + xl)[1..] == xl;
  }

  lemma ConsAppend<T>(h: T, a: seq<T>, b: seq<T>)
    ensures [h] + a + b == [h] + (a + b)
  {}

  lemma WeakFromCons(k: Ctx, c: Cls, level: int, x: seq<Cls>, xl: seq<int>)
    requires |x| == |xl|
    ensures var n := RunLen(level, xl);
            WeakFrom(k, level, [c] + x, [level] + xl) == RulesFrom(k, [c] + x[..n]) + WeakByRuns(level, x[n..], xl[n..])
  {
    RunCons(c, level, x, xl);
  }

  lemma WeakFromStep(k: Ctx, c: Cls, look: Look, level: int, x: seq<Cls>, xl: seq<int>)
    requires |x| == |xl| && look == Ahead(Advance(k, c, look), x[..RunLen(level, xl)])
    ensures WeakFrom(k, level, [c] + x, [level] + xl)
         == [AfterW7(k, c, look)] + WeakFrom(Advance(k, c, look), level, x, xl)
  {
    var n := RunLen(level, xl);
    WeakFromCons(k, c, level, x, xl);
    RulesStep(k, c, x[..n], look);
    ConsAppend(AfterW7(k, c, look), RulesFrom(Advance(k, c, look), x[..n]), WeakByRuns(level, x[n..], xl[n..]));
  }

  lemma SimulateOrdinary(o: WeakOut, rest: WeakOut, k: Ctx, look: Look, level: int, s: seq<Cls>, lv: seq<int>)
    requires s != [] && |s| == |lv| == |o.cls| == |o.lev| && !s[0].BN? && lv[0] == level
    requires look == Ahead(Advance(k, s[0], look), RunOf(level, s[1..], lv[1..]))
    requires o.cls == [AfterW7(k, s[0], look)] + rest.cls && o.lev == [level] + rest.lev
    requires Simulates(rest, Advance(k, s[0], look), level, s[1..], lv[1..])
    ensures Simulates(o, k, level, s, lv)
  {
    KeptStep(s, s);
    KeptStep(s, lv);
    KeptStep(s, o.cls);
    KeptStep(s, o.lev);
    assert o.cls[1..] == rest.cls && o.lev[1..] == rest.lev;
    WeakFromStep(k, s[0], look, level, Kept(s[1..], s[1..]), Kept(s[1..], lv[1..]));
  }

  lemma RunOfStep(level: int, s: seq<Cls>, lv: seq<int>)
    requires s != [] && |s| == |lv| && !s[0].BN? && lv[0] == level
    ensures RunOf(level, s, lv) == [s[0]] + RunOf(level, s[1..], lv[1..])
  {
    KeptStep(s, s);
    KeptStep(s, lv);
    var xl := Kept(s[1..], lv[1..]);
    assert ([level] + xl)[1..] == xl;
  }

  /** A level run ends at a BN that is followed by an ordinary character of another level: the rules
      start over with the direction of the border. */
  lemma WeakFromBorder(k: Ctx, level: int, x: seq<Cls>, xl: seq<int>)
    requires |x| == |xl| && x != [] && xl[0] != level
    ensures WeakFrom(k, level, x, xl) == WeakFrom(Sor(Border(level, xl[0])), xl[0], x, xl)
    ensures x[..RunLen(level, xl)] == []
  {
    assert x[..0] == [] && x[0..] == x && xl[0..] == xl;
    assert RulesFrom(k, []) == [];
  }

  /** In every state a strong L or R stands, deferred characters become ON, and the next state is the
      one a level run with that sor starts in. */
  lemma StrongEntry(st: WeakState, d: Cls)
    requires d == L || d == R
    ensures var a := ActionWeak(st, d);
            && a.cur.XX? && !a.inc
            && (IsDeferredState(st) ==> a.run == To(ON))
            && StateWeak(st, d) == if d.L? then xl else xr
  {}

  /** The claim of the simulation about a result o of the machine that was started in a state that
      describes the context k. */
  ghost predicate AgreesWith(o: WeakOut, st: WeakState, k: Ctx, level: int, s: seq<Cls>, lv: seq<int>)
    requires |s| == |lv| == |o.cls| == |o.lev|
  {
    && Simulates(o, k, level, s, lv)
    && (IsDeferredState(st) ==> o.pend == PendOf(st, Ahead(k, RunOf(level, s, lv))))
  }

  ghost predicate Agrees(base: int, st: WeakState, k: Ctx, level: int, s: seq<Cls>, lv: seq<int>)
    requires |s| == |lv| && UpToBN(s)
  {
    AgreesWith(WeakMachine(base, st, level, s, lv), st, k, level, s, lv)
  }

  lemma NothingKept<T>(s: seq<Cls>, t: seq<T>)
    requires |s| == |t| == 1 && s[0].BN?
    ensures Kept(s, t) == []
  {
    KeptStep(s, t);
  }

  lemma NothingFrom(k: Ctx, level: int)
    ensures WeakFrom(k, level, [], []) == []
    ensures Ahead(k, []) == Look(BN, false)
  {}

  lemma NothingLeft(o: WeakOut, k: Ctx, level: int)
    requires o.cls == [] && o.lev == []
    ensures Simulates(o, k, level, [], [])
    ensures RunOf(level, [], []) == []
  {
    NothingFrom(k, level);
  }

  lemma AgreesAtEnd(base: int, st: WeakState, k: Ctx, level: int)
    ensures Agrees(base, st, k, level, [], [])
  {
    NothingLeft(WeakMachine(base, st, level, [], []), k, level);
    NothingFrom(k, level);
    StrongEntry(st, EmbeddingDirection(level));
  }

  lemma AgreesSkip(base: int, st: WeakState, k: Ctx, level: int, s: seq<Cls>, lv: seq<int>)
    requires s != [] && |s| == |lv| && UpToBN(s) && Skipped(base, level, s, lv, 0)
    requires Agrees(base, st, k, level, s[1..], lv[1..])
    ensures Agrees(base, st, k, level, s, lv)
  {
    SimulateBN(WeakMachine(base, st, level, s, lv), WeakMachine(base, st, level, s[1..], lv[1..]), k, level, s, lv);
  }

  lemma LastBNAgreesWith(o: WeakOut, st: WeakState, k: Ctx, level: int, s: seq<Cls>, lv: seq<int>)
    requires |s| == |lv| == |o.cls| == |o.lev| == 1 && s[0].BN?
    requires IsDeferredState(st) ==> o.pend.ON?
    ensures AgreesWith(o, st, k, level, s, lv)
  {
    hide RulesFrom, WeakByRuns, Kept, Keep;
    NothingKept(s, s);
    NothingKept(s, lv);
    NothingKept(s, o.cls);
    NothingKept(s, o.lev);
    NothingFrom(k, level);
  }

  lemma AgreesLastBN(base: int, st: WeakState, k: Ctx, level: int, s: seq<Cls>, lv: seq<int>)
    requires |s| == |lv| == 1 && s[0].BN? && level != base
    ensures Agrees(base, st, k, level, s, lv)
  {
    StrongEntry(st, EmbeddingDirection(level));
    LastBNAgreesWith(WeakMachine(base, st, level, s, lv), st, k, level, s, lv);
  }

  lemma BorderAgreesWith(o: WeakOut, rest: WeakOut, st: WeakState, k: Ctx, level: int, s: seq<Cls>, lv: seq<int>)
    requires |s| == |lv| == |o.cls| == |o.lev| == |rest.cls| + 1 == |rest.lev| + 1 > 1
    requires s[0].BN? && !s[1].BN? && lv[1] != level
    requires o.cls[1..] == rest.cls && o.lev[1..] == rest.lev
    requires IsDeferredState(st) ==> o.pend.ON?
    requires Simulates(rest, Sor(Border(level, lv[1])), lv[1], s[1..], lv[1..])
    ensures AgreesWith(o, st, k, level, s, lv)
  {
    hide RulesFrom, WeakByRuns;
    KeptStep(s[1..], s[1..]);
    KeptStep(s[1..], lv[1..]);
    WeakFromBorder(k, level, Kept(s[1..], s[1..]), Kept(s[1..], lv[1..]));
    SimulateBN(o, rest, k, level, s, lv);
  }

  lemma AgreesBorder(base: int, st: WeakState, k: Ctx, level: int, s: seq<Cls>, lv: seq<int>)
    requires |s| == |lv| > 1 && UpToBN(s) && s[0].BN? && !s[1].BN? && lv[1] != level
    requires var d := Border(level, lv[1]);
             Agrees(base, if d.L? then xl else xr, Sor(d), lv[1], s[1..], lv[1..])
    ensures Agrees(base, st, k, level, s, lv)
  {
    var d := Border(level, lv[1]);
    StrongEntry(st, d);
    BorderAgreesWith(WeakMachine(base, st, level, s, lv),
                     WeakMachine(base, if d.L? then xl else xr, lv[1], s[1..], lv[1..]), st, k, level, s, lv);
  }

  lemma OrdinaryAgreesWith(o: WeakOut, rest: WeakOut, st: WeakState, k: Ctx, a: Action, st': WeakState, look: Look,
                           level: int, s: seq<Cls>, lv: seq<int>)
    requires s != [] && |s| == |lv| == |o.cls| == |o.lev| == |rest.cls| + 1 == |rest.lev| + 1
    requires !s[0].BN? && lv[0] == level
    requires look == Ahead(Advance(k, s[0], look), RunOf(level, s[1..], lv[1..]))
    requires o == WeakOut(if a.run.To? then a.run.cls else rest.pend,
                          [Current(a, s[0], rest.pend)] + rest.cls, [level] + rest.lev)
    requires a.inc ==> IsDeferredState(st')
    requires IsDeferredState(st) ==> a.run.To? || a.inc
    requires AfterW7(k, s[0], look) == Current(a, s[0], PendOf(st', look))
    requires IsDeferredState(st) ==>
               PendOf(st, LookOver(k, s[0], look)) == if a.run.To? then a.run.cls else PendOf(st', look)
    requires AgreesWith(rest, st', Advance(k, s[0], look), level, s[1..], lv[1..])
    ensures AgreesWith(o, st, k, level, s, lv)
  {
    SimulateOrdinary(o, rest, k, look, level, s, lv);
    RunOfStep(level, s, lv);
    RulesStep(k, s[0], RunOf(level, s[1..], lv[1..]), look);
  }

  lemma AgreesOrdinary(base: int, st: WeakState, k: Ctx, look: Look, level: int, s: seq<Cls>, lv: seq<int>)
    requires s != [] && |s| == |lv| && UpToBN(s) && WeakInput(s[0]) && lv[0] == level
    requires look == Ahead(Advance(k, s[0], look), RunOf(level, s[1..], lv[1..]))
    requires ActionAgrees(st, k, s[0], look) && Verified(st, s[0])
    requires Agrees(base, StateWeak(st, s[0]), Advance(k, s[0], look), level, s[1..], lv[1..])
    ensures Agrees(base, st, k, level, s, lv)
  {
    var st' := StateWeak(st, s[0]);
    OrdinaryAgreesWith(WeakMachine(base, st, level, s, lv), WeakMachine(base, st', level, s[1..], lv[1..]),
                       st, k, ActionWeak(st, s[0]), st', look, level, s, lv);
  }

  /** The hypotheses of the simulation. */
  ghost predicate Ready(st: WeakState, k: Ctx, level: int, s: seq<Cls>, lv: seq<int>)
    requires |s| == |lv|
  {
    UpToBN(s) && Levelled(level, s, lv) && Rel(st, k, Ahead(k, RunOf(level, s, lv)))
  }

  lemma ReadySkip(base: int, st: WeakState, k: Ctx, level: int, s: seq<Cls>, lv: seq<int>)
    requires s != [] && |s| == |lv| && Ready(st, k, level, s, lv) && Skipped(base, level, s, lv, 0)
    ensures Ready(st, k, level, s[1..], lv[1..])
  {
    KeptStep(s, s);
    KeptStep(s, lv);
  }

  lemma ReadyBorder(base: int, st: WeakState, k: Ctx, level: int, s: seq<Cls>, lv: seq<int>) returns (st': WeakState)
    requires |s| == |lv| > 1 && Ready(st, k, level, s, lv) && s[0].BN? && !Skipped(base, level, s, lv, 0)
    ensures !s[1].BN? && lv[1] != level
    ensures st' == if Border(level, lv[1]).L? then xl else xr
    ensures Ready(st', Sor(Border(level, lv[1])), lv[1], s[1..], lv[1..])
  {
    st' := if Border(level, lv[1]).L? then xl else xr;
  }

  /** Reading an ordinary character: the table leads to a state that describes the next context. */
  lemma ReadyOrdinary(st: WeakState, k: Ctx, level: int, s: seq<Cls>, lv: seq<int>)
    returns (look: Look, st': WeakState, k': Ctx)
    requires s != [] && |s| == |lv| && Ready(st, k, level, s, lv) && !s[0].BN?
    ensures WeakInput(s[0]) && st' == StateWeak(st, s[0]) && k' == Advance(k, s[0], look)
    ensures look == Ahead(k', RunOf(level, s[1..], lv[1..])) && ActionAgrees(st, k, s[0], look)
    ensures Verified(st, s[0])
    ensures Ready(st', k', level, s[1..], lv[1..])
  {
    TablesVerified(st, s[0]);
    var run := RunOf(level, s[1..], lv[1..]);
    look := Ahead(Advance(k, s[0], Look(BN, false)), run);
    st', k' := StateWeak(st, s[0]), Advance(k, s[0], look);
    RunOfStep(level, s, lv);
    RulesStep(k, s[0], run, look);
    if k'.strong.AL? {
      NothingLeadsAfterAL(k', run);
    }
    ContextStep(st, k, s[0], look);
    ActionStep(st, k, s[0], look);
  }

  /** By induction on the text, for every text whose levels change only behind BNs. */
  lemma {:induction false} WeakSimulation(base: int, st: WeakState, k: Ctx, level: int, s: seq<Cls>, lv: seq<int>)
    requires |s| == |lv| && Ready(st, k, level, s, lv)
    ensures Agrees(base, st, k, level, s, lv)
    decreases |s|
  {
    if s == [] {
      AgreesAtEnd(base, st, k, level);
    } else if Skipped(base, level, s, lv, 0) {
      ReadySkip(base, st, k, level, s, lv);
      WeakSimulation(base, st, k, level, s[1..], lv[1..]);
      AgreesSkip(base, st, k, level, s, lv);
    } else if !s[0].BN? {
      var look, st', k' := ReadyOrdinary(st, k, level, s, lv);
      WeakSimulation(base, st', k', level, s[1..], lv[1..]);
      AgreesOrdinary(base, st, k, look, level, s, lv);
    } else if |s| == 1 {
      AgreesLastBN(base, st, k, level, s, lv);
    } else {
      var st' := ReadyBorder(base, st, k, level, s, lv);
      WeakSimulation(base, st', Sor(Border(level, lv[1])), lv[1], s[1..], lv[1..]);
      AgreesBorder(base, st, k, level, s, lv);
    }
  }

  /** The weak-type pass on a paragraph whose levels change only behind BNs: the ordinary characters
      get the classes that W1 to W7 give them on the level runs of the text without BNs, and keep
      their levels. */
  lemma WeakPassIsRules(base: int, s: seq<Cls>, lv: seq<int>)
    requires |s| == |lv| && UpToBN(s) && Levelled(base, s, lv)
    ensures |Kept(s, s)| == |Kept(s, lv)|
    ensures Kept(s, Weak(base, s, lv).cls) == WeakByRuns(base, Kept(s, s), Kept(s, lv))
    ensures Kept(s, Weak(base, s, lv).lev) == Kept(s, lv)
  {
    var d := EmbeddingDirection(base);
    var x, xl' := Kept(s, s), Kept(s, lv);
    WeakSimulation(base, StartState(base), Sor(d), base, s, lv);
    if x != [] && xl'[0] != base {
      WeakFromBorder(Sor(d), base, x, xl');
    }
  }

  lemma {:induction false} KeptAll<T>(s: seq<Cls>, t: seq<T>)
    requires |s| == |t| && forall i :: 0 <= i < |s| ==> !s[i].BN?
    ensures Kept(s, t) == t
    decreases |s|
  {
    if s != [] {
      KeptStep(s, t);
      KeptAll(s[1..], t[1..]);
    }
  }

  lemma {:induction false} LevelledConstant(level: int, s: seq<Cls>, lv: seq<int>)
    requires |s| == |lv| && forall i :: 0 <= i < |lv| ==> lv[i] == level
    ensures Levelled(level, s, lv)
    decreases |s|
  {
    if s != [] {
      LevelledConstant(level, s[1..], lv[1..]);
    }
  }

  /** On a BN-free text of one level the pass computes just W1 to W7, with the embedding direction as
      sor. */
  lemma OneRunWeak(base: int, s: seq<Cls>)
    requires forall i :: 0 <= i < |s| ==> WeakInput(s[i])
    ensures UpToBN(s) && Weak(base, s, Fill(|s|, base)).cls == WeakRules(EmbeddingDirection(base), s)
  {
    var lv := Fill(|s|, base);
    LevelledConstant(base, s, lv);
    WeakPassIsRules(base, s, lv);
    KeptAll(s, s);
    KeptAll(s, lv);
    KeptAll(s, Weak(base, s, lv).cls);
    if s != [] {
      assert RunLen(base, lv) == |s|;
      assert s[..|s|] == s && s[|s|..] == [];
    }
  }
}
