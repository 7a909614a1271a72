/** The state machine that resolves weak types: its states, its two tables and the properties the
    tables are required to have. */
module BidiWeakTables {
  import opened BidiClasses

  datatype WeakState =
    | xa   // arabic letter
    | xr   // right letter
    | xl   // left letter
    | ao   // arabic letter followed by ON
    | ro   // right letter followed by ON
    | lo   // left letter followed by ON
    | rt   // ET following R
    | lt   // ET following L
    | cn   // EN, AN following AL
    | ra   // arabic number following R
    | re   // european number following R
    | la   // arabic number following L
    | le   // european number following L
    | ac   // CS following cn
    | rc   // CS following ra
    | rs   // CS, ES following re
    | lc   // CS following la
    | ls   // CS, ES following le
    | ret  // ET following re
    | let  // ET following le

  /** One nibble of an action: a class to set, or XX for no change. */
  datatype Change = XX | To(cls: Cls)

  /** An action: what the deferred run becomes, what the current character becomes, and whether the
      current character joins the deferred run (IX). */
  datatype Action = Action(run: Change, cur: Change, inc: bool)

  const xxx := Action(XX, XX, false)
  const xIx := Action(XX, XX, true)
  const xxN := Action(XX, To(ON), false)
  const xxE := Action(XX, To(EN), false)
  const xxA := Action(XX, To(AN), false)
  const xxR := Action(XX, To(R), false)
  const xxL := Action(XX, To(L), false)
  const Nxx := Action(To(ON), XX, false)
  const Axx := Action(To(AN), XX, false)
  const ExE := Action(To(EN), To(EN), false)
  const NIx := Action(To(ON), XX, true)
  const NxN := Action(To(ON), To(ON), false)
  const NxR := Action(To(ON), To(R), false)
  const NxE := Action(To(ON), To(EN), false)
  const AxA := Action(To(AN), To(AN), false)
  const NxL := Action(To(ON), To(L), false)
  const LxL := Action(To(L), To(L), false)

  /** The classes that select a column of the tables. */
  predicate WeakInput(c: Cls) {
    Ord(c) < 10
  }

  /** A row of the state table, indexed by class. */
  function Next(c: Cls, n: WeakState, l: WeakState, r: WeakState, an: WeakState, en: WeakState,
                  al: WeakState, nsm: WeakState, cs: WeakState, es: WeakState, et: WeakState): WeakState
    requires WeakInput(c)
  {
    match c
    case ON => n case L => l case R => r case AN => an case EN => en
    case AL => al case NSM => nsm case CS => cs case ES => es case ET => et
  }

  /** A row of the action table, indexed by class. */
  function Act(c: Cls, n: Action, l: Action, r: Action, an: Action, en: Action,
                  al: Action, nsm: Action, cs: Action, es: Action, et: Action): Action
    requires WeakInput(c)
  {
    match c
    case ON => n case L => l case R => r case AN => an case EN => en
    case AL => al case NSM => nsm case CS => cs case ES => es case ET => et
  }

  function StateWeak(st: WeakState, c: Cls): WeakState
    requires WeakInput(c)
  {
    match st
    //              N,  L,  R,  AN, EN, AL, NSM, CS, ES, ET
    case xa => Next(c, ao, xl, xr, cn, cn, xa, xa, ao, ao, ao)
    case xr => Next(c, ro, xl, xr, ra, re, xa, xr, ro, ro, rt)
    case xl => Next(c, lo, xl, xr, la, le, xa, xl, lo, lo, lt)

    case ao => Next(c, ao, xl, xr, cn, cn, xa, ao, ao, ao, ao)
    case ro => Next(c, ro, xl, xr, ra, re, xa, ro, ro, ro, rt)
    case lo => Next(c, lo, xl, xr, la, le, xa, lo, lo, lo, lt)

    case rt => Next(c, ro, xl, xr, ra, re, xa, rt, ro, ro, rt)
    case lt => Next(c, lo, xl, xr, la, le, xa, lt, lo, lo, lt)

    case cn => Next(c, ao, xl, xr, cn, cn, xa, cn, ac, ao, ao)
    case ra => Next(c, ro, xl, xr, ra, re, xa, ra, rc, ro, rt)
    case re => Next(c, ro, xl, xr, ra, re, xa, re, rs, rs, ret)
    case la => Next(c, lo, xl, xr, la, le, xa, la, lc, lo, lt)
    case le => Next(c, lo, xl, xr, la, le, xa, le, ls, ls, let)

    case ac => Next(c, ao, xl, xr, cn, cn, xa, ao, ao, ao, ao)
    case rc => Next(c, ro, xl, xr, ra, re, xa, ro, ro, ro, rt)
    case rs => Next(c, ro, xl, xr, ra, re, xa, ro, ro, ro, rt)
    case lc => Next(c, lo, xl, xr, la, le, xa, lo, lo, lo, lt)
    case ls => Next(c, lo, xl, xr, la, le, xa, lo, lo, lo, lt)

    case ret => Next(c, ro, xl, xr, ra, re, xa, ret, ro, ro, ret)
    case let => Next(c, lo, xl, xr, la, le, xa, let, lo, lo, let)
  }

  function ActionWeak(st: WeakState, c: Cls): Action
    requires WeakInput(c)
  {
    match st
    //              N,   L,   R,   AN,  EN,  AL,  NSM, CS,  ES,  ET
    case xa => Act(c, xxx, xxx, xxx, xxx, xxA, xxR, xxR, xxN, xxN, xxN)
    case xr => Act(c, xxx, xxx, xxx, xxx, xxE, xxR, xxR, xxN, xxN, xIx)
    case xl => Act(c, xxx, xxx, xxx, xxx, xxL, xxR, xxL, xxN, xxN, xIx)

    case ao => Act(c, xxx, xxx, xxx, xxx, xxA, xxR, xxN, xxN, xxN, xxN)
    case ro => Act(c, xxx, xxx, xxx, xxx, xxE, xxR, xxN, xxN, xxN, xIx)
    case lo => Act(c, xxx, xxx, xxx, xxx, xxL, xxR, xxN, xxN, xxN, xIx)

    case rt => Act(c, Nxx, Nxx, Nxx, Nxx, ExE, NxR, xIx, NxN, NxN, xIx)
    case lt => Act(c, Nxx, Nxx, Nxx, Nxx, LxL, NxR, xIx, NxN, NxN, xIx)

    case cn => Act(c, xxx, xxx, xxx, xxx, xxA, xxR, xxA, xIx, xxN, xxN)
    case ra => Act(c, xxx, xxx, xxx, xxx, xxE, xxR, xxA, xIx, xxN, xIx)
    case re => Act(c, xxx, xxx, xxx, xxx, xxE, xxR, xxE, xIx, xIx, xxE)
    case la => Act(c, xxx, xxx, xxx, xxx, xxL, xxR, xxA, xIx, xxN, xIx)
    case le => Act(c, xxx, xxx, xxx, xxx, xxL, xxR, xxL, xIx, xIx, xxL)

    case ac => Act(c, Nxx, Nxx, Nxx, Axx, AxA, NxR, NxN, NxN, NxN, NxN)
    case rc => Act(c, Nxx, Nxx, Nxx, Axx, NxE, NxR, NxN, NxN, NxN, NIx)
    case rs => Act(c, Nxx, Nxx, Nxx, Nxx, ExE, NxR, NxN, NxN, NxN, NIx)
    case lc => Act(c, Nxx, Nxx, Nxx, Axx, NxL, NxR, NxN, NxN, NxN, NIx)
    case ls => Act(c, Nxx, Nxx, Nxx, Nxx, LxL, NxR, NxN, NxN, NxN, NIx)

    case ret => Act(c, xxx, xxx, xxx, xxx, xxE, xxR, xxE, xxN, xxN, xxE)
    case let => Act(c, xxx, xxx, xxx, xxx, xxL, xxR, xxL, xxN, xxN, xxL)
  }

  /** The states in which characters wait for the class they will get. */
  predicate IsDeferredState(st: WeakState) {
    st.rt? || st.lt? || st.ac? || st.rc? || st.rs? || st.lc? || st.ls?
  }

  /** The classes that never survive unchanged (EN counts: it is rewritten, if only to EN). */
  predicate IsModifiedClass(c: Cls) {
    c.AL? || c.NSM? || c.ES? || c.CS? || c.ET? || c.EN?
  }

  /** The classes that the weak rules leave. */
  predicate IsWeakOutput(c: Cls) {
    c.ON? || c.L? || c.R? || c.AN? || c.EN?
  }

  /** The stated properties of one table entry: a character is deferred exactly when the next state
      is a deferred one, and then it is of a modified class; otherwise exactly the modified classes
      are rewritten; and exactly the deferred states settle their run (or extend it without settling
      it). */
  predicate Verified(st: WeakState, c: Cls)
    requires WeakInput(c)
  {
    var a := ActionWeak(st, c);
    && a.inc == IsDeferredState(StateWeak(st, c))
    && (a.inc ==> IsModifiedClass(c) && a.cur.XX?)
    && (!a.inc ==> (IsModifiedClass(c) <==> a.cur.To?))
    && (if IsDeferredState(st) then a.run.To? || (a.inc && a.cur.XX?) else a.run.XX?)
    && (a.run.To? ==> IsWeakOutput(a.run.cls) && !a.run.cls.R?)
    && (a.cur.To? ==> IsWeakOutput(a.cur.cls))
  }

  lemma LetterRows(st: WeakState, c: Cls)
    requires WeakInput(c) && (st.xa? || st.xr? || st.xl?)
    ensures Verified(st, c)
  {}

  lemma NeutralRows(st: WeakState, c: Cls)
    requires WeakInput(c) && (st.ao? || st.ro? || st.lo?)
    ensures Verified(st, c)
  {}

  lemma ArabicNumberRows(st: WeakState, c: Cls)
    requires WeakInput(c) && (st.cn? || st.ra? || st.la?)
    ensures Verified(st, c)
  {}

  lemma EuropeanNumberRows(st: WeakState, c: Cls)
    requires WeakInput(c) && (st.re? || st.le?)
    ensures Verified(st, c)
  {}

  lemma TerminatorAfterNumberRows(st: WeakState, c: Cls)
    requires WeakInput(c) && (st.ret? || st.let?)
    ensures Verified(st, c)
  {}

  lemma TerminatorRows(st: WeakState, c: Cls)
    requires WeakInput(c) && (st.rt? || st.lt?)
    ensures Verified(st, c)
  {}

  lemma ArabicSeparatorRows(st: WeakState, c: Cls)
    requires WeakInput(c) && (st.ac? || st.rc? || st.lc?)
    ensures Verified(st, c)
  {}

  lemma EuropeanSeparatorRows(st: WeakState, c: Cls)
    requires WeakInput(c) && (st.rs? || st.ls?)
    ensures Verified(st, c)
  {}

  /** Every entry of the two tables has the stated properties. */
  lemma TablesVerified(st: WeakState, c: Cls)
    requires WeakInput(c)
    ensures Verified(st, c)
  {
    match st {
      case xa | xr | xl => LetterRows(st, c);
      case ao | ro | lo => NeutralRows(st, c);
      case cn | ra | la => ArabicNumberRows(st, c);
      case re | le => EuropeanNumberRows(st, c);
      case ret | let => TerminatorAfterNumberRows(st, c);
      case rt | lt => TerminatorRows(st, c);
      case ac | rc | lc => ArabicSeparatorRows(st, c);
      case rs | ls => EuropeanSeparatorRows(st, c);
    }
  }
}
