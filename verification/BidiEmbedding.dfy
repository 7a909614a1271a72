/** What the explicit codes do to a text, told without the status stack: the text that a code governs,
    the codes that change nothing, and the pairs that vanish. */
module BidiEmbedding {
  import opened BidiClasses
  import opened BidiExplicit

  predicate Opens(c: Cls) {
    c == LRE || c == LRO || c == RLE || c == RLO
  }

  predicate RightToLeft(c: Cls) {
    c == RLE || c == RLO
  }

  /** Neither an opening code nor a PDF among these classes. */
  predicate NoCodes(s: seq<Cls>) {
    forall i :: 0 <= i < |s| ==> !Opens(s[i]) && s[i] != PDF
  }

  /** m is the least level above the given one that is odd, or that is even. */
  predicate LeastAbove(level: int, odd: bool, m: int) {
    level < m <= level + 2 && (m % 2 == 1) == odd
  }

  /** One opening code on the machine's run: the entry it pushes has the least higher level of its
      direction, and an override exactly for LRO and RLO; it is pushed exactly up to level 61. */
  lemma OpenedOnTrace(text: seq<Cls>, goal: Text, st: seq<Stack>, i: nat)
    requires Traces(text, goal, st) && i < |text| && Opens(text[i])
    ensures var now, then' := st[i].Top(), st[i + 1];
            if then'.Pushed? then
              && then'.below == st[i] && LeastAbove(now.level, RightToLeft(text[i]), then'.level) && then'.level <= 61
              && (then'.dir == L <==> text[i] == LRO) && (then'.dir == R <==> text[i] == RLO)
              && (then'.dir == ON <==> text[i] == LRE || text[i] == RLE)
              && goal.cls[i] == BN && goal.lev[i] == then'.level
            else
              && then' == Overflow(st[i]) && goal.cls[i] == BN && goal.lev[i] == now.level
              && forall m :: LeastAbove(now.level, RightToLeft(text[i]), m) ==> m > 61
  {
    assert StepAt(text, goal, st, i);
  }

  /** The stack behind a text. */
  function StackAfter(stack: Stack, s: seq<Cls>): Stack
    decreases |s|
  {
    if s == [] then stack else StackAfter(StackStep(stack, s[0]).stack, s[1..])
  }

  /** One character in front of a text. */
  lemma MachineCons(stack: Stack, c: Cls, s: seq<Cls>)
    ensures var step := StackStep(stack, c);
            && StackAfter(stack, [c] + s) == StackAfter(step.stack, s)
            && StackMachine(stack, [c] + s).cls == [step.cls] + StackMachine(step.stack, s).cls
            && StackMachine(stack, [c] + s).lev == [step.level] + StackMachine(step.stack, s).lev
  {
    hide StackStep;
    assert ([c] + s)[1..] == s;
  }

  lemma MachineOfNone(stack: Stack)
    ensures StackMachine(stack, []) == Text([], []) && StackAfter(stack, []) == stack
  {}

  lemma ConsConcat<T>(x: T, a: seq<T>, b: seq<T>)
    ensures [x] + a + b == [x] + (a + b)
  {}

  /** The machine goes through a text in two parts. */
  lemma {:induction false} MachineSplit(stack: Stack, a: seq<Cls>, b: seq<Cls>)
    ensures StackAfter(stack, a + b) == StackAfter(StackAfter(stack, a), b)
    ensures var t, u, v := StackMachine(stack, a + b), StackMachine(stack, a), StackMachine(StackAfter(stack, a), b);
            t == Text(u.cls + v.cls, u.lev + v.lev)
    decreases |a|
  {
    hide StackStep, StackMachine, StackAfter;
    MachineOfNone(stack);
    if a == [] {
      assert a + b == b;
      assert [] + StackMachine(stack, b).cls == StackMachine(stack, b).cls;
      assert [] + StackMachine(stack, b).lev == StackMachine(stack, b).lev;
    } else {
      var step := StackStep(stack, a[0]);
      MachineSplit(step.stack, a[1..], b);
      MachineCons(stack, a[0], a[1..]);
      MachineCons(stack, a[0], a[1..] + b);
      assert [a[0]] + a[1..] == a && [a[0]] + (a[1..] + b) == a + b;
      ConsConcat(step.cls, StackMachine(step.stack, a[1..]).cls, StackMachine(StackAfter(stack, a), b).cls);
      ConsConcat(step.level, StackMachine(step.stack, a[1..]).lev, StackMachine(StackAfter(stack, a), b).lev);
    }
  }

  lemma {:induction false} NoCodesStay(stack: Stack, s: seq<Cls>)
    requires NoCodes(s)
    ensures StackAfter(stack, s) == stack
    decreases |s|
  {
    if s != [] {
      NoCodesStay(stack, s[1..]);
    }
  }

  /** What one character becomes on a stack. */
  lemma MachineOfOne(stack: Stack, c: Cls)
    ensures StackMachine(stack, [c]) == Text([StackStep(stack, c).cls], [StackStep(stack, c).level])
    ensures StackAfter(stack, [c]) == StackStep(stack, c).stack
  {
    assert StackMachine(StackStep(stack, c).stack, []) == Text([], []);
    assert [c][1..] == [];
  }

  /** A character behind the opening code c, and what would stand in place of the code. */
  lemma GovernedStep(stack: Stack, c: Cls, x: Cls, m: int)
    requires Opens(c) && !Opens(x) && x != PDF
    requires LeastAbove(StackStep(stack, ON).level, RightToLeft(c), m)
    ensures var here, there := StackStep(stack, ON), StackStep(StackStep(stack, c).stack, x);
            if m <= 61 then
              && there.level == m
              && there.cls == if x == BN then BN else if c == RLO then R else if c == LRO then L else x
            else
              there.level == here.level && there.cls == if x == BN || here.cls == ON then x else here.cls
  {}

  /** Between an opening code and the next code, all characters get the least higher level of its direction,
      as long as that is not above 61.  Behind RLO they become R, behind LRO they become L, and otherwise
      they stay as they are.  A code whose level would be above 61 changes neither level nor override.  The
      level and the override in front of the code are those that a neutral in its place would get. */
  lemma Governed(base: int, a: seq<Cls>, c: Cls, inner: seq<Cls>, x: Cls, b: seq<Cls>, m: int)
    requires Opens(c) && NoCodes(inner) && !Opens(x) && x != PDF
    requires LeastAbove(Explicit(base, a + [ON]).lev[|a|], RightToLeft(c), m)
    ensures var t, here, j := Explicit(base, a + [c] + inner + [x] + b), Explicit(base, a + [ON]), |a| + 1 + |inner|;
            if m <= 61 then
              && t.lev[j] == m
              && t.cls[j] == if x == BN then BN else if c == RLO then R else if c == LRO then L else x
            else
              t.lev[j] == here.lev[|a|] && t.cls[j] == if x == BN || here.cls[|a|] == ON then x else here.cls[|a|]
  {
    hide StackStep;
    var stack := StackAfter(Bottom(base, ON), a);
    MachineSplit(Bottom(base, ON), a, [ON]);
    MachineOfOne(stack, ON);
    var s1 := StackStep(stack, c).stack;
    MachineSplit(Bottom(base, ON), a, [c]);
    MachineOfOne(stack, c);
    MachineSplit(Bottom(base, ON), a + [c], inner);
    NoCodesStay(s1, inner);
    MachineSplit(Bottom(base, ON), a + [c] + inner, [x]);
    MachineOfOne(s1, x);
    MachineSplit(Bottom(base, ON), a + [c] + inner + [x], b);
    GovernedStep(stack, c, x, m);
  }

  // Codes that match each other.

  /** Every PDF has its opening code and the other way round, when depth opening codes stand in front. */
  predicate Balanced(depth: nat, s: seq<Cls>)
    decreases |s|
  {
    if s == [] then depth == 0
    else if Opens(s[0]) then Balanced(depth + 1, s[1..])
    else if s[0] == PDF then depth > 0 && Balanced(depth - 1, s[1..])
    else Balanced(depth, s[1..])
  }

  /** The stack top is that stack with so many entries on it. */
  predicate Above(depth: nat, top: Stack, stack: Stack) {
    if depth == 0 then top == stack else !top.Bottom? && Above(depth - 1, top.below, stack)
  }

  /** A text whose codes match each other leaves the stack as it was. */
  lemma {:induction false} BalancedStays(depth: nat, top: Stack, stack: Stack, s: seq<Cls>)
    requires Balanced(depth, s) && Above(depth, top, stack)
    ensures StackAfter(top, s) == stack
    decreases |s|
  {
    if s != [] {
      var next := StackStep(top, s[0]).stack;
      BalancedStays(if Opens(s[0]) then depth + 1 else if s[0] == PDF then depth - 1 else depth, next, stack, s[1..]);
    }
  }

  lemma PairStays(stack: Stack, c: Cls, inner: seq<Cls>)
    requires Opens(c) && Balanced(0, inner)
    ensures StackAfter(stack, [c] + inner + [PDF]) == stack
  {
    MachineOfOne(stack, c);
    var top := StackStep(stack, c).stack;
    BalancedStays(0, top, top, inner);
    MachineSplit(stack, [c], inner);
    MachineSplit(stack, [c] + inner, [PDF]);
    MachineOfOne(top, PDF);
  }

  lemma MiddleVanishes<T>(a: seq<T>, m: seq<T>, b: seq<T>)
    ensures (a + m + b)[..|a|] == (a + b)[..|a|] && (a + m + b)[|a| + |m|..] == (a + b)[|a|..]
  {}

  /** An opening code, its PDF and what stands between them, however deeply nested, have no effect on the
      rest of the paragraph. */
  lemma PairVanishes(base: int, a: seq<Cls>, c: Cls, inner: seq<Cls>, b: seq<Cls>)
    requires Opens(c) && Balanced(0, inner)
    ensures var t, u := Explicit(base, a + ([c] + inner + [PDF]) + b), Explicit(base, a + b);
            var n := |a| + |inner| + 2;
            && t.cls[..|a|] == u.cls[..|a|] && t.lev[..|a|] == u.lev[..|a|]
            && t.cls[n..] == u.cls[|a|..] && t.lev[n..] == u.lev[|a|..]
  {
    hide StackStep, StackMachine, StackAfter, Balanced;
    var pair := [c] + inner + [PDF];
    var stack := StackAfter(Bottom(base, ON), a);
    PairStays(stack, c, inner);
    MachineSplit(Bottom(base, ON), a, pair);
    MachineSplit(Bottom(base, ON), a + pair, b);
    MachineSplit(Bottom(base, ON), a, b);
    var u, v, w := StackMachine(Bottom(base, ON), a), StackMachine(stack, pair), StackMachine(stack, b);
    MiddleVanishes(u.cls, v.cls, w.cls);
    MiddleVanishes(u.lev, v.lev, w.lev);
  }

  lemma OnBottom(base: int, x: Cls)
    requires !Opens(x)
    ensures var step := StackStep(Bottom(base, ON), x);
            step.stack == Bottom(base, ON) && step.level == base && (x != PDF ==> step.cls == x)
  {}

  /** Behind codes that all match each other, a character has the base level and its own class, and a PDF
      changes nothing for the rest. */
  lemma OutermostStays(base: int, a: seq<Cls>, x: Cls, b: seq<Cls>)
    requires Balanced(0, a) && !Opens(x)
    ensures var t := Explicit(base, a + [x] + b);
            && t.lev[|a|] == base && (x != PDF ==> t.cls[|a|] == x)
            && t.cls[|a| + 1..] == Explicit(base, b).cls && t.lev[|a| + 1..] == Explicit(base, b).lev
  {
    hide StackStep, StackMachine, StackAfter, Balanced;
    var bottom := Bottom(base, ON);
    BalancedStays(0, bottom, bottom, a);
    MachineSplit(bottom, a, [x]);
    MachineOfOne(bottom, x);
    OnBottom(base, x);
    MachineSplit(bottom, a + [x], b);
  }
}
