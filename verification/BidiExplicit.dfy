/** Explicit embeddings and overrides, rules X1 to X9: the recursion with two nesting counters
    against an explicit stack of directional status entries. */
module BidiExplicit {
  import opened BidiClasses

  /** The status stack.  A code whose level would exceed MAX_LEVEL is remembered only so that its
      PDF can be matched. */
  datatype Stack =
    | Bottom(level: int, dir: Cls)
    | Pushed(level: int, dir: Cls, below: Stack)
    | Overflow(below: Stack)
  {
    /** The topmost valid entry: it holds the embedding level and the override in force. */
    function Top(): (s: Stack)
      ensures !s.Overflow?
    {
      if Overflow? then below.Top() else this
    }

    /** The stack after a PDF.  An unmatched PDF leaves it as it is. */
    function Pop(): Stack {
      if Bottom? then this else below
    }
  }

  /** What one character does: the stack after it, and its resolved class and level. */
  datatype Step = Step(stack: Stack, cls: Cls, level: int)

  /** The level an opening code asks for: the next even or odd one. */
  function RequestedLevel(level: int, c: Cls): (r: int)
    ensures level < r
  {
    if c.LRE? || c.LRO? then GreaterEven(level) else GreaterOdd(level)
  }

  /** The override an opening code sets, ON for none. */
  function RequestedDir(c: Cls): Cls {
    match c
    case LRO => L
    case RLO => R
    case _ => ON
  }

  function StackStep(stack: Stack, c: Cls): Step {
    var now := stack.Top();
    if IsOpening(c) then
      var level := RequestedLevel(now.level, c);
      if level <= MAX_LEVEL then Step(Pushed(level, RequestedDir(c), stack), BN, level)
      else Step(Overflow(stack), BN, now.level)
    else if c.PDF? then
      Step(stack.Pop(), BN, now.level)
    else
      Step(stack, if !c.BN? && !now.dir.ON? then now.dir else c, now.level)
  }

  /** Resolved text: a class and a level for every character. */
  datatype Text = Text(cls: seq<Cls>, lev: seq<int>)

  /** The stack machine of X1 to X9 run over a text. */
  function StackMachine(stack: Stack, s: seq<Cls>): (t: Text)
    ensures |t.cls| == |s| == |t.lev|
    decreases |s|
  {
    if s == [] then Text([], [])
    else
      var step := StackStep(stack, s[0]);
      var rest := StackMachine(step.stack, s[1..]);
      Text([step.cls] + rest.cls, [step.level] + rest.lev)
  }

  /** Rules X1 to X9 on a whole paragraph. */
  function Explicit(base: int, s: seq<Cls>): (t: Text)
    ensures |t.cls| == |s| == |t.lev|
  {
    StackMachine(Bottom(base, ON), s)
  }

  /** k overflowing codes waiting for their PDFs above an older stack. */
  function Pending(k: nat, stack: Stack): (s: Stack)
    ensures s.Top() == stack.Top()
  {
    if k == 0 then stack else Overflow(Pending(k - 1, stack))
  }

  /** At position i the machine, with the stacks st in front of the characters, makes one step. */
  ghost predicate StepAt(text: seq<Cls>, goal: Text, st: seq<Stack>, i: nat)
    requires i < |goal.cls| == |text| == |goal.lev| == |st| - 1
  {
    StackStep(st[i], text[i]) == Step(st[i + 1], goal.cls[i], goal.lev[i])
  }

  ghost predicate Traces(text: seq<Cls>, goal: Text, st: seq<Stack>) {
    && |goal.cls| == |text| == |goal.lev| == |st| - 1
    && forall i :: 0 <= i < |text| ==> StepAt(text, goal, st, i)
  }

  lemma {:induction false} RunTrace(stack: Stack, text: seq<Cls>) returns (st: seq<Stack>)
    ensures Traces(text, StackMachine(stack, text), st) && st[0] == stack
    decreases |text|
  {
    if text == [] {
      st := [stack];
    } else {
      var step := StackStep(stack, text[0]);
      var rest := RunTrace(step.stack, text[1..]);
      st := [stack] + rest;
      forall i | 0 <= i < |text|
        ensures StepAt(text, StackMachine(stack, text), st, i)
      {
        if i > 0 {
          assert StepAt(text[1..], StackMachine(step.stack, text[1..]), rest, i - 1);
        }
      }
    }
  }

  /** How far the pass has come: the first i characters are resolved as the goal says, the others
      still have their original class. */
  ghost predicate Resolved(pcls: array<Cls>, plevel: array<int>, text: seq<Cls>, goal: Text, i: int)
    reads pcls, plevel
  {
    && 0 <= i <= pcls.Length == plevel.Length == |text| == |goal.cls| == |goal.lev|
    && (forall j :: 0 <= j < i ==> pcls[j] == goal.cls[j])
    && (forall j :: 0 <= j < i ==> plevel[j] == goal.lev[j])
    && (forall j :: i <= j < |text| ==> pcls[j] == text[j])
  }

  /** A character that starts no recursive call: an opening code that overflows, a PDF or ordinary
      text.  Of the codes seen by this call, nNest - nest are waiting for their PDF; a PDF that none
      of them waits for ends the call (closed), unless it is the outermost one. */
  method ResolveChar(level: int, dir: Cls, pcls: array<Cls>, plevel: array<int>, ich: nat, nest: nat, nNest: nat,
                     ghost stack: Stack, ghost st: seq<Stack>, ghost text: seq<Cls>, ghost goal: Text)
    returns (newNest: nat, closed: bool)
    requires ich < pcls.Length && Resolved(pcls, plevel, text, goal, ich)
    requires !stack.Overflow? && stack.level == level && stack.dir == dir && (nest == 0) == stack.Bottom?
    requires nest <= nNest && Traces(text, goal, st) && st[ich] == Pending(nNest - nest, stack)
    requires IsOpening(text[ich]) ==> RequestedLevel(level, text[ich]) > MAX_LEVEL
    modifies pcls, plevel
    ensures Resolved(pcls, plevel, text, goal, ich + 1)
    ensures nest <= newNest && (closed ==> nest > 0)
    ensures st[ich + 1] == if closed then stack.Pop() else Pending(newNest - nest, stack)
  {
    assert StepAt(text, goal, st, ich);
    newNest, closed := nNest, false;
    var cls := pcls[ich];
    if IsOpening(cls) {
      newNest := newNest + 1;
      pcls[ich] := BN;
      cls := BN;
    } else if cls.PDF? {
      pcls[ich] := BN;
      cls := BN;
      if newNest != 0 {
        if nest < newNest {
          newNest := newNest - 1;
        } else {
          closed := true;
        }
      }
    }
    // apply the override
    if !dir.ON? {
      cls := dir;
    }
    plevel[ich] := level;
    if !pcls[ich].BN? {
      pcls[ich] := cls;
    }
  }

  /** A valid opening code at position at: it takes the new level itself, and the text it governs is
      resolved by a recursive call. */
  method ResolveEmbedding(level: int, cls: Cls, pcls: array<Cls>, plevel: array<int>, at: nat, nest: nat,
                          ghost st: seq<Stack>, ghost text: seq<Cls>, ghost goal: Text)
    returns (stop: nat, ghost depth: nat)
    requires at < pcls.Length && Resolved(pcls, plevel, text, goal, at)
    requires Traces(text, goal, st) && 0 <= level == st[at].Top().level && IsOpening(cls) && text[at] == cls
    requires RequestedLevel(level, cls) <= MAX_LEVEL
    requires nest > 0
    modifies pcls, plevel
    ensures at < stop <= pcls.Length
    ensures Resolved(pcls, plevel, text, goal, stop)
    ensures stop == pcls.Length || st[stop] == st[at]
    ensures depth <= MAX_LEVEL - level
    decreases MAX_LEVEL - level, 0
  {
    assert StepAt(text, goal, st, at);
    plevel[at] := if cls.LRO? || cls.LRE? then GreaterEven(level) else GreaterOdd(level);
    pcls[at] := BN;
    var dir := if cls.LRE? || cls.RLE? then ON else if cls.LRO? then L else R;
    stop, depth := ResolveFrom(plevel[at], dir, pcls, plevel, at + 1, nest,
                               st[at + 1], st, text, goal);
  }

  /** The recursive pass over the characters from position start on.  An inner call resolves the text
      up to and including the PDF that matches the code it was called for, or all of it when there is
      none, and returns the position where it stopped.  The ghost stack is the status stack this call
      stands for: just the bottom for the outermost call (nest == 0), and with the caller's code on
      top otherwise; text and goal are the paragraph and what the stack machine makes of it, and st
      are the machine's stacks.  Ghost result depth is the depth of the recursion. */
  method ResolveFrom(level: int, dir: Cls, pcls: array<Cls>, plevel: array<int>, start: nat,
                     nest: nat, ghost stack: Stack, ghost st: seq<Stack>,
                     ghost text: seq<Cls>, ghost goal: Text)
    returns (stop: nat, ghost depth: nat)
    requires Resolved(pcls, plevel, text, goal, start)
    requires 0 <= level <= MAX_LEVEL
    requires !stack.Overflow? && stack.level == level && stack.dir == dir
    requires (nest == 0) == stack.Bottom?
    requires Traces(text, goal, st) && st[start] == stack
    modifies pcls, plevel
    ensures start <= stop <= pcls.Length && (nest == 0 ==> stop == pcls.Length)
    ensures Resolved(pcls, plevel, text, goal, stop)
    ensures stop == pcls.Length || st[stop] == stack.Pop()
    ensures depth <= MAX_LEVEL + 1 - level
    decreases MAX_LEVEL - level, 1
  {
    var nNest := nest;
    var end := pcls.Length;
    var ich := start;
    depth := 1;
    while ich < end
      invariant start <= ich <= pcls.Length && nest <= nNest
      invariant end == pcls.Length ==> ich == pcls.Length || st[ich] == Pending(nNest - nest, stack)
      invariant end != pcls.Length ==> end == ich - 1 && st[ich] == stack.Pop() && nest > 0
      invariant Resolved(pcls, plevel, text, goal, ich)
      invariant 1 <= depth <= MAX_LEVEL + 1 - level
      decreases end - ich
    {
      var cls := pcls[ich];
      if IsOpening(cls) && RequestedLevel(level, cls) <= MAX_LEVEL {
        nNest := nNest + 1;
        ghost var d;
        ich, d := ResolveEmbedding(level, cls, pcls, plevel, ich, nNest, st, text, goal);
        depth := if d + 1 > depth then d + 1 else depth;
        nNest := nNest - 1;
      } else {
        var closed;
        nNest, closed := ResolveChar(level, dir, pcls, plevel, ich, nest, nNest, stack, st, text, goal);
        if closed {
          end := ich;  // ends the loop once the body is complete
        }
        ich := ich + 1;
      }
    }
    stop := ich;
  }

  /** The outermost call: the recursion computes what the stack machine does, handles the whole text,
      and its depth never exceeds MAX_LEVEL + 1 - level, whatever the length of the text. */
  method ResolveExplicit(level: int, pcls: array<Cls>, plevel: array<int>) returns (used: nat, ghost depth: nat)
    requires pcls.Length == plevel.Length && 0 <= level <= MAX_LEVEL
    modifies pcls, plevel
    ensures used == pcls.Length
    ensures Text(pcls[..], plevel[..]) == Explicit(level, old(pcls[..]))
    ensures depth <= MAX_LEVEL + 1 - level
  {
    ghost var text := pcls[..];
    ghost var st := RunTrace(Bottom(level, ON), text);
    used, depth := ResolveFrom(level, ON, pcls, plevel, 0, 0, st[0], st, text, Explicit(level, text));
  }
}
