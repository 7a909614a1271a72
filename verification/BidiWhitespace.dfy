/** Rule L1 of the bidirectional algorithm on one line, and the in-place pass. */
module BidiWhitespace {
  import opened BidiClasses

  /** Segment and paragraph separators. */
  predicate IsSeparator(c: Cls) {
    c.S? || c.B?
  }

  /** The characters that rule X9 removes. */
  predicate IsControl(c: Cls) {
    c.BN? || IsCode(c)
  }

  predicate IsSpace(c: Cls) {
    c.WS? || IsControl(c)
  }

  /** The text is, up to a separator or the end of the line, only white space and controls. */
  predicate LeadsToBreak(s: seq<Cls>)
    decreases |s|
  {
    s == [] || IsSeparator(s[0]) || (IsSpace(s[0]) && LeadsToBreak(s[1..]))
  }

  /** Rule L1: separators, and the white space in front of a separator or of the end of the line, get
      the base level.  Controls that are left in the text count as white space; elsewhere they take the
      level of the character before.  All other levels stay. */
  function L1Level(base: int, s: seq<Cls>, lv: seq<int>, i: nat): int
    requires i < |s| == |lv|
    decreases i
  {
    if LeadsToBreak(s[i..]) then base
    else if IsControl(s[i]) then (if i == 0 then base else L1Level(base, s, lv, i - 1))
    else lv[i]
  }

  function L1(base: int, s: seq<Cls>, lv: seq<int>): (r: seq<int>)
    requires |s| == |lv|
    ensures |r| == |s| && forall i :: 0 <= i < |s| ==> r[i] == L1Level(base, s, lv, i)
  {
    seq(|s|, i requires 0 <= i < |s| => L1Level(base, s, lv, i))
  }

  lemma BreakStep(s: seq<Cls>, i: nat)
    requires i < |s|
    ensures LeadsToBreak(s[i..]) == (IsSeparator(s[i]) || (IsSpace(s[i]) && LeadsToBreak(s[i + 1..])))
  {
    assert s[i..][1..] == s[i + 1..];
  }

  /** The state of the loop in front of position i of the line: the last run characters are white
      space and will get the base level if a break follows; the others are final. */
  ghost predicate Pending(base: int, s: seq<Cls>, lv: seq<int>, cur: seq<int>, i: int, run: int, oldlevel: int)
    requires |s| == |lv| == |cur|
  {
    && 0 <= run <= i <= |s|
    && (forall j :: 0 <= j < i - run ==> cur[j] == L1Level(base, s, lv, j))
    && (forall j :: i - run <= j < i ==>
          L1Level(base, s, lv, j) == if LeadsToBreak(s[i..]) then base else cur[j])
    && (i == 0 ==> oldlevel == base)
    && (i > 0 ==> oldlevel == cur[i - 1])
    && (forall j :: i <= j < |s| ==> cur[j] == lv[j])
  }

  lemma PendingStep(base: int, s: seq<Cls>, lv: seq<int>, cur: seq<int>, i: nat, run: nat, oldlevel: int,
                    cur': seq<int>)
    requires i < |s| == |lv| == |cur| == |cur'| && Pending(base, s, lv, cur, i, run, oldlevel)
    requires var v := if IsSeparator(s[i]) then base else if IsControl(s[i]) then oldlevel else cur[i];
             cur'[i] == v
    requires forall j :: 0 <= j < |s| && j != i ==>
               cur'[j] == if IsSeparator(s[i]) && i - run <= j < i then base else cur[j]
    ensures Pending(base, s, lv, cur', i + 1, if IsSpace(s[i]) then run + 1 else 0, cur'[i])
  {
    BreakStep(s, i);
    if i > 0 {
      BreakStep(s, i - 1);
    }
  }

  /** The loop body at position ich of the line that begins at start. */
  method WhitespaceAt(baselevel: int, cls: Cls, plevel: array<int>, start: nat, ich: nat, cchrun: nat, oldlevel: int)
    returns (run: nat)
    requires start + ich < plevel.Length && cchrun <= ich
    modifies plevel
    ensures run == if IsSpace(cls) then cchrun + 1 else 0
    ensures plevel[start + ich] == if IsSeparator(cls) then baselevel
                                   else if IsControl(cls) then oldlevel else old(plevel[start + ich])
    ensures forall j :: 0 <= j < plevel.Length && j != start + ich ==>
              plevel[j] == if IsSeparator(cls) && start + ich - cchrun <= j < start + ich then baselevel
                           else old(plevel[j])
  {
    run := cchrun;
    match cls {
      case WS =>
        run := run + 1;
      case RLE | LRE | LRO | RLO | PDF | BN =>
        plevel[start + ich] := oldlevel;
        run := run + 1;
      case S | B =>
        // reset levels of the white space in front
        SetDeferredRun(plevel, run, start + ich, baselevel);
        run := 0;
        plevel[start + ich] := baselevel;
      case _ =>
        run := 0;  // any other character breaks the run
    }
  }

  /** The same step, seen on the line. */
  method WhitespaceStep(baselevel: int, cls: Cls, plevel: array<int>, start: nat, cch: nat, ich: nat, cchrun: nat,
                        oldlevel: int, ghost s: seq<Cls>, ghost lv: seq<int>)
    returns (run: nat, level: int)
    requires start + cch <= plevel.Length && ich < cch == |s| == |lv| && cls == s[ich]
    requires Pending(baselevel, s, lv, plevel[start..start + cch], ich, cchrun, oldlevel)
    modifies plevel
    ensures Pending(baselevel, s, lv, plevel[start..start + cch], ich + 1, run, level)
    ensures plevel[..start] == old(plevel[..start]) && plevel[start + cch..] == old(plevel[start + cch..])
  {
    ghost var cur := plevel[start..start + cch];
    run := WhitespaceAt(baselevel, cls, plevel, start, ich, cchrun, oldlevel);
    level := plevel[start + ich];
    ghost var cur' := plevel[start..start + cch];
    assert cur'[ich] == plevel[start + ich];
    forall j | 0 <= j < cch && j != ich
      ensures cur'[j] == if IsSeparator(cls) && ich - cchrun <= j < ich then baselevel else cur[j]
    {
      assert cur'[j] == plevel[start + j] && cur[j] == old(plevel[start + j]);
    }
    PendingStep(baselevel, s, lv, cur, ich, cchrun, oldlevel, cur');
  }

  /** Resets the white space at the end of the line. */
  method FlushWhitespace(baselevel: int, plevel: array<int>, start: nat, cch: nat, cchrun: nat,
                         ghost s: seq<Cls>, ghost lv: seq<int>, ghost oldlevel: int)
    requires start + cch <= plevel.Length && cch == |s| == |lv|
    requires Pending(baselevel, s, lv, plevel[start..start + cch], cch, cchrun, oldlevel)
    modifies plevel
    ensures plevel[start..start + cch] == L1(baselevel, s, lv)
    ensures plevel[..start] == old(plevel[..start]) && plevel[start + cch..] == old(plevel[start + cch..])
  {
    assert LeadsToBreak(s[cch..]);
    SetDeferredRun(plevel, cchrun, start + cch, baselevel);
    forall j | 0 <= j < cch
      ensures plevel[start..start + cch][j] == L1(baselevel, s, lv)[j]
    {
      assert plevel[start..start + cch][j] == plevel[start + j];
      assert old(plevel[start..start + cch])[j] == old(plevel[start + j]);
    }
  }

  /** The in-place pass on the line of cch characters that begins at start. */
  method ResolveWhitespace(baselevel: int, pcls: array<Cls>, plevel: array<int>, start: nat, cch: nat)
    requires start + cch <= pcls.Length == plevel.Length
    modifies plevel
    ensures plevel[start..start + cch] == L1(baselevel, pcls[start..start + cch], old(plevel[start..start + cch]))
    ensures plevel[..start] == old(plevel[..start]) && plevel[start + cch..] == old(plevel[start + cch..])
  {
    ghost var s, lv := pcls[start..start + cch], plevel[start..start + cch];
    var cchrun := 0;
    var oldlevel := baselevel;
    var ich := 0;
    while ich < cch
      invariant 0 <= ich <= cch && 0 <= cchrun
      invariant Pending(baselevel, s, lv, plevel[start..start + cch], ich, cchrun, oldlevel)
      invariant plevel[..start] == old(plevel[..start]) && plevel[start + cch..] == old(plevel[start + cch..])
    {
      cchrun, oldlevel :=
        WhitespaceStep(baselevel, pcls[start + ich], plevel, start, cch, ich, cchrun, oldlevel, s, lv);
      ich := ich + 1;
    }
    FlushWhitespace(baselevel, plevel, start, cch, cchrun, s, lv, oldlevel);
  }

  // Rule L1 and the removal of the controls.

  /** The positions that are not controls. */
  function NotControl(s: seq<Cls>): (m: seq<bool>)
    ensures |m| == |s| && forall i :: 0 <= i < |s| ==> m[i] == !IsControl(s[i])
  {
    seq(|s|, i requires 0 <= i < |s| => !IsControl(s[i]))
  }

  lemma NotControlTail(s: seq<Cls>)
    requires s != []
    ensures NotControl(s)[1..] == NotControl(s[1..])
  {}

  lemma {:induction false} BreakWithoutControls(s: seq<Cls>)
    ensures LeadsToBreak(Keep(NotControl(s), s)) == LeadsToBreak(s)
    decreases |s|
  {
    if s != [] {
      NotControlTail(s);
      BreakWithoutControls(s[1..]);
      assert !IsControl(s[0]) ==> Keep(NotControl(s), s)[1..] == Keep(NotControl(s[1..]), s[1..]);
    }
  }

  /** Rule L1 from some position on, for the characters that are not controls. */
  function L1Ordinary(base: int, s: seq<Cls>, lv: seq<int>): (r: seq<int>)
    requires |s| == |lv|
    ensures |r| == |s|
    decreases |s|
  {
    if s == [] then [] else [if LeadsToBreak(s) then base else lv[0]] + L1Ordinary(base, s[1..], lv[1..])
  }

  lemma {:induction false} OrdinaryWithoutControls(base: int, s: seq<Cls>, lv: seq<int>)
    requires |s| == |lv|
    ensures var m := NotControl(s);
            Keep(m, L1Ordinary(base, s, lv)) == L1Ordinary(base, Keep(m, s), Keep(m, lv))
    decreases |s|
  {
    if s != [] {
      NotControlTail(s);
      BreakWithoutControls(s);
      OrdinaryWithoutControls(base, s[1..], lv[1..]);
      var r := L1Ordinary(base, s, lv);
      assert r[1..] == L1Ordinary(base, s[1..], lv[1..]);
      if !IsControl(s[0]) {
        var x, xl := Keep(NotControl(s[1..]), s[1..]), Keep(NotControl(s[1..]), lv[1..]);
        assert ([s[0]] + x)[1..] == x && ([lv[0]] + xl)[1..] == xl;
      }
    }
  }

  lemma {:induction false} L1IsOrdinary(base: int, s: seq<Cls>, lv: seq<int>, i: nat)
    requires i <= |s| == |lv|
    ensures Keep(NotControl(s)[i..], L1(base, s, lv)[i..])
         == Keep(NotControl(s)[i..], L1Ordinary(base, s[i..], lv[i..]))
    decreases |s| - i
  {
    if i < |s| {
      var m, r, o := NotControl(s)[i..], L1(base, s, lv)[i..], L1Ordinary(base, s[i..], lv[i..]);
      assert m[1..] == NotControl(s)[i + 1..] && r[1..] == L1(base, s, lv)[i + 1..];
      assert s[i..][1..] == s[i + 1..] && lv[i..][1..] == lv[i + 1..];
      assert o[1..] == L1Ordinary(base, s[i + 1..], lv[i + 1..]);
      L1IsOrdinary(base, s, lv, i + 1);
    }
  }

  lemma {:induction false} KeptHasNoControl(s: seq<Cls>)
    ensures forall i :: 0 <= i < |NotControl(Keep(NotControl(s), s))| ==> NotControl(Keep(NotControl(s), s))[i]
    decreases |s|
  {
    if s != [] {
      NotControlTail(s);
      KeptHasNoControl(s[1..]);
      var x := Keep(NotControl(s[1..]), s[1..]);
      forall i | 0 <= i < |Keep(NotControl(s), s)|
        ensures !IsControl(Keep(NotControl(s), s)[i])
      {
        if i < |x| {
          assert NotControl(x)[i];
        }
        if i > 0 && !IsControl(s[0]) {
          assert NotControl(x)[i - 1];
        }
      }
    }
  }

  /** Rule L1 gives the ordinary characters the same levels whether the controls are left in the line
      or removed first. */
  lemma L1WithoutControls(base: int, s: seq<Cls>, lv: seq<int>)
    requires |s| == |lv|
    ensures var m := NotControl(s);
            Keep(m, L1(base, s, lv)) == L1(base, Keep(m, s), Keep(m, lv))
  {
    var m := NotControl(s);
    var x, xl := Keep(m, s), Keep(m, lv);
    L1IsOrdinary(base, s, lv, 0);
    L1IsOrdinary(base, x, xl, 0);
    OrdinaryWithoutControls(base, s, lv);
    KeptHasNoControl(s);
    KeepAll(NotControl(x), L1(base, x, xl));
    KeepAll(NotControl(x), L1Ordinary(base, x, xl));
    assert s[0..] == s && lv[0..] == lv && x[0..] == x && xl[0..] == xl && m[0..] == m;
    assert NotControl(x)[0..] == NotControl(x);
    assert L1(base, s, lv)[0..] == L1(base, s, lv) && L1(base, x, xl)[0..] == L1(base, x, xl);
  }
}
