/** Directional classes, level arithmetic and sequence helpers shared by all passes of the
    bidirectional algorithm. */
module BidiClasses {

  /** The directional classes in their numeric order (see Ord).  ON doubles as N, the class that
      ON, S and WS are conflated to before the weak and neutral passes. */
  datatype Cls =
    | ON | L | R | AN | EN | AL | NSM | CS | ES | ET
    | BN
    | S | WS | B
    | RLO | RLE | LRO | LRE | PDF

  /** The numeric value of a class: the column it selects in a lookup table. */
  function Ord(c: Cls): nat {
    match c
    case ON => 0 case L => 1 case R => 2 case AN => 3 case EN => 4
    case AL => 5 case NSM => 6 case CS => 7 case ES => 8 case ET => 9
    case BN => 10
    case S => 11 case WS => 12 case B => 13
    case RLO => 14 case RLE => 15 case LRO => 16 case LRE => 17 case PDF => 18
  }

  const MAX_LEVEL: nat := 61

  predicate Odd(x: int) {
    x % 2 == 1
  }

  function Max(a: int, b: int): int {
    if a > b then a else b
  }

  function GreaterEven(i: int): int {
    if Odd(i) then i + 1 else i + 2
  }

  function GreaterOdd(i: int): int {
    if Odd(i) then i + 2 else i + 1
  }

  function EmbeddingDirection(level: int): Cls {
    if Odd(level) then R else L
  }

  /** The four codes that open an embedding or an override. */
  predicate IsOpening(c: Cls) {
    c.LRE? || c.LRO? || c.RLE? || c.RLO?
  }

  /** The explicit formatting codes, which rule X9 removes together with BN. */
  predicate IsCode(c: Cls) {
    IsOpening(c) || c.PDF?
  }

  /** n copies of x. */
  function Fill<T>(n: nat, x: T): (s: seq<T>)
    ensures |s| == n && forall i :: 0 <= i < n ==> s[i] == x
  {
    seq(n, _ => x)
  }

  /** The number of positions where the mask holds. */
  function Count(m: seq<bool>): nat {
    if m == [] then 0 else if m[0] then 1 + Count(m[1..]) else Count(m[1..])
  }

  /** The elements of s at the positions where the mask holds, in order. */
  function Keep<T>(m: seq<bool>, s: seq<T>): (r: seq<T>)
    requires |m| == |s|
    ensures |r| == Count(m)
  {
    if s == [] then [] else if m[0] then [s[0]] + Keep(m[1..], s[1..]) else Keep(m[1..], s[1..])
  }

  lemma {:induction false} KeepAll<T>(m: seq<bool>, s: seq<T>)
    requires |m| == |s| && forall i :: 0 <= i < |m| ==> m[i]
    ensures Keep(m, s) == s
    decreases |s|
  {
    if s != [] {
      KeepAll(m[1..], s[1..]);
    }
  }

  /** These are positions with a mark. */
  predicate AllMarked(m: seq<bool>, p: seq<int>) {
    forall k :: 0 <= k < |p| ==> 0 <= p[k] < |m| && m[p[k]]
  }

  predicate Increasing(p: seq<int>) {
    forall j, k :: 0 <= j < k < |p| ==> p[j] < p[k]
  }

  predicate Covers(m: seq<bool>, p: seq<int>) {
    forall i :: 0 <= i < |m| && m[i] ==> i in p
  }

  /** All positions one further, behind position 0 if that is marked. */
  function Shifted(first: bool, t: seq<int>): (p: seq<int>)
    ensures first ==> |p| == |t| + 1 && p[0] == 0 && forall k :: 0 < k < |p| ==> p[k] == t[k - 1] + 1
    ensures !first ==> |p| == |t| && forall k :: 0 <= k < |p| ==> p[k] == t[k] + 1
  {
    (if first then [0] else []) + seq(|t|, k requires 0 <= k < |t| => t[k] + 1)
  }

  lemma ShiftedCovers(m: seq<bool>, t: seq<int>)
    requires m != [] && Covers(m[1..], t)
    ensures Covers(m, Shifted(m[0], t))
  {
    var p := Shifted(m[0], t);
    forall i | 0 <= i < |m| && m[i]
      ensures i in p
    {
      if i == 0 {
        assert p[0] == 0;
      } else {
        assert m[1..][i - 1];
        var k :| 0 <= k < |t| && t[k] == i - 1;
        assert p[if m[0] then k + 1 else k] == i;
      }
    }
  }

  lemma ShiftedMarked(m: seq<bool>, t: seq<int>)
    requires m != [] && AllMarked(m[1..], t) && Increasing(t)
    ensures AllMarked(m, Shifted(m[0], t)) && Increasing(Shifted(m[0], t))
  {
    assert forall k :: 0 <= k < |t| ==> m[1..][t[k]] == m[t[k] + 1];
  }

  lemma NothingMarked()
    ensures AllMarked([], []) && Increasing([]) && Covers([], [])
  {}

  /** The kept elements are those at the marked positions, each once and in the order of the text. */
  lemma {:induction false} KeepPositions<T>(m: seq<bool>, s: seq<T>) returns (p: seq<int>)
    requires |m| == |s|
    ensures AllMarked(m, p) && Increasing(p) && Covers(m, p)
    ensures |p| == |Keep(m, s)| && forall k :: 0 <= k < |p| ==> 0 <= p[k] < |s| && Keep(m, s)[k] == s[p[k]]
    decreases |s|
  {
    hide AllMarked, Increasing, Covers;
    if s == [] {
      p := [];
      NothingMarked();
    } else {
      var t := KeepPositions(m[1..], s[1..]);
      p := Shifted(m[0], t);
      ShiftedMarked(m, t);
      ShiftedCovers(m, t);
    }
  }

  /** The positions that rule X9 keeps: everything but BN. */
  function NotBN(s: seq<Cls>): (m: seq<bool>)
    ensures |m| == |s| && forall i :: 0 <= i < |s| ==> m[i] == (!s[i].BN?)
  {
    seq(|s|, i requires 0 <= i < |s| => !s[i].BN?)
  }

  /** Classes no larger than BN: all that is left once the explicit codes are resolved. */
  predicate UpToBN(s: seq<Cls>) {
    forall i :: 0 <= i < |s| ==> Ord(s[i]) <= Ord(BN)
  }

  /** What rule X9 leaves of t, a sequence that belongs to the text s. */
  function Kept<T>(s: seq<Cls>, t: seq<T>): (r: seq<T>)
    requires |s| == |t|
    ensures |r| == Count(NotBN(s))
  {
    Keep(NotBN(s), t)
  }

  lemma KeptStep<T>(s: seq<Cls>, t: seq<T>)
    requires |s| == |t| && s != []
    ensures Kept(s, t) == if s[0].BN? then Kept(s[1..], t[1..]) else [t[0]] + Kept(s[1..], t[1..])
  {
    assert NotBN(s)[1..] == NotBN(s[1..]);
  }

  /** The array in front of position ich while the last run of these characters are deferred: the
      others are final, and the deferred ones will all be final once they get the class pend. */
  ghost predicate Window(pcls: array<Cls>, goal: seq<Cls>, ich: int, run: int, pend: Cls)
    reads pcls
  {
    && 0 <= run <= ich <= pcls.Length == |goal|
    && (forall j :: 0 <= j < ich - run ==> pcls[j] == goal[j])
    && (forall j :: ich - run <= j < ich ==> goal[j] == pend)
  }

  /** Sets the run of cval values in front of iStart to nval. */
  method SetDeferredRun<T>(pval: array<T>, cval: nat, iStart: nat, nval: T)
    requires cval <= iStart <= pval.Length
    modifies pval
    ensures forall j :: iStart - cval <= j < iStart ==> pval[j] == nval
    ensures forall j :: 0 <= j < iStart - cval ==> pval[j] == old(pval[j])
    ensures forall j :: iStart <= j < pval.Length ==> pval[j] == old(pval[j])
  {
    var i := iStart - 1;
    while i >= iStart - cval
      invariant iStart - cval - 1 <= i < iStart
      invariant forall j :: i < j < iStart ==> pval[j] == nval
      invariant forall j :: 0 <= j <= i ==> pval[j] == old(pval[j])
      invariant forall j :: iStart <= j < pval.Length ==> pval[j] == old(pval[j])
    {
      pval[i] := nval;
      i := i - 1;
    }
  }
}
