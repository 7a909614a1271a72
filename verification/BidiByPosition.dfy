/** Rules W1 to W7, N1 and N2 and the level runs told position by position, with the character that a
    rule looks back or ahead at named outright. */
module BidiByPosition {
  import opened BidiClasses
  import opened BidiWeakRules
  import opened BidiRuns
  import opened BidiNeutralRules

  /** Position k holds the nearest character in front of position i with the property, -1 for none. */
  predicate Nearest(p: Cls -> bool, s: seq<Cls>, i: int, k: int) {
    -1 <= k < i <= |s| && (k >= 0 ==> p(s[k])) && forall j :: k < j < i ==> !p(s[j])
  }

  lemma NearestTail(p: Cls -> bool, s: seq<Cls>, i: int, k: int)
    requires Nearest(p, s, i, k) && i > 0
    ensures Nearest(p, s[1..], i - 1, if k <= 0 then -1 else k - 1)
  {
    forall j | (if k <= 0 then -1 else k - 1) < j < i - 1
      ensures !p(s[1..][j])
    {
      assert s[1..][j] == s[j + 1];
    }
  }

  predicate NotMark(c: Cls) {
    c != NSM
  }

  predicate AnyLetter(c: Cls) {
    c == L || c == R || c == AL
  }

  predicate Letter(c: Cls) {
    c == L || c == R
  }

  predicate NotNeutral(c: Cls) {
    c != ON
  }

  lemma W1Step(sor: Cls, s: seq<Cls>, i: nat)
    requires i < |s|
    ensures var c := if s[0] == NSM then sor else s[0];
            W1(sor, s)[i] == if i == 0 then c else W1(c, s[1..])[i - 1]
  {}

  /** W1: a nonspacing mark takes the class of the nearest character in front that is none. */
  lemma {:induction false} W1At(sor: Cls, s: seq<Cls>, i: nat, k: int)
    requires i < |s| && Nearest(NotMark, s, i + 1, k)
    ensures W1(sor, s)[i] == if k == -1 then sor else s[k]
    decreases |s|
  {
    hide W1;
    W1Step(sor, s, i);
    if i > 0 {
      NearestTail(NotMark, s, i + 1, k);
      W1At(if s[0].NSM? then sor else s[0], s[1..], i - 1, if k <= 0 then -1 else k - 1);
    }
  }

  lemma W2Step(sor: Cls, s: seq<Cls>, i: nat)
    requires i < |s|
    ensures i == 0 ==> W2(sor, s)[i] == if s[0] == EN && sor == AL then AN else s[0]
    ensures i > 0 ==> W2(sor, s)[i] == W2(if AnyLetter(s[0]) then s[0] else sor, s[1..])[i - 1]
  {}

  /** W2: a European number becomes Arabic when the nearest strong character in front is AL. */
  lemma {:induction false} W2At(sor: Cls, s: seq<Cls>, i: nat, k: int)
    requires i < |s| && Nearest(AnyLetter, s, i, k)
    ensures W2(sor, s)[i] == if s[i] == EN && (if k == -1 then sor else s[k]) == AL then AN else s[i]
    decreases |s|
  {
    hide W2;
    W2Step(sor, s, i);
    if i > 0 {
      NearestTail(AnyLetter, s, i, k);
      W2At(if AnyLetter(s[0]) then s[0] else sor, s[1..], i - 1, if k <= 0 then -1 else k - 1);
    }
  }

  /** W3: AL becomes R. */
  lemma {:induction false} W3At(s: seq<Cls>, i: nat)
    requires i < |s|
    ensures W3(s)[i] == if s[i] == AL then R else s[i]
    decreases |s|
  {
    if i > 0 {
      W3At(s[1..], i - 1);
    }
  }

  /** W4: a separator between two numbers of one class, ES only between EN, takes that class. */
  predicate Joins(before: Cls, c: Cls, after: Cls) {
    before == after && ((before == EN && (c == ES || c == CS)) || (before == AN && c == CS))
  }

  lemma {:induction false} W4At(prev: Cls, s: seq<Cls>, i: nat)
    requires i < |s|
    ensures var before := if i == 0 then prev else s[i - 1];
            W4(prev, s)[i] == if i + 1 < |s| && Joins(before, s[i], s[i + 1]) then before else s[i]
    decreases |s|
  {
    if i > 0 {
      W4At(s[0], s[1..], i - 1);
    }
  }

  /** Position j holds EN, and from i to j there is only ET. */
  predicate ReachesEN(s: seq<Cls>, i: int, j: int)
    requires 0 <= i < |s|
  {
    && 0 <= j < |s| && s[j] == EN
    && forall k :: 0 <= k < |s| && (i <= k < j || j < k <= i) ==> s[k] == ET
  }

  ghost predicate ENAhead(s: seq<Cls>) {
    exists j :: 0 <= j < |s| && s[j] == EN && forall k :: 0 <= k < j ==> s[k] == ET
  }

  lemma {:induction false} LeadsToENAhead(s: seq<Cls>)
    ensures LeadsToEN(s) <==> ENAhead(s)
    decreases |s|
  {
    if s != [] && !s[0].EN? {
      LeadsToENAhead(s[1..]);
      if j :| 0 <= j < |s[1..]| && s[1..][j] == EN && forall k :: 0 <= k < j ==> s[1..][k] == ET {
        if s[0].ET? {
          assert s[j + 1] == EN;
          forall k | 0 <= k < j + 1
            ensures s[k] == ET
          {
            assert k > 0 ==> s[k] == s[1..][k - 1];
          }
        }
      }
      if j :| 0 <= j < |s| && s[j] == EN && forall k :: 0 <= k < j ==> s[k] == ET {
        assert s[1..][j - 1] == EN;
      }
    }
  }

  ghost predicate NextToEN(s: seq<Cls>, i: int)
    requires 0 <= i < |s|
  {
    exists j :: ReachesEN(s, i, j)
  }

  /** All of these characters are ET up to the given position. */
  predicate OnlyET(s: seq<Cls>, i: int) {
    forall k :: 0 <= k < i && k < |s| ==> s[k] == ET
  }

  lemma ReachesShift(s: seq<Cls>, t: seq<Cls>, i: int, j: int)
    requires 0 < i < |s| && t == s[1..] && s[i] == ET && j > 0
    ensures ReachesEN(s, i, j) == ReachesEN(t, i - 1, j - 1)
  {
    if ReachesEN(s, i, j) {
      assert t[j - 1] == s[j];
    }
    if ReachesEN(t, i - 1, j - 1) {
      assert s[j] == t[j - 1];
      forall k | 0 <= k < |s| && (i <= k < j || j < k <= i)
        ensures s[k] == ET
      {
        assert s[k] == t[k - 1];
      }
    }
  }

  lemma ReachesTail(s: seq<Cls>, t: seq<Cls>, i: int)
    requires 0 < i < |s| && t == s[1..] && s[i] == ET
    ensures NextToEN(s, i) <==> (s[0] == EN && OnlyET(t, i - 1)) || NextToEN(t, i - 1)
  {
    if NextToEN(s, i) {
      var j :| ReachesEN(s, i, j);
      if j > 0 {
        ReachesShift(s, t, i, j);
      }
    }
    if NextToEN(t, i - 1) {
      var j :| ReachesEN(t, i - 1, j);
      ReachesShift(s, t, i, j + 1);
    }
    if s[0] == EN && OnlyET(t, i - 1) {
      forall k | 0 < k <= i
        ensures s[k] == ET
      {
        assert k < i ==> s[k] == t[k - 1];
      }
      assert ReachesEN(s, i, 0);
    }
  }

  /** The head of a text: EN stands next to it exactly when there is one ahead. */
  lemma ReachesAtHead(s: seq<Cls>, t: seq<Cls>)
    requires s != [] && t == s[1..] && s[0] == ET
    ensures NextToEN(s, 0) <==> ENAhead(t)
  {
    if NextToEN(s, 0) {
      var j :| ReachesEN(s, 0, j);
      assert t[j - 1] == EN;
    }
    if j :| 0 <= j < |t| && t[j] == EN && forall k :: 0 <= k < j ==> t[k] == ET {
      assert s[j + 1] == EN;
      assert ReachesEN(s, 0, j + 1);
    }
  }

  /** When only ET stand up to position i, EN ahead of them is next to it. */
  lemma AheadReaches(t: seq<Cls>, i: int)
    requires 0 <= i < |t| && OnlyET(t, i) && t[i] == ET && ENAhead(t)
    ensures NextToEN(t, i)
  {
    var j :| 0 <= j < |t| && t[j] == EN && forall k :: 0 <= k < j ==> t[k] == ET;
    assert ReachesEN(t, i, j);
  }

  /** W5: ET becomes EN when an EN stands next to it or to the sequence of ET that it belongs to. */
  lemma {:induction false} W5At(after: bool, s: seq<Cls>, i: nat)
    requires i < |s|
    ensures W5(after, s)[i] == if s[i] == ET && ((after && OnlyET(s, i)) || NextToEN(s, i)) then EN else s[i]
    decreases |s|
  {
    hide NextToEN, ENAhead, LeadsToEN;
    var t := s[1..];
    LeadsToENAhead(t);
    if i == 0 {
      if s[0] == ET {
        ReachesAtHead(s, t);
      }
    } else {
      var c := if s[0].ET? && (after || LeadsToEN(t)) then EN else s[0];
      W5At(c.EN?, t, i - 1);
      assert OnlyET(s, i) <==> s[0] == ET && OnlyET(t, i - 1);
      if s[i] == ET {
        ReachesTail(s, t, i);
        if OnlyET(t, i - 1) && ENAhead(t) {
          AheadReaches(t, i - 1);
        }
      }
    }
  }

  /** W6: separators and terminators that are left become neutral. */
  lemma {:induction false} W6At(s: seq<Cls>, i: nat)
    requires i < |s|
    ensures W6(s)[i] == if s[i] == ES || s[i] == CS || s[i] == ET then ON else s[i]
    decreases |s|
  {
    if i > 0 {
      W6At(s[1..], i - 1);
    }
  }

  lemma W7Step(sor: Cls, s: seq<Cls>, i: nat)
    requires i < |s|
    ensures i == 0 ==> W7(sor, s)[i] == if s[0] == EN && sor == L then L else s[0]
    ensures i > 0 ==> W7(sor, s)[i] == W7(if Letter(s[0]) then s[0] else sor, s[1..])[i - 1]
  {}

  /** W7: a European number becomes L when the nearest letter in front is L. */
  lemma {:induction false} W7At(sor: Cls, s: seq<Cls>, i: nat, k: int)
    requires i < |s| && Nearest(Letter, s, i, k)
    ensures W7(sor, s)[i] == if s[i] == EN && (if k == -1 then sor else s[k]) == L then L else s[i]
    decreases |s|
  {
    hide W7;
    W7Step(sor, s, i);
    if i > 0 {
      NearestTail(Letter, s, i, k);
      W7At(if Letter(s[0]) then s[0] else sor, s[1..], i - 1, if k <= 0 then -1 else k - 1);
    }
  }

  predicate Stays(c: Cls) {
    c == L || c == R || c == ON
  }

  lemma {:induction false} W2Keeps(sor: Cls, s: seq<Cls>, i: nat)
    requires i < |s| && s[i] != EN
    ensures W2(sor, s)[i] == s[i]
    decreases |s|
  {
    hide W2;
    W2Step(sor, s, i);
    if i > 0 {
      W2Keeps(if AnyLetter(s[0]) then s[0] else sor, s[1..], i - 1);
    }
  }

  lemma {:induction false} W7Keeps(sor: Cls, s: seq<Cls>, i: nat)
    requires i < |s| && s[i] != EN
    ensures W7(sor, s)[i] == s[i]
    decreases |s|
  {
    hide W7;
    W7Step(sor, s, i);
    if i > 0 {
      W7Keeps(if Letter(s[0]) then s[0] else sor, s[1..], i - 1);
    }
  }

  /** None of the seven rules changes a character that is L, R or neutral. */
  lemma WeakKeeps(sor: Cls, s: seq<Cls>, i: nat)
    requires i < |s| && Stays(s[i])
    ensures WeakRules(sor, s)[i] == s[i]
  {
    hide W1, W2, W3, W4, W5, W6, W7, NextToEN, OnlyET;
    var s1 := W1(sor, s);
    W1At(sor, s, i, i);
    var s2 := W2(sor, s1);
    W2Keeps(sor, s1, i);
    var s3 := W3(s2);
    W3At(s2, i);
    var s4 := W4(ON, s3);
    W4At(ON, s3, i);
    var s5 := W5(false, s4);
    W5At(false, s4, i);
    W6At(s5, i);
    W7Keeps(sor, W6(s5), i);
  }

  // N1 and N2.

  /** What the neutrals see of a character: numbers count as R. */
  function Seen(c: Cls): Cls {
    if c == L then L else R
  }

  /** Position k holds the first character from position i on that is not neutral, the length for none. */
  predicate NextOn(s: seq<Cls>, i: int, k: int) {
    0 <= i <= k <= |s| && (k < |s| ==> s[k] != ON) && forall j :: i <= j < k ==> s[j] == ON
  }

  lemma {:induction false} NextStrongAt(eor: Cls, s: seq<Cls>, k: nat)
    requires NextOn(s, 0, k)
    ensures NextStrong(eor, s) == if k == |s| then eor else Seen(s[k])
    decreases |s|
  {
    if k > 0 {
      NextStrongAt(eor, s[1..], k - 1);
    }
  }

  lemma NeutralUnfold(sor: Cls, eor: Cls, embedding: Cls, s: seq<Cls>, i: nat)
    requires i < |s|
    ensures i == 0 ==> NeutralRules(sor, eor, embedding, s)[i]
                       == if s[0] == ON then Settle(sor, NextStrong(eor, s), embedding) else s[0]
    ensures i > 0 ==> NeutralRules(sor, eor, embedding, s)[i]
                      == NeutralRules(if s[0] == ON then sor else Seen(s[0]), eor, embedding, s[1..])[i - 1]
  {
    hide NextStrong, Settle;
  }

  function Before(sor: Cls, s: seq<Cls>, j: int): Cls
    requires -1 <= j < |s|
  {
    if j == -1 then sor else Seen(s[j])
  }

  function Behind(eor: Cls, s: seq<Cls>, k: int): Cls
    requires 0 <= k <= |s|
  {
    if k == |s| then eor else Seen(s[k])
  }

  /** What a character sees does not depend on where the text begins. */
  lemma SameSides(sor: Cls, eor: Cls, s: seq<Cls>, t: seq<Cls>, i: nat, j: int, j': int, k: int)
    requires 0 < i < |s| && t == s[1..] && Nearest(NotNeutral, s, i, j) && NextOn(s, i, k)
    requires j' == if j <= 0 then -1 else j - 1
    ensures Nearest(NotNeutral, t, i - 1, j') && NextOn(t, i - 1, k - 1)
    ensures Before(if s[0] == ON then sor else Seen(s[0]), t, j') == Before(sor, s, j)
    ensures Behind(eor, t, k - 1) == Behind(eor, s, k)
  {
    NearestTail(NotNeutral, s, i, j);
  }

  lemma FirstSides(sor: Cls, eor: Cls, s: seq<Cls>, j: int, k: int)
    requires s != [] && s[0] == ON && Nearest(NotNeutral, s, 0, j) && NextOn(s, 0, k)
    ensures Before(sor, s, j) == sor && Behind(eor, s, k) == NextStrong(eor, s)
  {
    NextStrongAt(eor, s, k);
  }

  lemma NearestBounds(s: seq<Cls>, i: int, j: int, k: int)
    requires Nearest(NotNeutral, s, i, j) && NextOn(s, i, k)
    ensures -1 <= j < i <= k <= |s|
  {}

  /** N1 and N2: a neutral takes the direction of the text on both sides when that is the same, with sor and
      eor at the ends of the level run, and the embedding direction otherwise. */
  lemma {:induction false} NeutralRulesAt(sor: Cls, eor: Cls, embedding: Cls, s: seq<Cls>, i: nat, j: int, k: int)
    requires i < |s| && Nearest(NotNeutral, s, i, j) && NextOn(s, i, k)
    ensures var before, after := Before(sor, s, j), Behind(eor, s, k);
            NeutralRules(sor, eor, embedding, s)[i]
            == if s[i] != ON then s[i] else if before == after then before else embedding
    decreases |s|
  {
    hide NextStrong, NeutralRules, Nearest, NextOn, Before, Behind;
    NeutralUnfold(sor, eor, embedding, s, i);
    NearestBounds(s, i, j, k);
    if i == 0 {
      if s[0] == ON {
        FirstSides(sor, eor, s, j, k);
      }
    } else {
      var t, j' := s[1..], if j <= 0 then -1 else j - 1;
      SameSides(sor, eor, s, t, i, j, j', k);
      NeutralRulesAt(if s[0] == ON then sor else Seen(s[0]), eor, embedding, t, i - 1, j', k - 1);
    }
  }

  // Level runs.

  /** The positions from a to b are a maximal run of one level. */
  predicate IsRun(lv: seq<int>, a: int, b: int) {
    && 0 <= a < b <= |lv| && (forall i :: a <= i < b ==> lv[i] == lv[a])
    && (a > 0 ==> lv[a - 1] != lv[a]) && (b < |lv| ==> lv[b] != lv[a])
  }

  /** The direction between text of two levels: that of the higher one, R for an odd level. */
  function Between(x: int, y: int): Cls {
    if (if x <= y then y else x) % 2 == 1 then R else L
  }

  function LevelInFront(prev: int, lv: seq<int>, a: int): int
    requires 0 <= a <= |lv|
  {
    if a == 0 then prev else lv[a - 1]
  }

  function LevelBehind(base: int, lv: seq<int>, b: int): int
    requires 0 <= b <= |lv|
  {
    if b == |lv| then base else lv[b]
  }

  lemma FirstRun(lv: seq<int>, b: int)
    requires IsRun(lv, 0, b)
    ensures RunLen(lv[0], lv) == b
  {}

  lemma LaterRun(lv: seq<int>, n: int, a: int, b: int)
    requires IsRun(lv, a, b) && a > 0 && n == RunLen(lv[0], lv)
    ensures 0 < n <= a && IsRun(lv[n..], a - n, b - n)
    ensures a > n ==> lv[n..][a - n - 1] == lv[a - 1]
  {
    var t := lv[n..];
    assert forall i :: 0 <= i < |t| ==> t[i] == lv[n + i];
  }

  lemma SliceOfConcat<T>(h: seq<T>, t: seq<T>, a: int, b: int)
    requires |h| <= a <= b <= |h| + |t|
    ensures (h + t)[a..b] == t[a - |h|..b - |h|]
  {}

  lemma SliceOfSlice<T>(s: seq<T>, n: int, a: int, b: int)
    requires 0 <= n <= a <= b <= |s|
    ensures s[n..][a - n..b - n] == s[a..b]
  {}

  lemma BorderBetween(x: int, y: int)
    ensures Border(x, y) == Between(x, y) && EmbeddingDirection(x) == if x % 2 == 1 then R else L
  {}

  lemma WeakUnfolds(prev: int, s: seq<Cls>, lv: seq<int>, n: int)
    requires |s| == |lv| && s != [] && n == RunLen(lv[0], lv)
    ensures WeakByRuns(prev, s, lv) == WeakRules(Border(prev, lv[0]), s[..n]) + WeakByRuns(lv[0], s[n..], lv[n..])
  {
    hide WeakRules, Border;
  }

  /** W1 to W7 on one of the level runs of a text: sor is R exactly when the higher one of the level of the run
      and the level in front of it is odd. */
  lemma {:induction false} WeakOfRun(prev: int, s: seq<Cls>, lv: seq<int>, a: int, b: int)
    requires |s| == |lv| && IsRun(lv, a, b)
    ensures WeakByRuns(prev, s, lv)[a..b] == WeakRules(Between(LevelInFront(prev, lv, a), lv[a]), s[a..b])
    decreases |s|
  {
    hide WeakRules, WeakByRuns, Border, Between, RunLen;
    var n := RunLen(lv[0], lv);
    WeakUnfolds(prev, s, lv, n);
    BorderBetween(prev, lv[0]);
    var head := WeakRules(Border(prev, lv[0]), s[..n]);
    var tail := WeakByRuns(lv[0], s[n..], lv[n..]);
    if a == 0 {
      FirstRun(lv, b);
      assert (head + tail)[0..b] == head && s[0..b] == s[..b];
    } else {
      LaterRun(lv, n, a, b);
      WeakOfRun(lv[0], s[n..], lv[n..], a - n, b - n);
      SliceOfConcat(head, tail, a, b);
      SliceOfSlice(s, n, a, b);
    }
  }

  lemma NeutralUnfolds(base: int, prev: int, s: seq<Cls>, lv: seq<int>, n: int)
    requires |s| == |lv| && s != [] && n == RunLen(lv[0], lv)
    ensures NeutralByRuns(base, prev, s, lv)
         == NeutralRules(Border(prev, lv[0]), Border(lv[0], LevelAt(base, lv, n)), EmbeddingDirection(lv[0]), s[..n])
            + NeutralByRuns(base, lv[0], s[n..], lv[n..])
  {
    hide NeutralRules, Border, EmbeddingDirection, LevelAt;
  }

  /** N1 and N2 on one of the level runs: sor and eor likewise, and the embedding direction is R exactly for
      an odd level. */
  lemma {:induction false} NeutralOfRun(base: int, prev: int, s: seq<Cls>, lv: seq<int>, a: int, b: int)
    requires |s| == |lv| && IsRun(lv, a, b)
    ensures NeutralByRuns(base, prev, s, lv)[a..b]
         == NeutralRules(Between(LevelInFront(prev, lv, a), lv[a]), Between(lv[a], LevelBehind(base, lv, b)),
                         if lv[a] % 2 == 1 then R else L, s[a..b])
    decreases |s|
  {
    hide NeutralRules, NeutralByRuns, Border, EmbeddingDirection, Between, RunLen;
    var n := RunLen(lv[0], lv);
    var behind := LevelAt(base, lv, n);
    NeutralUnfolds(base, prev, s, lv, n);
    BorderBetween(prev, lv[0]);
    BorderBetween(lv[0], behind);
    var head := NeutralRules(Border(prev, lv[0]), Border(lv[0], behind), EmbeddingDirection(lv[0]), s[..n]);
    var tail := NeutralByRuns(base, lv[0], s[n..], lv[n..]);
    if a == 0 {
      FirstRun(lv, b);
      assert (head + tail)[0..b] == head && s[0..b] == s[..b];
    } else {
      LaterRun(lv, n, a, b);
      NeutralOfRun(base, lv[0], s[n..], lv[n..], a - n, b - n);
      SliceOfConcat(head, tail, a, b);
      SliceOfSlice(s, n, a, b);
    }
  }
}
