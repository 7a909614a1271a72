/** Level runs, rule X10: after the BNs are removed, the text is cut into maximal runs of one level;
    each run starts and ends with the direction of the higher of the two levels at its border. */
module BidiRuns {
  import opened BidiClasses
  import opened BidiWeakRules

  /** The number of leading characters at the given level. */
  function RunLen(level: int, lv: seq<int>): (n: nat)
    ensures n <= |lv|
    ensures forall i :: 0 <= i < n ==> lv[i] == level
    ensures n < |lv| ==> lv[n] != level
    decreases |lv|
  {
    if lv == [] || lv[0] != level then 0 else 1 + RunLen(level, lv[1..])
  }

  /** The direction at the border of two levels. */
  function Border(level: int, level': int): Cls {
    EmbeddingDirection(Max(level, level'))
  }

  /** W1 to W7 on every level run of a BN-free text; prev is the level in front of it. */
  function WeakByRuns(prev: int, s: seq<Cls>, lv: seq<int>): (t: seq<Cls>)
    requires |s| == |lv|
    ensures |t| == |s|
    decreases |s|
  {
    if s == [] then [] else
      var n := RunLen(lv[0], lv);
      WeakRules(Border(prev, lv[0]), s[..n]) + WeakByRuns(lv[0], s[n..], lv[n..])
  }

  /** The level changes only behind a BN: between ordinary characters that follow each other there
      is none, and an ordinary first character has the given level. */
  predicate Levelled(level: int, s: seq<Cls>, lv: seq<int>)
    requires |s| == |lv|
    decreases |s|
  {
    s == [] ||
    if s[0].BN? then
      Levelled(if |s| > 1 && !s[1].BN? then lv[1] else level, s[1..], lv[1..])
    else
      lv[0] == level && Levelled(level, s[1..], lv[1..])
  }
}
