/** Rules N1 and N2 of the bidirectional algorithm on the level runs of a BN-free text. */
module BidiNeutralRules {
  import opened BidiClasses
  import opened BidiRuns

  /** The direction N1 sees in a class that is not neutral: European and Arabic numbers count as R. */
  function Direction(c: Cls): Cls {
    if c.L? then L else R
  }

  /** The direction of the first character that is not neutral; eor when there is none. */
  function NextStrong(eor: Cls, s: seq<Cls>): Cls
    decreases |s|
  {
    if s == [] then eor else if s[0].ON? then NextStrong(eor, s[1..]) else Direction(s[0])
  }

  /** N1: neutrals take the direction of the text around them if it is the same on both sides;
      N2: otherwise the embedding direction. */
  function Settle(before: Cls, after: Cls, embedding: Cls): Cls {
    if before == after then before else embedding
  }

  /** N1 and N2 on a level run, given the direction in front of it (sor) and behind it (eor). */
  function NeutralRules(before: Cls, eor: Cls, embedding: Cls, s: seq<Cls>): (t: seq<Cls>)
    ensures |t| == |s|
    decreases |s|
  {
    if s == [] then []
    else if s[0].ON? then
      [Settle(before, NextStrong(eor, s), embedding)] + NeutralRules(before, eor, embedding, s[1..])
    else
      [s[0]] + NeutralRules(Direction(s[0]), eor, embedding, s[1..])
  }

  /** The level behind a level run that ends at n: the next character's, the base level at the end. */
  function LevelAt(base: int, lv: seq<int>, n: nat): int
    requires n <= |lv|
  {
    if n < |lv| then lv[n] else base
  }

  /** N1 and N2 on every level run of a BN-free text; prev is the level in front of it. */
  function NeutralByRuns(base: int, prev: int, s: seq<Cls>, lv: seq<int>): (t: seq<Cls>)
    requires |s| == |lv|
    ensures |t| == |s|
    decreases |s|
  {
    if s == [] then [] else
      var n := RunLen(lv[0], lv);
      NeutralRules(Border(prev, lv[0]), Border(lv[0], LevelAt(base, lv, n)), EmbeddingDirection(lv[0]), s[..n])
      + NeutralByRuns(base, lv[0], s[n..], lv[n..])
  }

  /** N1 and N2 leave no neutral: every other class is kept, every neutral becomes L or R. */
  lemma {:induction false} NeutralRulesSettle(before: Cls, eor: Cls, embedding: Cls, s: seq<Cls>)
    requires (before.L? || before.R?) && (embedding.L? || embedding.R?)
    ensures forall i :: 0 <= i < |s| ==>
              var c := NeutralRules(before, eor, embedding, s)[i];
              if s[i].ON? then c.L? || c.R? else c == s[i]
    decreases |s|
  {
    if s != [] {
      NeutralRulesSettle(if s[0].ON? then before else Direction(s[0]), eor, embedding, s[1..]);
    }
  }
}
