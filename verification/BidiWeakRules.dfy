/** Rules W1 to W7 of the bidirectional algorithm, one function per rule, each applied to a whole
    level run after the one before it.  A rule that looks backwards carries what it looks for. */
module BidiWeakRules {
  import opened BidiClasses

  /** W1: a nonspacing mark takes the class of the character before it, sor at the start. */
  function W1(prev: Cls, s: seq<Cls>): (t: seq<Cls>)
    ensures |t| == |s|
    decreases |s|
  {
    if s == [] then [] else
      var c := if s[0].NSM? then prev else s[0];
      [c] + W1(c, s[1..])
  }

  predicate IsStrong(c: Cls) {
    c.L? || c.R? || c.AL?
  }

  /** W2: a European number whose nearest strong character backwards is AL becomes AN. */
  function W2(strong: Cls, s: seq<Cls>): (t: seq<Cls>)
    ensures |t| == |s|
    decreases |s|
  {
    if s == [] then [] else
      [if s[0].EN? && strong.AL? then AN else s[0]]
      + W2(if IsStrong(s[0]) then s[0] else strong, s[1..])
  }

  /** W3: AL becomes R. */
  function W3(s: seq<Cls>): (t: seq<Cls>)
    ensures |t| == |s|
    decreases |s|
  {
    if s == [] then [] else [if s[0].AL? then R else s[0]] + W3(s[1..])
  }

  /** W4: a single ES between two EN becomes EN; a single CS between two numbers of the same class
      becomes that class. */
  function W4(prev: Cls, s: seq<Cls>): (t: seq<Cls>)
    ensures |t| == |s|
    decreases |s|
  {
    if s == [] then [] else
      [if 1 < |s| && prev == s[1] && ((s[0].ES? && prev.EN?) || (s[0].CS? && (prev.EN? || prev.AN?)))
       then prev else s[0]]
      + W4(s[0], s[1..])
  }

  /** The text begins with EN, or with a sequence of ET that EN follows. */
  predicate LeadsToEN(s: seq<Cls>)
    decreases |s|
  {
    s != [] && (s[0].EN? || (s[0].ET? && LeadsToEN(s[1..])))
  }

  /** W5: a sequence of ET next to EN, on either side, becomes EN.  The flag says that the character
      before is EN, or an ET that has become one. */
  function W5(afterEN: bool, s: seq<Cls>): (t: seq<Cls>)
    ensures |t| == |s|
    decreases |s|
  {
    if s == [] then [] else
      var c := if s[0].ET? && (afterEN || LeadsToEN(s[1..])) then EN else s[0];
      [c] + W5(c.EN?, s[1..])
  }

  /** W6: remaining separators and terminators become ON. */
  function W6(s: seq<Cls>): (t: seq<Cls>)
    ensures |t| == |s|
    decreases |s|
  {
    if s == [] then [] else
      [if s[0].ES? || s[0].CS? || s[0].ET? then ON else s[0]] + W6(s[1..])
  }

  /** W7: a European number whose nearest strong character backwards is L becomes L. */
  function W7(strong: Cls, s: seq<Cls>): (t: seq<Cls>)
    ensures |t| == |s|
    decreases |s|
  {
    if s == [] then [] else
      [if s[0].EN? && strong.L? then L else s[0]]
      + W7(if s[0].L? || s[0].R? then s[0] else strong, s[1..])
  }

  /** W1 to W7 in order on one level run that starts with the direction sor. */
  function WeakRules(sor: Cls, s: seq<Cls>): (t: seq<Cls>)
    ensures |t| == |s|
  {
    W7(sor, W6(W5(false, W4(ON, W3(W2(sor, W1(sor, s)))))))
  }
}
