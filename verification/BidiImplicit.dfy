/** Implicit levels, rules I1 and I2. */
module BidiImplicit {
  import opened BidiClasses

  /** The classes that have a column in the table. */
  predicate ImplicitInput(c: Cls) {
    c.L? || c.R? || c.AN? || c.EN?
  }

  predicate ImplicitText(s: seq<Cls>) {
    forall i :: 0 <= i < |s| ==> ImplicitInput(s[i]) || s[i].BN?
  }

  /** The table: what is added to an even and to an odd level. */
  function AddLevel(odd: bool, c: Cls): int
    requires ImplicitInput(c)
  {
    match c
    case L => if odd then 1 else 0
    case R => if odd then 0 else 1
    case _ => if odd then 1 else 2
  }

  /** I1 and I2: the least level from the given one on that has the parity of the class, and for
      numbers not the level itself. */
  ghost predicate IsImplicitLevel(level: int, c: Cls, result: int) {
    var fits := (m: int) => m >= level && Odd(m) == c.R? && ((c.AN? || c.EN?) ==> m > level);
    fits(result) && forall m :: fits(m) ==> result <= m
  }

  function Implicit(level: int, c: Cls): (m: int)
    ensures ImplicitInput(c) ==> IsImplicitLevel(level, c, m)
    ensures level <= m <= level + 2 && (Odd(level) ==> m <= level + 1)
  {
    if ImplicitInput(c) then level + AddLevel(Odd(level), c) else level
  }

  /** Rules I1 and I2 on a text; BNs are passed over. */
  function ImplicitLevels(s: seq<Cls>, lv: seq<int>): (r: seq<int>)
    requires |s| == |lv|
    ensures |r| == |lv| && forall i :: 0 <= i < |lv| ==> r[i] == Implicit(lv[i], s[i])
    decreases |s|
  {
    if s == [] then [] else [Implicit(lv[0], s[0])] + ImplicitLevels(s[1..], lv[1..])
  }

  /** The in-place pass. */
  method ResolveImplicit(pcls: array<Cls>, plevel: array<int>)
    requires pcls.Length == plevel.Length && ImplicitText(pcls[..])
    modifies plevel
    ensures plevel[..] == ImplicitLevels(pcls[..], old(plevel[..]))
  {
    for ich := 0 to pcls.Length
      invariant forall j :: 0 <= j < ich ==> plevel[j] == Implicit(old(plevel[j]), pcls[j])
      invariant forall j :: ich <= j < pcls.Length ==> plevel[j] == old(plevel[j])
    {
      // some BNs were resolved to strong types; the others are passed over
      if pcls[ich].BN? {
        continue;
      }
      assert ImplicitInput(pcls[..][ich]);
      plevel[ich] := plevel[ich] + AddLevel(Odd(plevel[ich]), pcls[ich]);
    }
  }
}
