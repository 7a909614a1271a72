/** The module loader: pairwise linking of the modules that are loaded. */
module Linker {
  import opened CStrings

  /** An import slot: the name of the function, an ordinal, or the address that it is bound to. */
  datatype Slot = ByName(name: string) | ByOrdinal(ordinal: int) | Bound(address: int)

  /** The export directory: names with their indices into the addresses, relative to the base of the
      module.  The indices are biased when they are read. */
  datatype Exports = Exports(names: seq<string>, ordinals: seq<int>, functions: seq<int>, bias: int)
  {
    predicate Valid() {
      && |names| == |ordinals| == |functions|
      && (forall n :: 0 <= n < |names| ==> IsCString(names[n]))
      && 0 <= bias
      && (forall n :: 0 <= n < |ordinals| ==> 0 <= ordinals[n] < |functions| && ordinals[n] + bias < 0x1_0000)
      && (forall n :: 0 <= n < |functions| ==> functions[n] >= 0)
    }
  }

  class Module {
    const name: string
    const base: int
    const machine: int
    const exports: Exports
    /** For every import descriptor the name of the other module and the slots as they are in the file. */
    const imports: seq<string>
    const thunks: seq<seq<Slot>>
    var slots: seq<seq<Slot>>

    ghost predicate Valid() {
      && IsCString(name) && base > 0 && exports.Valid() && |imports| == |thunks|
      && (forall d :: 0 <= d < |imports| ==> IsCString(imports[d]))
      && (forall d, x :: 0 <= d < |thunks| && 0 <= x < |thunks[d]| ==>
            thunks[d][x].ByOrdinal? || (thunks[d][x].ByName? && IsCString(thunks[d][x].name)))
    }

    constructor (name: string, base: int, machine: int, exports: Exports, imports: seq<string>, thunks: seq<seq<Slot>>)
      ensures this.name == name && this.base == base && this.machine == machine && this.exports == exports
      ensures this.imports == imports && this.thunks == thunks && slots == thunks
    {
      this.name, this.base, this.machine, this.exports := name, base, machine, exports;
      this.imports, this.thunks, slots := imports, thunks, thunks;
    }

    /** The address of an export, 0 when there is none of that name. */
    function Export(f: string): int
      requires exports.Valid()
    {
      ExportFrom(f, 0)
    }

    function ExportFrom(f: string, n: nat): (a: int)
      requires exports.Valid() && n <= |exports.names|
      ensures base > 0 && a == 0 ==> forall k :: n <= k < |exports.names| ==> exports.names[k] != f
      ensures a != 0 ==> exists k :: n <= k < |exports.names| && exports.names[k] == f
                                     && a == base + exports.functions[exports.ordinals[k]]
                                     && forall j :: n <= j < k ==> exports.names[j] != f
      decreases |exports.names| - n
    {
      if n == |exports.names| then 0
      else if exports.names[n] == f then base + exports.functions[exports.ordinals[n]]
      else ExportFrom(f, n + 1)
    }

    method GetProcAddress(f: string) returns (a: int)
      requires Valid() && IsCString(f)
      ensures a == Export(f)
    {
      if |exports.names| == 0 {
        return 0;
      }
      for n := 0 to |exports.functions|
        invariant Export(f) == ExportFrom(f, n)
      {
        var c := StrCmp(exports.names[n], f);
        if c == 0 {
          var ordinal := (exports.ordinals[n] + exports.bias) % 0x1_0000;
          return exports.functions[ordinal - exports.bias] + base;
        }
      }
      return 0;
    }
  }

  /** What linking with dll makes of a slot. */
  function BindSlot(s: Slot, dll: Module): Slot
    requires dll.exports.Valid()
  {
    if s.ByName? then Bound(dll.Export(s.name)) else s
  }

  function BindAll(t: seq<Slot>, dll: Module): (r: seq<Slot>)
    requires dll.exports.Valid()
    ensures |r| == |t| && forall x :: 0 <= x < |t| ==> r[x] == BindSlot(t[x], dll)
  {
    seq(|t|, x requires 0 <= x < |t| => BindSlot(t[x], dll))
  }

  /** All slots of the descriptor are by name and are exports of dll. */
  predicate CanBind(t: seq<Slot>, dll: Module)
    requires dll.exports.Valid()
  {
    forall x :: 0 <= x < |t| ==> t[x].ByName? && dll.Export(t[x].name) != 0
  }

  /** Linking exe with dll succeeds. */
  ghost predicate CanLink(exe: Module, dll: Module) {
    && exe.Valid() && dll.Valid() && dll.machine == exe.machine
    && forall d :: 0 <= d < |exe.imports| && SameName(exe.imports[d], dll.name) ==> CanBind(exe.thunks[d], dll)
  }

  /** Two modules can be linked exactly when they are for one machine and every slot of every descriptor that
      names dll, small letters or capitals, is by a name that dll exports. */
  lemma CanLinkExactly(exe: Module, dll: Module)
    requires exe.Valid() && dll.Valid()
    ensures CanLink(exe, dll)
       <==> dll.machine == exe.machine
            && forall d, x :: 0 <= d < |exe.imports| && SameName(exe.imports[d], dll.name)
                              && 0 <= x < |exe.thunks[d]| ==>
                 exe.thunks[d][x].ByName? && exe.thunks[d][x].name in dll.exports.names
  {
    hide SameName;
    forall f
      ensures dll.Export(f) != 0 <==> f in dll.exports.names
    {}
  }

  /** The slots of exe after linking with dll: those that name it are bound, the others are as they were. */
  ghost predicate LinkedWith(exe: Module, dll: Module, before: seq<seq<Slot>>, after: seq<seq<Slot>>)
    requires dll.exports.Valid() && |exe.imports| == |exe.thunks|
  {
    && |before| == |after| == |exe.imports|
    && forall d :: 0 <= d < |exe.imports| ==>
         after[d] == if SameName(exe.imports[d], dll.name) then BindAll(exe.thunks[d], dll) else before[d]
  }

  /** Binds the slots of descriptor n, which are as in the file. */
  method BindThunks(exe: Module, dll: Module, n: nat) returns (ok: bool)
    requires exe.Valid() && dll.Valid() && exe != dll && n < |exe.imports| == |exe.slots|
             && exe.slots[n] == exe.thunks[n]
    modifies exe`slots
    ensures ok <==> CanBind(exe.thunks[n], dll)
    ensures |exe.slots| == |exe.imports| && (ok ==> exe.slots == old(exe.slots)[n := BindAll(exe.thunks[n], dll)])
  {
    ghost var t := exe.thunks[n];
    for x := 0 to |exe.slots[n]|
      invariant |exe.slots| == |exe.imports| && |exe.slots[n]| == |t|
      invariant forall d :: 0 <= d < |exe.slots| && d != n ==> exe.slots[d] == old(exe.slots[d])
      invariant forall y :: 0 <= y < x ==> exe.slots[n][y] == BindSlot(t[y], dll)
      invariant forall y :: x <= y < |t| ==> exe.slots[n][y] == t[y]
      invariant forall y :: 0 <= y < x ==> t[y].ByName? && dll.Export(t[y].name) != 0
    {
      var slot := exe.slots[n][x];
      if slot.ByOrdinal? {
        return false;
      }
      var exported := dll.GetProcAddress(slot.name);
      if exported == 0 {
        return false;
      }
      exe.slots := exe.slots[n := exe.slots[n][x := Bound(exported)]];
    }
    assert exe.slots[n] == BindAll(t, dll);
    return true;
  }

  /** Binds the imports of exe from dll.  The descriptors that name dll have not been bound before. */
  method LinkSymbols(exe: Module, dll: Module) returns (ok: bool)
    requires exe.Valid() && dll.Valid() && exe != dll && |exe.slots| == |exe.imports|
    requires forall d :: 0 <= d < |exe.imports| && SameName(exe.imports[d], dll.name) ==> exe.slots[d] == exe.thunks[d]
    modifies exe`slots
    ensures ok <==> CanLink(exe, dll)
    ensures ok ==> LinkedWith(exe, dll, old(exe.slots), exe.slots)
  {
    if dll.machine != exe.machine {
      return false;
    }
    if |exe.imports| == 0 {
      return true;
    }
    for n := 0 to |exe.imports|
      invariant |exe.slots| == |exe.imports|
      invariant forall d :: 0 <= d < n && SameName(exe.imports[d], dll.name) ==>
                  CanBind(exe.thunks[d], dll) && exe.slots[d] == BindAll(exe.thunks[d], dll)
      invariant forall d :: 0 <= d < n && !SameName(exe.imports[d], dll.name) ==> exe.slots[d] == old(exe.slots[d])
      invariant forall d :: n <= d < |exe.imports| ==> exe.slots[d] == old(exe.slots[d])
    {
      var c := StrCaseCmp(exe.imports[n], dll.name);
      if c == 0 {
        ok := BindThunks(exe, dll, n);
        if !ok {
          return;
        }
      }
    }
    return true;
  }

  // The list of modules.

  /** These slots of x are bound from the modules of the list that its descriptors name, other than itself,
      and are as in the file for all other descriptors. */
  ghost predicate BoundFrom(x: Module, mods: seq<Module>, slots: seq<seq<Slot>>) {
    && x.Valid() && (forall y :: y in mods ==> y.Valid()) && |slots| == |x.imports|
    && (forall d, y :: 0 <= d < |x.imports| && y in mods && y != x && SameName(x.imports[d], y.name) ==>
          CanBind(x.thunks[d], y) && slots[d] == BindAll(x.thunks[d], y))
    && (forall d :: 0 <= d < |x.imports| && (forall y :: y in mods && y != x ==> !SameName(x.imports[d], y.name)) ==>
          slots[d] == x.thunks[d])
  }

  ghost predicate LinkedTo(x: Module, mods: seq<Module>)
    reads x
  {
    BoundFrom(x, mods, x.slots)
  }

  /** The names are different even without regard to case, and so are the modules. */
  predicate Distinct(mods: seq<Module>) {
    forall i, j :: 0 <= i < j < |mods| ==> mods[i] != mods[j] && !SameName(mods[i].name, mods[j].name)
  }

  lemma LinkedMore(x: Module, mods: seq<Module>, y: Module, before: seq<seq<Slot>>, after: seq<seq<Slot>>)
    requires BoundFrom(x, mods, before) && y.Valid() && y != x && forall z :: z in mods ==> !SameName(z.name, y.name)
    requires CanLink(x, y) && LinkedWith(x, y, before, after)
    ensures BoundFrom(x, mods + [y], after)
  {
    forall d | 0 <= d < |x.imports| && (forall z :: z in mods + [y] && z != x ==> !SameName(x.imports[d], z.name))
      ensures after[d] == x.thunks[d]
    {
      assert y in mods + [y];
      forall z | z in mods && z != x
        ensures !SameName(x.imports[d], z.name)
      {
        assert z in mods + [y];
      }
    }
  }

  /** Links x with y when x is linked to the others. */
  method LinkNext(x: Module, ghost mods: seq<Module>, y: Module) returns (ok: bool)
    requires x.Valid() && y.Valid() && x != y && forall z :: z in mods ==> z.Valid()
    requires LinkedTo(x, mods) && forall z :: z in mods ==> !SameName(z.name, y.name)
    modifies x`slots
    ensures ok <==> CanLink(x, y)
    ensures ok ==> LinkedTo(x, mods + [y])
  {
    ghost var before := x.slots;
    forall d | 0 <= d < |x.imports| && SameName(x.imports[d], y.name)
      ensures x.slots[d] == x.thunks[d]
    {
      assert forall z :: z in mods ==> !SameName(x.imports[d], z.name);
    }
    ok := LinkSymbols(x, y);
    if ok {
      LinkedMore(x, mods, y, before, x.slots);
    }
  }

  /** Which links have been made when m is linked with the first i modules of the list. */
  ghost predicate Counts(links: multiset<(Module, Module)>, all: seq<Module>, m: Module, i: int) {
    && 0 <= i <= |all|
    && (forall p :: p in links ==> p.0 in all + [m] && p.1 in all + [m])
    && (forall x, y :: x in all && y in all ==> links[(x, y)] == if x == y then 0 else 1)
    && (forall j :: 0 <= j < |all| ==> links[(all[j], m)] == links[(m, all[j])] == if j < i then 1 else 0)
    && links[(m, m)] == 0
  }

  /** Every ordered pair of different modules has been linked once, and no other. */
  ghost predicate AllPairs(links: multiset<(Module, Module)>, all: seq<Module>) {
    && (forall x, y :: x in all && y in all ==> links[(x, y)] == if x == y then 0 else 1)
    && (forall p :: p in links ==> p.0 in all && p.1 in all)
  }

  lemma CountsStart(links: multiset<(Module, Module)>, all: seq<Module>, m: Module)
    requires AllPairs(links, all) && m !in all
    ensures Counts(links, all, m, 0)
  {
    assert (m, m) in links ==> m in all;
    forall j | 0 <= j < |all|
      ensures (all[j], m) !in links && (m, all[j]) !in links
    {
      assert (all[j], m) in links ==> m in all;
      assert (m, all[j]) in links ==> m in all;
    }
  }

  lemma CountsStep(links: multiset<(Module, Module)>, all: seq<Module>, m: Module, i: int)
    requires Counts(links, all, m, i) && i < |all| && m !in all && Distinct(all)
    ensures Counts(links + multiset{(m, all[i]), (all[i], m)}, all, m, i + 1)
  {
    var links' := links + multiset{(m, all[i]), (all[i], m)};
    assert all[i] in all + [m] && m in all + [m];
    forall p | p in links'
      ensures p.0 in all + [m] && p.1 in all + [m]
    {
      assert p in links || p == (m, all[i]) || p == (all[i], m);
    }
  }

  lemma CountsDone(links: multiset<(Module, Module)>, all: seq<Module>, m: Module)
    requires Counts(links, all, m, |all|) && m !in all
    ensures AllPairs(links, all + [m])
  {
    forall x, y | x in all + [m] && y in all + [m]
      ensures links[(x, y)] == if x == y then 0 else 1
    {
      if x in all && y !in all {
        var j :| 0 <= j < |all| && all[j] == x;
        assert links[(all[j], m)] == 1;
      } else if x !in all && y in all {
        var j :| 0 <= j < |all| && all[j] == y;
        assert links[(m, all[j])] == 1;
      }
    }
  }

  /** m is linked with the first i modules of the list, and they with it. */
  ghost predicate Progress(all: seq<Module>, m: Module, i: int)
    reads m, all
  {
    && 0 <= i <= |all| && LinkedTo(m, all[..i])
    && (forall j :: 0 <= j < i ==> LinkedTo(all[j], all + [m]))
    && (forall j :: i <= j < |all| ==> LinkedTo(all[j], all))
  }

  /** Links m with the module at position i, and that with m. */
  method LinkPair(all: seq<Module>, m: Module, i: nat, e: Module) returns (ok: bool)
    requires Progress(all, m, i) && i < |all| && e == all[i]
    requires Distinct(all) && m !in all && forall e :: e in all ==> !SameName(e.name, m.name)
    modifies m`slots, e`slots
    ensures ok <==> CanLink(m, e) && CanLink(e, m)
    ensures ok ==> Progress(all, m, i + 1)
  {
    ok := LinkNext(m, all[..i], e);
    if !ok {
      return;
    }
    ok := LinkNext(e, all, m);
    assert all[..i] + [all[i]] == all[..i + 1];
  }

  /** m and the first i modules of the list can be linked with each other. */
  ghost predicate Fit(all: seq<Module>, m: Module, i: int) {
    0 <= i <= |all| && forall j :: 0 <= j < i ==> CanLink(m, all[j]) && CanLink(all[j], m)
  }

  lemma ProgressStart(all: seq<Module>, m: Module)
    requires m.Valid() && m.slots == m.thunks && forall x :: x in all ==> LinkedTo(x, all)
    ensures Progress(all, m, 0)
  {
    assert all[..0] == [];
  }

  /** A module on the list is not linked with itself. */
  lemma LinkedSelf(m: Module, all: seq<Module>)
    requires m !in all && LinkedTo(m, all)
    ensures LinkedTo(m, all + [m])
  {
    forall d | 0 <= d < |m.imports| && (forall y :: y in all + [m] && y != m ==> !SameName(m.imports[d], y.name))
      ensures m.slots[d] == m.thunks[d]
    {
      forall y | y in all && y != m
        ensures !SameName(m.imports[d], y.name)
      {
        assert y in all + [m];
      }
    }
  }

  lemma ProgressDone(all: seq<Module>, m: Module)
    requires Progress(all, m, |all|) && m !in all && Distinct(all) && forall e :: e in all ==> !SameName(e.name, m.name)
    ensures Distinct(all + [m]) && forall x :: x in all + [m] ==> LinkedTo(x, all + [m])
  {
    assert all[..|all|] == all;
    LinkedSelf(m, all);
  }

  class Loader {
    /** The modules in the order of loading; the first is the kernel. */
    var entries: seq<Module>
    /** The links made so far: the importing and the exporting module. */
    ghost var links: multiset<(Module, Module)>

    ghost predicate Valid()
      reads this, entries
    {
      && Distinct(entries) && AllPairs(links, entries)
      && (forall x :: x in entries ==> LinkedTo(x, entries))
    }

    constructor (kernel: Module)
      requires kernel.Valid() && kernel.slots == kernel.thunks
      ensures Valid() && entries == [kernel]
    {
      entries := [kernel];
      links := multiset{};
    }

    /** The links of m and the module at position i. */
    method LinkStep(m: Module, i: nat, e: Module) returns (ok: bool)
      requires i < |entries| && e == entries[i] && Distinct(entries) && m !in entries
      requires Counts(links, entries, m, i) && Progress(entries, m, i) && Fit(entries, m, i)
      requires forall e :: e in entries ==> !SameName(e.name, m.name)
      modifies this`links, m`slots, e`slots
      ensures !ok ==> !(CanLink(m, e) && CanLink(e, m))
      ensures ok ==> Counts(links, entries, m, i + 1) && Progress(entries, m, i + 1) && Fit(entries, m, i + 1)
    {
      hide CanLink, Counts, Progress, Distinct, SameName;
      ok := LinkPair(entries, m, i, e);
      CountsStep(links, entries, m, i);
      if ok {
        links := links + multiset{(m, e), (e, m)};
      }
    }

    /** Loads a module: links it with every module on the list, and every module with it, and appends it.
        When a link fails, the system stops. */
    method LoadModule(m: Module) returns (ok: bool)
      requires Valid() && m.Valid() && m !in entries && m.slots == m.thunks
      requires forall e :: e in entries ==> !SameName(e.name, m.name)
      modifies this, m`slots, entries
      ensures ok <==> forall e :: e in old(entries) ==> CanLink(m, e) && CanLink(e, m)
      ensures ok ==> Valid() && entries == old(entries) + [m]
    {
      hide CanLink, Counts, Progress, LinkedTo, AllPairs, Distinct, SameName;
      ghost var all := entries;
      var i := 0;
      CountsStart(links, all, m);
      ProgressStart(all, m);
      while i < |entries|
        invariant 0 <= i <= |entries| && entries == all
        invariant Counts(links, all, m, i) && Progress(all, m, i) && Fit(all, m, i)
      {
        assert entries[i] in old(entries);
        ok := LinkStep(m, i, entries[i]);
        if !ok {
          return;
        }
        i := i + 1;
      }
      CountsDone(links, all, m);
      ProgressDone(all, m);
      entries := entries + [m];
      ok := true;
    }
  }

  /** A slot of a loaded module holds an address exactly when the module that its descriptor names is loaded,
      and that is the address of the export of its name; otherwise it still refers to the name. */
  lemma SlotResolved(loader: Loader, x: Module, d: nat, k: nat)
    requires loader.Valid() && x in loader.entries && d < |x.imports| && k < |x.thunks[d]|
    requires x.thunks[d][k].ByName?
    ensures |x.slots| == |x.imports| && |x.slots[d]| == |x.thunks[d]|
    ensures x.slots[d][k].Bound? <==> exists y :: y in loader.entries && y != x && SameName(x.imports[d], y.name)
    ensures x.slots[d][k].Bound? ==> exists y :: y in loader.entries && y != x && SameName(x.imports[d], y.name)
                                                 && x.slots[d][k].address == y.Export(x.thunks[d][k].name) != 0
    ensures !x.slots[d][k].Bound? ==> x.slots[d][k] == x.thunks[d][k]
  {
    assert LinkedTo(x, loader.entries);
    if y :| y in loader.entries && y != x && SameName(x.imports[d], y.name) {
      assert CanBind(x.thunks[d], y) && x.slots[d] == BindAll(x.thunks[d], y);
    }
  }
}
