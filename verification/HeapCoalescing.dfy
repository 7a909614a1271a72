/** A block that is given back and its free neighbours become one block. */
module HeapCoalescing {
  import opened HeapTags
  import opened HeapSteps
  import opened HeapBlocks

  ghost predicate LeftFree(h: Heap, a: int)
    requires a in h.tags
  {
    h.tags[a].splitLeft in h.tags && h.tags[h.tags[a].splitLeft].Free()
  }

  ghost predicate RightFree(h: Heap, a: int)
    requires a in h.tags
  {
    h.tags[a].splitRight in h.tags && h.tags[h.tags[a].splitRight].Free()
  }

  /** The used block a, apart from its size in good order. */
  ghost predicate AtWork(l: Layout, h: Heap, a: int) {
    ValidBut(l, h, {a}) && a in h.tags && !h.tags[a].Free()
  }

  /** What no merge changes. */
  ghost predicate SameElse(h: Heap, h': Heap) {
    h'.regions == h.regions && h'.complete == h.complete && h'.stamp == h.stamp && h'.clock == h.clock
  }

  lemma ValidWeakens(l: Layout, h: Heap, hot: set<int>, a: int)
    requires ValidBut(l, h, hot)
    ensures ValidBut(l, h, hot + {a})
  {
    forall x | x in h.tags && x !in hot + {a}
      ensures Fitting(l, h, x)
    {
      assert x !in hot;
    }
  }

  lemma TakenOffSame(l: Layout, h: Heap, a: int)
    requires Tiled(l, h) && CanRemove(h, a) && Listed(h, a) && |h.complete| == MAXEXP && !h.tags[a].Whole()
    ensures TakenOff(h, a) == Removed(h, a) && SameElse(h, Removed(h, a))
  {}

  lemma MergedSame(l: Layout, h: Heap, x: int, y: int)
    requires CanMerge(l, h, x, y) && x != y && (h.tags[y].splitRight != NULL ==> h.tags[y].splitRight in h.tags)
    ensures SameElse(h, Merged(h, x, y))
    ensures var h' := Merged(h, x, y);
            && h'.tags.Keys == h.tags.Keys - {y} && !h'.tags[x].Free()
            && h'.tags[x].splitLeft == h.tags[x].splitLeft && h'.tags[x].splitRight == h.tags[y].splitRight
            && h'.tags[x].realSize == h.tags[x].realSize + h.tags[y].realSize && h'.tags[x].size == h.tags[x].size
    ensures forall a :: a in h.tags && a != y ==> Merged(h, x, y).tags[a].index == h.tags[a].index
  {
    hide Merged;
    MergedTag(l, h, x, y, x);
    CanMergeLinked(l, h, x, y);
    forall a | a in h.tags && a != y
      ensures Merged(h, x, y).tags[a].index == h.tags[a].index
    {
      MergedTag(l, h, x, y, a);
    }
  }

  /** Block y is used and its neighbour x in front of it free, or the other way round. */
  ghost predicate Meltable(h: Heap, x: int, y: int, free: int) {
    && x in h.tags && y in h.tags && h.tags[x].splitRight == y
    && (free == x || free == y) && h.tags[x].Free() != h.tags[y].Free()
    && h.tags[free].Free()
  }

  /** The free one of the two leaves its list, and they become one. */
  ghost predicate CanMelt(l: Layout, h: Heap, x: int, y: int, free: int) {
    && x < y && Meltable(h, x, y, free) && CanRemove(h, free) && Listed(h, free) && |h.complete| == MAXEXP
    && CanMerge(l, TakenOff(h, free), x, y)
    && TakenOff(h, free) == Removed(h, free) && SameElse(h, Removed(h, free))
    && (TakenOff(h, free).tags[y].splitRight != NULL ==> TakenOff(h, free).tags[y].splitRight in TakenOff(h, free).tags)
  }

  function Melted(h: Heap, x: int, y: int, free: int): Heap
    requires free in h.tags && 0 <= h.tags[free].index < |h.free| == |h.complete|
    requires h.tags[free].prev != NULL ==> h.tags[free].prev in h.tags
    requires h.tags[free].next != NULL ==> h.tags[free].next in h.tags
    requires x in h.tags && y in h.tags && x != y
    requires TakenOff(h, free).tags[y].splitRight != NULL ==>
               TakenOff(h, free).tags[y].splitRight in TakenOff(h, free).tags
  {
    Merged(TakenOff(h, free), x, y)
  }

  ghost predicate IsMelted(l: Layout, h: Heap, h': Heap, x: int, y: int, free: int) {
    CanMelt(l, h, x, y, free) && h' == Melted(h, x, y, free)
  }

  lemma MeltReady(l: Layout, h: Heap, hot: set<int>, x: int, y: int, free: int)
    requires ValidBut(l, h, hot) && Meltable(h, x, y, free) && y != NULL
    ensures CanMelt(l, h, x, y, free) && Linked(l, h, x) && Linked(l, h, y) && y == x + h.tags[x].realSize
  {
    hide Removed, Counted;
    assert Linked(l, h, x) && Linked(l, h, y);
    CanRemoveListed(h, free);
    RemovedTiled(l, h, free);
    RemovedLists(h, free);
    TakenOffSame(l, h, free);
    RemovedTag(h, free, x);
    RemovedTag(h, free, y);
    CanMergeLinked(l, Removed(h, free), x, y);
  }

  lemma MeltedKeeps(l: Layout, h: Heap, x: int, y: int, free: int)
    requires CanMelt(l, h, x, y, free) && ValidBut(l, h, {x + y - free})
    ensures x != y && ValidBut(l, Melted(h, x, y, free), {x}) && SameElse(h, Melted(h, x, y, free))
  {
    hide Removed, TakenOff, Merged, View, CanMerge;
    TakenOffKeeps(l, h, {x + y - free}, free);
    MergedKeeps(l, TakenOff(h, free), {x + y - free} + {free}, x, y);
    assert (({x + y - free} + {free}) - {y}) + {x} == {x};
    MergedSame(l, TakenOff(h, free), x, y);
  }

  lemma MeltedView(l: Layout, h: Heap, x: int, y: int, free: int)
    requires CanMelt(l, h, x, y, free)
    ensures View(Melted(h, x, y, free))
         == (View(h) - {y})[x := Used(h.tags[x].size, h.tags[x].realSize + h.tags[y].realSize)]
    ensures x in Melted(h, x, y, free).tags
            && Melted(h, x, y, free).tags[x].realSize == h.tags[x].realSize + h.tags[y].realSize
    ensures Melted(h, x, y, free).tags[x].splitLeft == h.tags[x].splitLeft
    ensures Melted(h, x, y, free).tags[x].splitRight == h.tags[y].splitRight
  {
    hide Removed, Merged, CanMerge;
    TakenOffView(h, free);
    RemovedTag(h, free, x);
    RemovedTag(h, free, y);
    MergedView(l, TakenOff(h, free), x, y);
    MergedSame(l, TakenOff(h, free), x, y);
  }

  lemma MeltedHome(l: Layout, h: Heap, x: int, y: int, free: int)
    requires CanMelt(l, h, x, y, free) && x in h.home
    ensures x in Melted(h, x, y, free).home && Melted(h, x, y, free).home[x] == h.home[x]
  {
    hide Removed, Merged, CanMerge;
    RemovedTag(h, free, x);
    MergedTag(l, TakenOff(h, free), x, y, x);
  }

  lemma NeighboursAfterLeft(l: Layout, h: Heap, a: int)
    requires AtWork(l, h, a) && LeftFree(h, a)
    requires var x := h.tags[a].splitLeft;
             CanMelt(l, h, x, a, x)
    ensures var x := h.tags[a].splitLeft;
            var h' := Melted(h, x, a, x);
            !LeftFree(h', x) && RightFree(h', x) == RightFree(h, a)
  {
    hide Removed, Merged;
    var x := h.tags[a].splitLeft;
    var r := TakenOff(h, x);
    var left, right := h.tags[x].splitLeft, h.tags[a].splitRight;
    assert Linked(l, h, a) && Linked(l, h, x);
    TakenOffSame(l, h, x);
    RemovedTag(h, x, a);
    RemovedTag(h, x, x);
    MergedSame(l, r, x, a);
    if left in h.tags {
      assert Alone(h, left) && Linked(l, h, left);
      RemovedTag(h, x, left);
    }
    if right in h.tags {
      assert Linked(l, h, right);
      RemovedTag(h, x, right);
    }
  }

  /** The block after melting into its free left neighbour. */
  lemma MeltLeftKeeps(l: Layout, h: Heap, a: int)
    requires AtWork(l, h, a) && LeftFree(h, a)
    ensures var x := h.tags[a].splitLeft;
            && CanMelt(l, h, x, a, x) && x + h.tags[x].realSize == a
            && var h' := Melted(h, x, a, x);
            AtWork(l, h', x) && !LeftFree(h', x) && RightFree(h', x) == RightFree(h, a) && SameElse(h, h')
  {
    hide Removed, Merged;
    var x := h.tags[a].splitLeft;
    assert Linked(l, h, a) && Linked(l, h, x);
    MeltReady(l, h, {a}, x, a, x);
    MeltedKeeps(l, h, x, a, x);
    MergedSame(l, TakenOff(h, x), x, a);
    NeighboursAfterLeft(l, h, a);
  }

  lemma NeighboursAfterRight(l: Layout, h: Heap, a: int)
    requires AtWork(l, h, a) && RightFree(h, a)
    requires var y := h.tags[a].splitRight;
             CanMelt(l, h, a, y, y)
    ensures var y := h.tags[a].splitRight;
            var h' := Melted(h, a, y, y);
            !RightFree(h', a) && LeftFree(h', a) == LeftFree(h, a)
  {
    hide Removed, Merged;
    var y := h.tags[a].splitRight;
    var r := TakenOff(h, y);
    var left, right := h.tags[a].splitLeft, h.tags[y].splitRight;
    assert Linked(l, h, a) && Linked(l, h, y) && Alone(h, y);
    TakenOffSame(l, h, y);
    RemovedTag(h, y, a);
    RemovedTag(h, y, y);
    MergedSame(l, r, a, y);
    if left in h.tags {
      assert Linked(l, h, left);
      RemovedTag(h, y, left);
    }
    if right in h.tags {
      assert Linked(l, h, right);
      RemovedTag(h, y, right);
    }
  }

  /** The block after absorbing its free right neighbour. */
  lemma AbsorbRightKeeps(l: Layout, h: Heap, a: int)
    requires AtWork(l, h, a) && RightFree(h, a)
    ensures var y := h.tags[a].splitRight;
            && CanMelt(l, h, a, y, y) && a + h.tags[a].realSize == y
            && var h' := Melted(h, a, y, y);
            AtWork(l, h', a) && !RightFree(h', a) && LeftFree(h', a) == LeftFree(h, a) && SameElse(h, h')
  {
    hide Removed, Merged;
    var y := h.tags[a].splitRight;
    assert Linked(l, h, a) && Linked(l, h, y);
    MeltReady(l, h, {a}, a, y, y);
    MeltedKeeps(l, h, a, y, y);
    MergedSame(l, TakenOff(h, y), a, y);
    NeighboursAfterRight(l, h, a);
  }

  // The whole of it, in terms of the blocks.

  /** Where the free space around block a begins. */
  ghost function SpaceStart(h: Heap, a: int): int
    requires a in h.tags
  {
    if LeftFree(h, a) then h.tags[a].splitLeft else a
  }

  /** Where it ends. */
  ghost function SpaceEnd(h: Heap, a: int): int
    requires a in h.tags
  {
    if RightFree(h, a) then h.tags[a].splitRight + h.tags[h.tags[a].splitRight].realSize else a + h.tags[a].realSize
  }

  /** The blocks of this space. */
  ghost function Space(h: Heap, a: int): set<int>
    requires a in h.tags
  {
    {SpaceStart(h, a), a} + (if RightFree(h, a) then {h.tags[a].splitRight} else {})
  }

  /** The blocks that are not in this space. */
  ghost function Outside(h: Heap, a: int): map<int, Block>
    requires a in h.tags
  {
    View(h) - Space(h, a)
  }

  /** The space is a whole region. */
  ghost predicate WholeSpace(l: Layout, h: Heap, a: int)
    requires a in h.tags
  {
    && a in h.home && h.home[a] in h.regions
    && SpaceStart(h, a) == h.home[a] && SpaceEnd(h, a) == End(l, h, h.home[a])
  }

  /** What giving block a back does: its space becomes one free block, the latest on its list, or its region
      goes back to the page layer, if it is empty and enough empty regions of its size stand by already. */
  ghost predicate Frees(l: Layout, h: Heap, h': Heap, a: int, released: int, pages: int)
    requires a in h.tags && |h.complete| == MAXEXP
  {
    var x := SpaceStart(h, a);
    var i := Bucket(SpaceEnd(h, a) - x - l.header);
    if WholeSpace(l, h, a) && 0 <= i < MAXEXP && h.complete[i] == MAXCOMPLETE then
      released == x && pages == h.regions[x] && h'.regions == h.regions - {x} && View(h') == Outside(h, a)
    else
      && released == NULL && h'.regions == h.regions && View(h') == Outside(h, a)[x := Unused(SpaceEnd(h, a) - x)]
      && h'.stamp == h.stamp[x := h.clock] && h'.clock > h.clock
  }

  /** The states after the two loops. */
  ghost predicate Coalesced(l: Layout, h: Heap, h1: Heap, h2: Heap, a: int, x: int)
    requires a in h.tags && x in h1.tags
  {
    && x == SpaceStart(h, a)
    && (if LeftFree(h, a) then IsMelted(l, h, h1, x, a, x) else h1 == h)
    && var y := h1.tags[x].splitRight;
    if RightFree(h1, x) then IsMelted(l, h1, h2, x, y, y) else h2 == h1
  }

  lemma LeftView(l: Layout, h: Heap, h1: Heap, a: int, x: int)
    requires AtWork(l, h, a) && x == SpaceStart(h, a)
    requires if LeftFree(h, a) then IsMelted(l, h, h1, x, a, x) else h1 == h
    ensures x in h1.tags && AtWork(l, h1, x) && SameElse(h, h1) && View(h1) - {x} == View(h) - {a, x}
    ensures x + h1.tags[x].realSize == a + h.tags[a].realSize && x in h1.home && a in h.home && h1.home[x] == h.home[a]
    ensures h1.tags[x].splitRight == h.tags[a].splitRight && RightFree(h1, x) == RightFree(h, a)
  {
    assert Linked(l, h, a);
    if LeftFree(h, a) {
      MeltLeftKeeps(l, h, a);
      MeltedView(l, h, x, a, x);
      MeltedHome(l, h, x, a, x);
    } else {
      assert {a, x} == {x};
    }
  }

  lemma ViewOfMelted(l: Layout, h1: Heap, h2: Heap, x: int, y: int)
    requires IsMelted(l, h1, h2, x, y, y)
    ensures x in h2.tags && View(h2) - {x} == View(h1) - {x} - {y}
    ensures h2.tags[x].realSize == h1.tags[x].realSize + h1.tags[y].realSize
    ensures x in h1.home ==> x in h2.home && h2.home[x] == h1.home[x]
  {
    MeltedView(l, h1, x, y, y);
    if x in h1.home {
      MeltedHome(l, h1, x, y, y);
    }
  }

  /** The block behind is not changed by the melting on the left. */
  lemma SameExtent(l: Layout, h: Heap, h1: Heap, a: int, x: int, y: int)
    requires AtWork(l, h, a) && x in h1.tags && View(h1) - {x} == View(h) - {a, x} && AtWork(l, h1, x)
    requires x == SpaceStart(h, a) && y == h1.tags[x].splitRight == h.tags[a].splitRight && RightFree(h1, x)
             && RightFree(h, a)
    ensures y !in {a, x} && h1.tags[y].realSize == h.tags[y].realSize && y == x + h1.tags[x].realSize
  {
    assert Linked(l, h, a) && Linked(l, h1, x);
    assert (View(h1) - {x})[y] == View(h1)[y] && (View(h) - {a, x})[y] == View(h)[y];
  }

  lemma SpaceAtEnds(l: Layout, h: Heap, h2: Heap, a: int, x: int)
    requires AtWork(l, h, a) && AtWork(l, h2, x) && x == SpaceStart(h, a) && x + h2.tags[x].realSize == SpaceEnd(h, a)
    requires SameElse(h, h2) && x in h2.home && a in h.home && h2.home[x] == h.home[a]
    ensures WholeSpace(l, h, a) <==> h2.tags[x].splitLeft == NULL == h2.tags[x].splitRight
  {
    assert Linked(l, h, a) && Linked(l, h2, x);
  }

  lemma CoalescedView(l: Layout, h: Heap, h1: Heap, h2: Heap, a: int, x: int)
    requires AtWork(l, h, a) && x in h1.tags && Coalesced(l, h, h1, h2, a, x)
    ensures x in h2.tags && AtWork(l, h2, x) && SameElse(h, h2) && View(h2) - {x} == Outside(h, a)
    ensures x + h2.tags[x].realSize == SpaceEnd(h, a)
    ensures WholeSpace(l, h, a) <==> h2.tags[x].splitLeft == NULL == h2.tags[x].splitRight
  {
    hide Melted, CanMelt, ValidBut, View;
    LeftView(l, h, h1, a, x);
    var y := h1.tags[x].splitRight;
    if RightFree(h1, x) {
      AbsorbRightKeeps(l, h1, x);
      ViewOfMelted(l, h1, h2, x, y);
      SameExtent(l, h, h1, a, x, y);
    }
    SpaceAtEnds(l, h, h2, a, x);
    assert View(h2) - {x} == Outside(h, a);
  }

  /** What becomes of the coalesced block a. */
  ghost predicate GivesBack(l: Layout, h: Heap, h': Heap, a: int, released: int, pages: int)
    requires a in h.tags
  {
    var t := h.tags[a];
    var i := Bucket(t.realSize - l.header);
    if t.splitLeft == NULL == t.splitRight && 0 <= i < |h.complete| && h.complete[i] == MAXCOMPLETE then
      && released == a && a in h.regions && pages == h.regions[a]
      && h'.regions == h.regions - {a} && View(h') == View(h) - {a}
    else
      && released == NULL && h'.regions == h.regions && View(h') == View(h)[a := Unused(t.realSize)]
      && h'.stamp == h.stamp[a := h.clock] && h'.clock > h.clock
  }

  lemma CoalescedStart(l: Layout, h: Heap, h1: Heap, h2: Heap, a: int, x: int)
    requires a in h.tags && x in h1.tags && Coalesced(l, h, h1, h2, a, x)
    ensures x == SpaceStart(h, a)
  {}

  lemma SetAgain(v: map<int, Block>, v': map<int, Block>, a: int, b: Block)
    requires v' - {a} == v - {a}
    ensures v'[a := b] == v[a := b]
  {
    assert v'[a := b].Keys == v[a := b].Keys by {
      assert (v - {a}).Keys + {a} == v[a := b].Keys;
      assert (v' - {a}).Keys + {a} == v'[a := b].Keys;
    }
    forall x | x in v && x in v' && x != a
      ensures v'[x] == v[x]
    {
      assert (v - {a})[x] == (v' - {a})[x];
    }
  }

  lemma FreesInSteps(l: Layout, h: Heap, h1: Heap, h2: Heap, h3: Heap, a: int, x: int, released: int, pages: int)
    requires AtWork(l, h, a) && x in h1.tags && Coalesced(l, h, h1, h2, a, x)
    requires x in h2.tags && GivesBack(l, h2, h3, x, released, pages)
    ensures Frees(l, h, h3, a, released, pages)
  {
    hide View, Bucket, Coalesced, Outside, WholeSpace, SpaceStart, SpaceEnd;
    CoalescedView(l, h, h1, h2, a, x);
    SetAgain(View(h2), Outside(h, a), x, Unused(h2.tags[x].realSize));
    CoalescedStart(l, h, h1, h2, a, x);
  }
}
