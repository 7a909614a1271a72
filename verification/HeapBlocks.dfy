/** Merging, cutting, obtaining and returning blocks keeps the invariants. */
module HeapBlocks {
  import opened Powers
  import opened HeapTags
  import opened HeapSteps

  // Merging two neighbours.

  ghost predicate CanMerge(l: Layout, h: Heap, x: int, y: int) {
    && Tiled(l, h) && Lists(h) && x in h.tags && y in h.tags && h.tags[x].splitRight == y
    && !h.tags[x].Free() && !h.tags[y].Free()
  }

  lemma CanMergeLinked(l: Layout, h: Heap, x: int, y: int)
    requires CanMerge(l, h, x, y)
    ensures x < y && Linked(l, h, x) && Linked(l, h, y) && h.home[x] == h.home[y]
    ensures h.tags[x].splitRight == y && h.tags[y].splitLeft == x && y == x + h.tags[x].realSize
    ensures h.tags[y].splitRight != NULL ==>
              h.tags[y].splitRight in h.tags && h.tags[y].splitRight > y && h.tags[h.tags[y].splitRight].splitLeft == y
  {
    assert Linked(l, h, x) && Linked(l, h, y);
  }

  /** The tags after the merge: all others keep everything but that the block behind is now behind x. */
  lemma MergedTag(l: Layout, h: Heap, x: int, y: int, a: int)
    requires CanMerge(l, h, x, y) && a in h.tags && a != y && x != y
    requires h.tags[y].splitRight != NULL ==> h.tags[y].splitRight in h.tags
    ensures var h' := Merged(h, x, y);
            && h'.tags.Keys == h.tags.Keys - {y} && h'.home.Keys == h.home.Keys - {y}
            && h' == h.(tags := h'.tags, home := h'.home) && (a in h.home ==> h'.home[a] == h.home[a])
            && var t, t' := h.tags[a], h'.tags[a];
            && t'.(splitLeft := t.splitLeft, splitRight := t.splitRight, realSize := t.realSize) == t
            && t'.splitLeft == (if t.splitLeft == y then x else t.splitLeft)
            && t'.splitRight == (if a == x then h.tags[y].splitRight else t.splitRight)
            && t'.realSize == (if a == x then t.realSize + h.tags[y].realSize else t.realSize)
  {
    CanMergeLinked(l, h, x, y);
    assert Linked(l, h, a);
  }

  lemma MergedLinked(l: Layout, h: Heap, x: int, y: int, a: int)
    requires CanMerge(l, h, x, y) && x != y && a in h.tags && a != y
    requires h.tags[y].splitRight != NULL ==> h.tags[y].splitRight in h.tags
    ensures Linked(l, Merged(h, x, y), a)
  {
    hide Merged;
    CanMergeLinked(l, h, x, y);
    assert Linked(l, h, a);
    MergedTag(l, h, x, y, a);
    var h' := Merged(h, x, y);
    var left, right := h'.tags[a].splitLeft, h'.tags[a].splitRight;
    assert End(l, h', h.home[a]) == End(l, h, h.home[a]);
    if left != NULL { MergedTag(l, h, x, y, left); }
    if right != NULL { MergedTag(l, h, x, y, right); }
  }

  lemma RootNotBehind(l: Layout, h: Heap, y: int, b: int)
    requires Linked(l, h, y) && h.tags[y].splitLeft != NULL && Rooted(l, h, b)
    ensures b != y
  {}

  lemma MergedTiled(l: Layout, h: Heap, x: int, y: int)
    requires CanMerge(l, h, x, y) && x != y
    requires h.tags[y].splitRight != NULL ==> h.tags[y].splitRight in h.tags
    ensures Tiled(l, Merged(h, x, y))
  {
    hide Merged, Linked;
    var h' := Merged(h, x, y);
    CanMergeLinked(l, h, x, y);
    MergedTag(l, h, x, y, x);
    forall a | a in h'.tags
      ensures Linked(l, h', a)
    {
      MergedLinked(l, h, x, y, a);
    }
    forall a, b | a in h'.tags && b in h'.tags
      ensures Apart(h', a, b)
    {
      assert Apart(h, a, b) && Apart(h, y, b) && Apart(h, b, y);
      MergedTag(l, h, x, y, a);
    }
    forall b | b in h.regions
      ensures Rooted(l, h', b)
    {
      assert Rooted(l, h, b);
      MergedTag(l, h, x, y, b) by {
        assert Linked(l, h, y);
        RootNotBehind(l, h, y, b);
      }
    }
  }

  lemma MergedLists(l: Layout, h: Heap, x: int, y: int)
    requires CanMerge(l, h, x, y) && x != y
    requires h.tags[y].splitRight != NULL ==> h.tags[y].splitRight in h.tags
    ensures Lists(Merged(h, x, y))
  {
    hide Merged;
    var h' := Merged(h, x, y);
    MergedTag(l, h, x, y, x);
    forall a | a in h'.tags
      ensures Listed(h', a)
    {
      assert Listed(h, a);
      MergedTag(l, h, x, y, a);
      if h.tags[a].prev != NULL { MergedTag(l, h, x, y, h.tags[a].prev); }
      if h.tags[a].next != NULL { MergedTag(l, h, x, y, h.tags[a].next); }
    }
    forall i | 0 <= i < MAXEXP
      ensures Heads(h', i)
    {
      assert Heads(h, i);
      if h.free[i] != NULL { MergedTag(l, h, x, y, h.free[i]); }
    }
    forall a, b | a in h'.tags && b in h'.tags
      ensures Timed(h', a, b)
    {
      assert Timed(h, a, b);
      MergedTag(l, h, x, y, a);
      MergedTag(l, h, x, y, b);
    }
  }

  lemma MergedCounts(l: Layout, h: Heap, x: int, y: int)
    requires CanMerge(l, h, x, y) && x != y && |h.complete| == MAXEXP
    requires h.tags[y].splitRight != NULL ==> h.tags[y].splitRight in h.tags
    requires forall i {:trigger Counted(h, i)} :: 0 <= i < MAXEXP ==> Counted(h, i)
    ensures var h' := Merged(h, x, y);
            |h'.complete| == MAXEXP && forall i {:trigger Counted(h', i)} :: 0 <= i < MAXEXP ==> Counted(h', i)
  {
    hide Merged;
    var h' := Merged(h, x, y);
    CanMergeLinked(l, h, x, y);
    MergedTag(l, h, x, y, x);
    forall i | 0 <= i < MAXEXP
      ensures Counted(h', i)
    {
      assert Counted(h, i);
      forall a | a in h'.tags
        ensures a in WholeOn(h', i) <==> a in WholeOn(h, i)
      {
        MergedTag(l, h, x, y, a);
      }
      assert WholeOn(h', i) == WholeOn(h, i);
    }
  }

  lemma MergedKeeps(l: Layout, h: Heap, hot: set<int>, x: int, y: int)
    requires ValidBut(l, h, hot) && CanMerge(l, h, x, y)
    ensures x != y && (h.tags[y].splitRight != NULL ==> h.tags[y].splitRight in h.tags)
    ensures ValidBut(l, Merged(h, x, y), (hot - {y}) + {x})
  {
    hide Merged, Counted;
    CanMergeLinked(l, h, x, y);
    var h' := Merged(h, x, y);
    MergedTag(l, h, x, y, x);
    MergedTiled(l, h, x, y);
    MergedLists(l, h, x, y);
    MergedCounts(l, h, x, y);
    forall a | a in h'.tags
      ensures a !in (hot - {y}) + {x} ==> Fitting(l, h', a)
      ensures Alone(h', a)
    {
      assert a !in hot ==> Fitting(l, h, a);
      assert Alone(h, a);
      MergedTag(l, h, x, y, a);
      if h'.tags[a].splitRight in h'.tags { MergedTag(l, h, x, y, h'.tags[a].splitRight); }
    }
  }

  lemma MergedView(l: Layout, h: Heap, x: int, y: int)
    requires CanMerge(l, h, x, y) && x != y
    requires h.tags[y].splitRight != NULL ==> h.tags[y].splitRight in h.tags
    ensures View(Merged(h, x, y)) == (View(h) - {y})[x := Used(h.tags[x].size, h.tags[x].realSize + h.tags[y].realSize)]
  {
    hide Merged;
    var v := (View(h) - {y})[x := Used(h.tags[x].size, h.tags[x].realSize + h.tags[y].realSize)];
    var v' := View(Merged(h, x, y));
    MergedTag(l, h, x, y, x);
    assert v'.Keys == v.Keys;
    forall a | a in v
      ensures v'[a] == v[a]
    {
      MergedTag(l, h, x, y, a);
    }
  }

  /** The free left neighbour x of block y, on its list. */
  ghost predicate FreeInFront(l: Layout, h: Heap, x: int, y: int) {
    && Tiled(l, h) && Lists(h) && x in h.tags && y in h.tags && h.tags[x].splitRight == y && y != NULL
    && h.tags[x].Free() && !h.tags[y].Free() && |h.complete| == MAXEXP
  }

  lemma MeltLinked(l: Layout, h: Heap, x: int, y: int)
    requires FreeInFront(l, h, x, y)
    ensures Listed(h, x) && x < y && h.tags[y].prev == NULL == h.tags[y].next && !h.tags[x].Whole()
    ensures h.tags[y].splitRight != NULL ==> h.tags[y].splitRight in h.tags && h.tags[y].splitRight > y
    ensures h.tags[x].prev != y && h.tags[x].next != y && h.tags[x].prev != x && h.tags[x].next != x
    ensures TakenOff(h, x) == Removed(h, x)
  {
    assert Listed(h, x) && Listed(h, y) && Linked(l, h, x) && Linked(l, h, y);
  }

  lemma MeltCanMerge(l: Layout, h: Heap, x: int, y: int)
    requires FreeInFront(l, h, x, y) && Listed(h, x) && x < y
    ensures CanMerge(l, Removed(h, x), x, y) && Removed(h, x).tags.Keys == h.tags.Keys
    ensures Removed(h, x).tags[y] == h.tags[y] || Removed(h, x).tags[y].splitRight == h.tags[y].splitRight
  {
    hide Removed;
    RemovedTag(h, x, y);
    RemovedTag(h, x, x);
    RemovedTiled(l, h, x);
    RemovedLists(h, x);
  }

  /** The two steps change different fields of the tags that they have in common. */
  ghost predicate Separate(h: Heap, x: int, y: int) {
    && x in h.tags && y in h.tags && x != y && 0 <= h.tags[x].index < |h.free|
    && (h.tags[x].prev != NULL ==> h.tags[x].prev in h.tags && h.tags[x].prev !in {x, y})
    && (h.tags[x].next != NULL ==> h.tags[x].next in h.tags && h.tags[x].next !in {x, y})
    && (h.tags[y].splitRight != NULL ==> h.tags[y].splitRight in h.tags && h.tags[y].splitRight !in {x, y})
  }

  /** The tag of another block after both steps, whatever their order. */
  function Beyond(h: Heap, x: int, y: int, k: int): Tag
    requires Separate(h, x, y) && k in h.tags
  {
    var t := h.tags[k];
    var t1 := if k == h.tags[x].prev then t.(next := h.tags[x].next) else t;
    var t2 := if k == h.tags[x].next then t1.(prev := h.tags[x].prev) else t1;
    if k == h.tags[y].splitRight then t2.(splitLeft := x) else t2
  }

  function Joined(h: Heap, x: int, y: int): Tag
    requires Separate(h, x, y)
  {
    h.tags[x].(realSize := h.tags[x].realSize + h.tags[y].realSize, splitRight := h.tags[y].splitRight,
               next := NULL, prev := NULL, index := -1)
  }

  lemma MergedThenRemoved(h: Heap, x: int, y: int, k: int)
    requires Separate(h, x, y) && NULL !in h.tags && k in h.tags && k != y
    ensures Removed(Merged(h, x, y), x).tags[k] == if k == x then Joined(h, x, y) else Beyond(h, x, y, k)
  {}

  lemma RemovedThenMerged(h: Heap, x: int, y: int, k: int)
    requires Separate(h, x, y) && NULL !in h.tags && k in h.tags && k != y
    ensures x in Removed(h, x).tags && y in Removed(h, x).tags && Removed(h, x).tags[y] == h.tags[y]
    ensures h.tags[y].splitRight != NULL ==> h.tags[y].splitRight in Removed(h, x).tags
    ensures Merged(Removed(h, x), x, y).tags[k] == if k == x then Joined(h, x, y) else Beyond(h, x, y, k)
  {}

  lemma StepsCommute(h: Heap, x: int, y: int)
    requires Separate(h, x, y) && NULL !in h.tags
    ensures x in Removed(h, x).tags && y in Removed(h, x).tags && Removed(h, x).tags[y] == h.tags[y]
    ensures h.tags[y].splitRight != NULL ==> h.tags[y].splitRight in Removed(h, x).tags
    ensures Removed(Merged(h, x, y), x) == Merged(Removed(h, x), x, y)
  {
    RemovedThenMerged(h, x, y, x);
    var a, b := Removed(Merged(h, x, y), x).tags, Merged(Removed(h, x), x, y).tags;
    assert a.Keys == h.tags.Keys - {y} && b.Keys == h.tags.Keys - {y};
    forall k | k in a
      ensures a[k] == b[k]
    {
      MergedThenRemoved(h, x, y, k);
      RemovedThenMerged(h, x, y, k);
    }
    assert a == b;
  }

  /** Melting a block into a free one on its left and then taking that off its list is the same as first
      taking it off and then merging. */
  lemma MeltCommutes(l: Layout, h: Heap, x: int, y: int)
    requires FreeInFront(l, h, x, y)
    ensures Listed(h, x) && x < y && (h.tags[y].splitRight != NULL ==> h.tags[y].splitRight in h.tags)
    ensures var m := Merged(h, x, y);
            && x in m.tags && m.tags[x].index == h.tags[x].index && m.tags[x].prev == h.tags[x].prev
            && m.tags[x].next == h.tags[x].next
            && (m.tags[x].prev != NULL ==> m.tags[x].prev in m.tags)
            && (m.tags[x].next != NULL ==> m.tags[x].next in m.tags)
            && CanMerge(l, TakenOff(h, x), x, y)
            && (TakenOff(h, x).tags[y].splitRight != NULL ==>
                  TakenOff(h, x).tags[y].splitRight in TakenOff(h, x).tags)
            && Removed(m, x) == Merged(TakenOff(h, x), x, y)
  {
    hide Tiled, CanMerge, Removed;
    MeltLinked(l, h, x, y);
    MeltCanMerge(l, h, x, y);
    StepsCommute(h, x, y);
  }

  // Cutting a block in two.

  ghost predicate CanSplit(l: Layout, h: Heap, a: int) {
    && Tiled(l, h) && Lists(h) && a in h.tags && !h.tags[a].Free()
    && 0 <= h.tags[a].size && 2 * l.header + h.tags[a].size <= h.tags[a].realSize
  }

  function Cut(l: Layout, h: Heap, a: int): int
    requires a in h.tags
  {
    a + l.header + h.tags[a].size
  }

  lemma CanSplitLinked(l: Layout, h: Heap, a: int)
    requires CanSplit(l, h, a)
    ensures Linked(l, h, a) && (h.tags[a].splitRight != NULL ==> h.tags[a].splitRight in h.tags) && a in h.home
    ensures Cut(l, h, a) !in h.tags && Cut(l, h, a) > a
  {
    assert Linked(l, h, a);
    assert Cut(l, h, a) in h.tags ==> Apart(h, a, Cut(l, h, a));
  }

  /** The tags after the cut: all others keep everything but that the block behind now follows the part cut off. */
  lemma SplitTag(l: Layout, h: Heap, a: int, junk: int, x: int)
    requires CanSplit(l, h, a) && Linked(l, h, a) && x in h.tags
    requires (h.tags[a].splitRight != NULL ==> h.tags[a].splitRight in h.tags) && a in h.home
    ensures var h', c := SplitOff(l, h, a, junk), Cut(l, h, a);
            var rest := h.tags[a].realSize - l.header - h.tags[a].size;
            && c !in h.tags && h'.tags.Keys == h.tags.Keys + {c}
            && h' == h.(tags := h'.tags, home := h.home[c := h.home[a]])
            && h'.tags[c] == Tag(MAGIC, junk, rest, -1, a, h.tags[a].splitRight, NULL, NULL)
            && var t, t' := h.tags[x], h'.tags[x];
            && t'.(splitLeft := t.splitLeft, splitRight := t.splitRight, realSize := t.realSize) == t
            && t'.splitLeft == (if t.splitLeft == a then c else t.splitLeft)
            && t'.splitRight == (if x == a then c else t.splitRight)
            && t'.realSize == (if x == a then l.header + t.size else t.realSize)
  {
    CanSplitLinked(l, h, a);
    assert Linked(l, h, x);
  }

  lemma SplitLinked(l: Layout, h: Heap, a: int, junk: int, x: int)
    requires CanSplit(l, h, a) && Linked(l, h, a) && x in SplitOff(l, h, a, junk).tags
    ensures Linked(l, SplitOff(l, h, a, junk), x)
  {
    hide SplitOff;
    CanSplitLinked(l, h, a);
    var h', c := SplitOff(l, h, a, junk), Cut(l, h, a);
    SplitTag(l, h, a, junk, a);
    assert End(l, h', h.home[a]) == End(l, h, h.home[a]);
    if x == c {
      if h.tags[a].splitRight != NULL { SplitTag(l, h, a, junk, h.tags[a].splitRight); }
    } else {
      assert Linked(l, h, x);
      assert End(l, h', h.home[x]) == End(l, h, h.home[x]);
      SplitTag(l, h, a, junk, x);
      if h.tags[x].splitLeft != NULL { SplitTag(l, h, a, junk, h.tags[x].splitLeft); }
      if h.tags[x].splitRight != NULL { SplitTag(l, h, a, junk, h.tags[x].splitRight); }
    }
  }

  lemma SplitTiled(l: Layout, h: Heap, a: int, junk: int)
    requires CanSplit(l, h, a) && Linked(l, h, a)
    ensures Tiled(l, SplitOff(l, h, a, junk))
  {
    hide SplitOff, Linked;
    CanSplitLinked(l, h, a);
    var h', c := SplitOff(l, h, a, junk), Cut(l, h, a);
    SplitTag(l, h, a, junk, a);
    forall x | x in h'.tags
      ensures Linked(l, h', x)
    {
      SplitLinked(l, h, a, junk, x);
    }
    forall x, y | x in h'.tags && y in h'.tags
      ensures Apart(h', x, y)
    {
      if x != c { SplitTag(l, h, a, junk, x); assert Apart(h, x, a) && Apart(h, a, x); }
      if y != c { assert Apart(h, a, y); }
      if x != c && y != c { assert Apart(h, x, y); }
    }
    forall b | b in h.regions
      ensures Rooted(l, h', b)
    {
      assert Rooted(l, h, b);
      SplitTag(l, h, a, junk, b);
    }
  }

  lemma NotNull(l: Layout, h: Heap, a: int)
    requires Linked(l, h, a)
    ensures a > 0
  {}

  lemma SplitLists(l: Layout, h: Heap, a: int, junk: int)
    requires CanSplit(l, h, a) && Linked(l, h, a)
    ensures Lists(SplitOff(l, h, a, junk))
  {
    hide SplitOff, Linked;
    CanSplitLinked(l, h, a);
    var h', c := SplitOff(l, h, a, junk), Cut(l, h, a);
    SplitTag(l, h, a, junk, a);
    assert c != NULL by {
      SplitLinked(l, h, a, junk, c);
      NotNull(l, h', c);
    }
    forall x | x in h'.tags
      ensures Listed(h', x)
    {
      if x != c {
        assert Listed(h, x);
        SplitTag(l, h, a, junk, x);
        if h.tags[x].prev != NULL { SplitTag(l, h, a, junk, h.tags[x].prev); }
        if h.tags[x].next != NULL { SplitTag(l, h, a, junk, h.tags[x].next); }
      }
    }
    forall i | 0 <= i < MAXEXP
      ensures Heads(h', i)
    {
      assert Heads(h, i);
      if h.free[i] != NULL { SplitTag(l, h, a, junk, h.free[i]); }
    }
    forall x, y | x in h'.tags && y in h'.tags
      ensures Timed(h', x, y)
    {
      if x != c { SplitTag(l, h, a, junk, x); }
      if y != c { SplitTag(l, h, a, junk, y); }
      if x != c && y != c { assert Timed(h, x, y); }
    }
  }

  lemma SplitCounts(l: Layout, h: Heap, a: int, junk: int)
    requires CanSplit(l, h, a) && Linked(l, h, a) && |h.complete| == MAXEXP
    requires forall i {:trigger Counted(h, i)} :: 0 <= i < MAXEXP ==> Counted(h, i)
    ensures var h' := SplitOff(l, h, a, junk);
            |h'.complete| == MAXEXP && forall i {:trigger Counted(h', i)} :: 0 <= i < MAXEXP ==> Counted(h', i)
  {
    hide SplitOff;
    CanSplitLinked(l, h, a);
    var h', c := SplitOff(l, h, a, junk), Cut(l, h, a);
    SplitTag(l, h, a, junk, a);
    forall i | 0 <= i < MAXEXP
      ensures Counted(h', i)
    {
      assert Counted(h, i);
      forall x | x in h'.tags
        ensures x in WholeOn(h', i) <==> x in WholeOn(h, i)
      {
        if x != c { SplitTag(l, h, a, junk, x); }
      }
      assert WholeOn(h', i) == WholeOn(h, i);
    }
  }

  lemma SplitKeeps(l: Layout, h: Heap, hot: set<int>, a: int, junk: int)
    requires ValidBut(l, h, hot) && CanSplit(l, h, a) && Linked(l, h, a)
    ensures ValidBut(l, SplitOff(l, h, a, junk), hot + {Cut(l, h, a)})
  {
    hide SplitOff, Counted;
    CanSplitLinked(l, h, a);
    var h', c := SplitOff(l, h, a, junk), Cut(l, h, a);
    SplitTag(l, h, a, junk, a);
    SplitTiled(l, h, a, junk);
    SplitLists(l, h, a, junk);
    SplitCounts(l, h, a, junk);
    forall x | x in h'.tags
      ensures x !in hot + {c} ==> Fitting(l, h', x)
      ensures Alone(h', x)
    {
      if x != c {
        assert x !in hot ==> Fitting(l, h, x);
        assert Alone(h, x);
        SplitTag(l, h, a, junk, x);
        if h'.tags[x].splitRight in h.tags { SplitTag(l, h, a, junk, h'.tags[x].splitRight); }
      }
    }
  }

  lemma SplitView(l: Layout, h: Heap, a: int, junk: int)
    requires CanSplit(l, h, a) && Linked(l, h, a)
    ensures var size := h.tags[a].size;
            View(SplitOff(l, h, a, junk))
            == View(h)[a := Used(size, l.header + size)]
                      [Cut(l, h, a) := Used(junk, h.tags[a].realSize - l.header - size)]
  {
    hide SplitOff;
    CanSplitLinked(l, h, a);
    var size := h.tags[a].size;
    var v' := View(SplitOff(l, h, a, junk));
    var v := View(h)[a := Used(size, l.header + size)]
                    [Cut(l, h, a) := Used(junk, h.tags[a].realSize - l.header - size)];
    SplitTag(l, h, a, junk, a);
    assert v'.Keys == v.Keys;
    forall x | x in v
      ensures v'[x] == v[x]
    {
      if x in h.tags { SplitTag(l, h, a, junk, x); }
    }
  }

  // Regions.

  /** The page layer may hand out these pages: they overlap no region. */
  ghost predicate Offered(l: Layout, h: Heap, base: int, pages: int) {
    && base > 0 && MIN_PAGES <= pages
    && forall b :: b in h.regions ==> base + pages * l.page <= b || End(l, h, b) <= base
  }

  lemma OfferedApart(l: Layout, h: Heap, base: int, pages: int, a: int)
    requires Tiled(l, h) && Offered(l, h, base, pages) && a in h.tags
    ensures a != base && a in h.home && h.home[a] in h.regions && h.home[a] != base && base !in h.regions
    ensures base + pages * l.page <= a || a + h.tags[a].realSize <= base
  {
    assert Linked(l, h, a);
    assert Rooted(l, h, h.home[a]);
    var b := h.home[a];
    assert l.page * pages > 0;
    assert base in h.regions ==> Rooted(l, h, base);
  }

  lemma OfferedNew(l: Layout, h: Heap, base: int, pages: int)
    requires Tiled(l, h) && Offered(l, h, base, pages)
    ensures base !in h.tags && base !in h.regions
  {
    forall a | a in h.tags
      ensures a != base
    {
      OfferedApart(l, h, base, pages, a);
    }
    assert base in h.regions ==> Rooted(l, h, base);
  }

  lemma ObtainedTiled(l: Layout, h: Heap, base: int, pages: int, size: int)
    requires Tiled(l, h) && Offered(l, h, base, pages) && 0 <= size && l.header + size <= pages * l.page < LIMIT
    ensures base !in h.tags && base !in h.regions && Tiled(l, Obtained(l, h, base, pages, size))
  {
    OfferedNew(l, h, base, pages);
    var h' := Obtained(l, h, base, pages, size);
    forall x | x in h'.tags
      ensures Linked(l, h', x)
    {
      if x != base {
        assert Linked(l, h, x);
        OfferedApart(l, h, base, pages, x);
        assert End(l, h', h.home[x]) == End(l, h, h.home[x]);
      }
    }
    forall x, y | x in h'.tags && y in h'.tags
      ensures Apart(h', x, y)
    {
      if x != base { OfferedApart(l, h, base, pages, x); }
      if y != base { OfferedApart(l, h, base, pages, y); assert Linked(l, h, y); }
      if x != base && y != base { assert Apart(h, x, y); }
    }
    forall b | b in h'.regions
      ensures Rooted(l, h', b)
    {
      if b != base { assert Rooted(l, h, b); }
    }
  }

  lemma ObtainedLists(l: Layout, h: Heap, base: int, pages: int, size: int)
    requires Lists(h) && base !in h.tags && base != NULL
    ensures Lists(Obtained(l, h, base, pages, size))
  {
    var h' := Obtained(l, h, base, pages, size);
    forall x | x in h'.tags
      ensures Listed(h', x)
    {
      if x != base { assert Listed(h, x); }
    }
    forall i | 0 <= i < MAXEXP
      ensures Heads(h', i)
    {
      assert Heads(h, i);
    }
    forall x, y | x in h'.tags && y in h'.tags
      ensures Timed(h', x, y)
    {
      if x != base && y != base { assert Timed(h, x, y); }
    }
  }

  lemma ObtainedKeeps(l: Layout, h: Heap, base: int, pages: int, size: int)
    requires Valid(l, h) && Offered(l, h, base, pages) && 0 <= size && l.header + size <= pages * l.page < LIMIT
    ensures base !in h.tags && base !in h.regions && Valid(l, Obtained(l, h, base, pages, size))
  {
    ObtainedTiled(l, h, base, pages, size);
    ObtainedLists(l, h, base, pages, size);
    var h' := Obtained(l, h, base, pages, size);
    forall x | x in h'.tags
      ensures Fitting(l, h', x) && Alone(h', x)
    {
      if x != base {
        assert Fitting(l, h, x) && Alone(h, x) && Linked(l, h, x);
      }
    }
    forall i | 0 <= i < MAXEXP
      ensures Counted(h', i)
    {
      assert Counted(h, i);
      assert WholeOn(h', i) == WholeOn(h, i);
    }
  }

  /** A used block that is a whole region. */
  ghost predicate CanReturn(l: Layout, h: Heap, a: int) {
    Tiled(l, h) && Lists(h) && a in h.tags && !h.tags[a].Free() && h.tags[a].splitLeft == NULL == h.tags[a].splitRight
  }

  /** Such a block begins at the base of its region and is as large as that. */
  lemma WholeRegion(l: Layout, h: Heap, a: int)
    requires CanReturn(l, h, a)
    ensures a in h.regions && h.home[a] == a && h.tags[a].realSize == h.regions[a] * l.page
    ensures h.regions[a] == h.tags[a].realSize / l.page && h.tags[a].realSize % l.page == 0
    ensures MIN_PAGES <= h.regions[a] && forall x :: x in h.tags && x != a ==> h.home[x] != a
  {
    assert Linked(l, h, a) && Rooted(l, h, a);
    DivideUnique(h.tags[a].realSize, h.regions[a], l.page, 0);
    forall x | x in h.tags && x != a
      ensures h.home[x] != a
    {
      assert Linked(l, h, x) && Apart(h, a, x);
    }
  }

  lemma ReturnedTiled(l: Layout, h: Heap, a: int)
    requires CanReturn(l, h, a)
    ensures Tiled(l, Returned(h, a))
  {
    WholeRegion(l, h, a);
    var h' := Returned(h, a);
    forall x | x in h'.tags
      ensures Linked(l, h', x)
    {
      assert Linked(l, h, x);
      assert End(l, h', h.home[x]) == End(l, h, h.home[x]);
    }
    forall x, y | x in h'.tags && y in h'.tags
      ensures Apart(h', x, y)
    {
      assert Apart(h, x, y);
    }
    forall b | b in h'.regions
      ensures Rooted(l, h', b)
    {
      assert Rooted(l, h, b);
    }
  }

  lemma ReturnedLists(l: Layout, h: Heap, a: int)
    requires CanReturn(l, h, a)
    ensures Lists(Returned(h, a))
  {
    var h' := Returned(h, a);
    forall x | x in h'.tags
      ensures Listed(h', x)
    {
      assert Listed(h, x);
    }
    forall i | 0 <= i < MAXEXP
      ensures Heads(h', i)
    {
      assert Heads(h, i);
    }
    forall x, y | x in h'.tags && y in h'.tags
      ensures Timed(h', x, y)
    {
      assert Timed(h, x, y);
    }
  }

  lemma ReturnedKeeps(l: Layout, h: Heap, hot: set<int>, a: int)
    requires ValidBut(l, h, hot) && CanReturn(l, h, a)
    ensures ValidBut(l, Returned(h, a), hot - {a})
    ensures View(Returned(h, a)) == View(h) - {a}
  {
    ReturnedTiled(l, h, a);
    ReturnedLists(l, h, a);
    var h' := Returned(h, a);
    forall x | x in h'.tags
      ensures x !in hot - {a} ==> Fitting(l, h', x)
      ensures Alone(h', x)
    {
      assert x !in hot ==> Fitting(l, h, x);
      assert Alone(h, x);
    }
    forall i | 0 <= i < MAXEXP
      ensures Counted(h', i)
    {
      assert Counted(h, i);
      assert WholeOn(h', i) == WholeOn(h, i);
    }
  }

  // Setting the size of a block.

  function Resized(h: Heap, a: int, size: int): Heap
    requires a in h.tags
  {
    h.(tags := h.tags[a := h.tags[a].(size := size)])
  }

  lemma ResizedTiled(l: Layout, h: Heap, a: int, size: int)
    requires Tiled(l, h) && a in h.tags
    ensures Tiled(l, Resized(h, a, size))
  {
    var h' := Resized(h, a, size);
    forall x | x in h.tags
      ensures Linked(l, h', x)
    {
      assert Linked(l, h, x);
      assert End(l, h', h.home[x]) == End(l, h, h.home[x]);
    }
    forall x, y | x in h.tags && y in h.tags
      ensures Apart(h', x, y)
    {
      assert Apart(h, x, y);
    }
    forall b | b in h.regions
      ensures Rooted(l, h', b)
    {
      assert Rooted(l, h, b);
    }
  }

  lemma ResizedLists(h: Heap, a: int, size: int)
    requires Lists(h) && a in h.tags
    ensures Lists(Resized(h, a, size))
  {
    var h' := Resized(h, a, size);
    forall x | x in h.tags
      ensures Listed(h', x)
    {
      assert Listed(h, x);
    }
    forall x, y | x in h.tags && y in h.tags
      ensures Timed(h', x, y)
    {
      assert Timed(h, x, y);
    }
    forall i | 0 <= i < MAXEXP
      ensures Heads(h', i)
    {
      assert Heads(h, i);
    }
  }

  lemma ResizedKeeps(l: Layout, h: Heap, hot: set<int>, a: int, size: int)
    requires ValidBut(l, h, hot) && a in h.tags && !h.tags[a].Free()
    requires 0 <= size && l.header + size <= h.tags[a].realSize
    ensures ValidBut(l, Resized(h, a, size), hot - {a})
    ensures View(Resized(h, a, size)) == View(h)[a := Used(size, h.tags[a].realSize)]
  {
    var h' := Resized(h, a, size);
    ResizedTiled(l, h, a, size);
    ResizedLists(h, a, size);
    forall x | x in h.tags
      ensures Alone(h', x)
      ensures x !in hot - {a} ==> Fitting(l, h', x)
    {
      assert Alone(h, x);
      assert x !in hot ==> Fitting(l, h, x);
    }
    forall i | 0 <= i < MAXEXP
      ensures Counted(h', i)
    {
      assert Counted(h, i);
      assert WholeOn(h', i) == WholeOn(h, i);
    }
  }
}
