/** The free lists as sequences, and the tiling of the regions. */
module HeapLists {
  import opened Powers
  import opened HeapTags
  import opened HeapSteps

  // The order on a list is that of the times, latest first.

  lemma {:induction false} HeadNewest(h: Heap, x: int)
    requires Lists(h) && x in h.tags && h.tags[x].Free()
    ensures Listed(h, x) && Heads(h, h.tags[x].index) && h.free[h.tags[x].index] != NULL
    ensures var f := h.free[h.tags[x].index]; f in h.tags && f in h.stamp && h.stamp[f] >= h.stamp[x]
    decreases if x in h.stamp then h.clock - h.stamp[x] else 0
  {
    assert Listed(h, x) && Heads(h, h.tags[x].index);
    if h.tags[x].prev != NULL {
      HeadNewest(h, h.tags[x].prev);
    }
  }

  /** Nothing on the list of x stands between x and the tag in front of it. */
  lemma {:induction false} NoneBetween(h: Heap, x: int, y: int)
    requires Lists(h) && x in h.tags && y in h.tags && h.tags[x].Free() && h.tags[x].index == h.tags[y].index
    requires x in h.stamp && y in h.stamp && h.stamp[x] < h.stamp[y]
    ensures Listed(h, x) && h.tags[x].prev != NULL && h.stamp[h.tags[x].prev] <= h.stamp[y]
    decreases 2 * h.clock - h.stamp[x] - h.stamp[y]
  {
    HeadNewest(h, x);
    HeadNewest(h, y);
    assert Listed(h, x) && Listed(h, y);
    var p, q := h.tags[x].prev, h.tags[y].prev;
    if p != NULL && h.stamp[p] > h.stamp[y] {
      HeadNewest(h, p);
      assert Listed(h, p);
      if q != NULL {
        assert Listed(h, q) && Timed(h, p, q);
        if h.stamp[q] < h.stamp[p] {
          NoneBetween(h, x, q);
        } else if h.stamp[q] > h.stamp[p] {
          NoneBetween(h, y, p);
        }
      }
    }
  }

  /** What follows x on its list is the latest of those that are older. */
  lemma NextOlder(h: Heap, x: int, y: int)
    requires Lists(h) && x in h.tags && y in h.tags && h.tags[x].Free() && h.tags[x].index == h.tags[y].index
    requires x in h.stamp && y in h.stamp && h.stamp[y] < h.stamp[x]
    ensures Listed(h, x) && h.tags[x].next != NULL && h.stamp[y] <= h.stamp[h.tags[x].next]
    decreases h.clock - h.stamp[y]
  {
    assert Listed(h, x) && Listed(h, y);
    NoneBetween(h, y, x);
    var p := h.tags[y].prev;
    if h.stamp[p] < h.stamp[x] {
      NextOlder(h, x, p);
    } else {
      assert Listed(h, p) && Timed(h, p, x);
    }
  }

  ghost predicate OnList(h: Heap, a: int) {
    Lists(h) && (a == NULL || (a in h.tags && h.tags[a].Free()))
  }

  ghost function Time(h: Heap, a: int): nat {
    if a in h.stamp then h.stamp[a] else 0
  }

  /** The list from tag a on, along next. */
  ghost function ListFrom(h: Heap, a: int): (s: seq<int>)
    requires OnList(h, a)
    decreases a != NULL, Time(h, a)
  {
    if a == NULL then [] else
      assert Listed(h, a);
      [a] + ListFrom(h, h.tags[a].next)
  }

  /** It is a list of free tags of one index, in the order of their times. */
  lemma {:induction false} ListFromOrdered(h: Heap, a: int)
    requires OnList(h, a)
    ensures var s := ListFrom(h, a);
            forall k :: 0 <= k < |s| ==>
              && s[k] in h.tags && h.tags[s[k]].index == h.tags[s[0]].index && Time(h, s[k]) <= Time(h, s[0])
    ensures var s := ListFrom(h, a);
            && (forall j, k :: 0 <= j < k < |s| ==> Time(h, s[j]) > Time(h, s[k]))
            && (forall k :: 0 <= k < |s| - 1 ==> h.tags[s[k]].next == s[k + 1] && h.tags[s[k + 1]].prev == s[k])
            && (s != [] ==> h.tags[s[|s| - 1]].next == NULL)
    decreases a != NULL, Time(h, a)
  {
    if a != NULL {
      assert Listed(h, a);
      ListFromOrdered(h, h.tags[a].next);
    }
  }

  lemma {:induction false} ListFromComplete(h: Heap, a: int, x: int)
    requires OnList(h, a) && a != NULL && x in h.tags && h.tags[x].index == h.tags[a].index
    requires Time(h, x) <= Time(h, a)
    ensures x in ListFrom(h, a)
    decreases Time(h, a)
  {
    assert Listed(h, a) && Listed(h, x);
    if x != a {
      assert Timed(h, x, a);
      NextOlder(h, a, x);
      ListFromComplete(h, h.tags[a].next, x);
    }
  }

  /** Free list i, as a sequence. */
  ghost function FreeList(h: Heap, i: int): seq<int>
    requires Lists(h) && 0 <= i < MAXEXP
  {
    assert Heads(h, i);
    ListFrom(h, h.free[i])
  }

  /** A tag has an index exactly when it is on the list of that index; no tag is on a list twice, and the
      links in both directions agree. */
  lemma FreeListAgrees(h: Heap, i: int)
    requires Lists(h) && 0 <= i < MAXEXP
    ensures var s := FreeList(h, i);
            && (forall x :: x in s <==> x in h.tags && h.tags[x].index == i)
            && (forall j, k :: 0 <= j < k < |s| ==> s[j] != s[k])
            && (forall k :: 0 <= k < |s| - 1 ==> h.tags[s[k]].next == s[k + 1] && h.tags[s[k + 1]].prev == s[k])
            && (s != [] ==> s[0] == h.free[i] && h.tags[s[0]].prev == NULL && h.tags[s[|s| - 1]].next == NULL)
  {
    var s := FreeList(h, i);
    assert Heads(h, i);
    ListFromOrdered(h, h.free[i]);
    if h.free[i] != NULL {
      assert Listed(h, h.free[i]);
    }
    forall x | x in h.tags && h.tags[x].index == i
      ensures x in s
    {
      HeadNewest(h, x);
      assert Listed(h, x);
      ListFromComplete(h, h.free[i], x);
    }
  }

  ghost function Extent(h: Heap, a: int): int {
    if a in h.tags then h.tags[a].realSize else 0
  }

  /** The entries of the list for their bytes are the free blocks of these sizes. */
  lemma FreeListSizes(l: Layout, h: Heap, i: int)
    requires Valid(l, h) && 0 <= i < MAXEXP
    ensures forall x :: x in FreeList(h, i) ==>
              x in h.tags &&
              var bytes := Extent(h, x) - l.header;
              i >= MINEXP && 0 <= bytes < Pow2(i + 1) && (i > MINEXP ==> Pow2(i) <= bytes)
  {
    FreeListAgrees(h, i);
    forall x | x in FreeList(h, i)
      ensures var bytes := h.tags[x].realSize - l.header;
              i >= MINEXP && 0 <= bytes < Pow2(i + 1) && (i > MINEXP ==> Pow2(i) <= bytes)
    {
      assert Fitting(l, h, x);
      BlockBytes(l, h, x);
      BucketBounds(h.tags[x].realSize - l.header);
    }
  }

  // The tiling of a region.

  /** The blocks of a region from tag a on, along splitRight. */
  ghost function ChainFrom(l: Layout, h: Heap, a: int): (s: seq<int>)
    requires Tiled(l, h) && a in h.tags
    ensures s != [] && s[0] == a
    decreases if a in h.home && h.home[a] in h.regions then End(l, h, h.home[a]) - a else 0
  {
    assert Linked(l, h, a);
    if h.tags[a].splitRight == NULL then [a] else [a] + ChainFrom(l, h, h.tags[a].splitRight)
  }

  ghost function Extents(h: Heap, s: seq<int>): int {
    if s == [] then 0 else Extent(h, s[0]) + Extents(h, s[1..])
  }

  lemma {:induction false} ChainTiles(l: Layout, h: Heap, a: int)
    requires Tiled(l, h) && a in h.tags
    ensures var s := ChainFrom(l, h, a);
            && a in h.home && h.home[a] in h.regions
            && (forall x :: x in s ==> x in h.tags && x in h.home && h.home[x] == h.home[a])
            && (forall k :: 0 <= k < |s| - 1 ==> s[k + 1] == s[k] + Extent(h, s[k]))
            && a + Extents(h, s) == End(l, h, h.home[a])
    decreases if a in h.home && h.home[a] in h.regions then End(l, h, h.home[a]) - a else 0
  {
    assert Linked(l, h, a);
    if h.tags[a].splitRight != NULL {
      var r := h.tags[a].splitRight;
      assert Linked(l, h, r);
      ChainTiles(l, h, r);
      assert ([a] + ChainFrom(l, h, r))[1..] == ChainFrom(l, h, r);
    }
  }

  lemma {:induction false} ChainGoesOn(l: Layout, h: Heap, a: int, x: int)
    requires Tiled(l, h) && a in h.tags && x in ChainFrom(l, h, a) && x in h.tags && h.tags[x].splitRight != NULL
    ensures h.tags[x].splitRight in ChainFrom(l, h, a)
    decreases if a in h.home && h.home[a] in h.regions then End(l, h, h.home[a]) - a else 0
  {
    assert Linked(l, h, a);
    if x == a {
      var r := h.tags[a].splitRight;
      assert Linked(l, h, r);
      assert ChainFrom(l, h, r)[0] == r;
    } else {
      ChainGoesOn(l, h, h.tags[a].splitRight, x);
    }
  }

  lemma {:induction false} ChainComplete(l: Layout, h: Heap, x: int)
    requires Tiled(l, h) && x in h.tags && x in h.home
    ensures h.home[x] in h.tags && x in ChainFrom(l, h, h.home[x])
    decreases x
  {
    assert Linked(l, h, x);
    assert Rooted(l, h, h.home[x]);
    if x != h.home[x] {
      var left := h.tags[x].splitLeft;
      assert Linked(l, h, left);
      ChainComplete(l, h, left);
      ChainGoesOn(l, h, h.home[x], left);
    }
  }

  /** The split chain of a region begins at its base and consists of exactly its blocks; each begins where
      the one in front ends, and their sizes add up to the pages of the region. */
  lemma RegionTiled(l: Layout, h: Heap, base: int)
    requires Tiled(l, h) && base in h.regions
    ensures base in h.tags
    ensures var s := ChainFrom(l, h, base);
            && (forall x :: x in s <==> x in h.tags && x in h.home && h.home[x] == base)
            && (forall k :: 0 <= k < |s| - 1 ==> s[k + 1] == s[k] + Extent(h, s[k]))
            && Extents(h, s) == h.regions[base] * l.page
  {
    assert Rooted(l, h, base);
    ChainTiles(l, h, base);
    forall x | x in h.tags && x in h.home && h.home[x] == base
      ensures x in ChainFrom(l, h, base)
    {
      ChainComplete(l, h, x);
    }
  }

  /** The bytes that a client uses: they lie inside the block, apart from its tag and from all other
      blocks with their tags. */
  lemma PayloadsApart(l: Layout, h: Heap, a: int, b: int)
    requires Valid(l, h) && a in h.tags && b in h.tags && a != b && !h.tags[a].Free()
    ensures 0 <= h.tags[a].size && a + l.header + h.tags[a].size <= a + h.tags[a].realSize
    ensures a + l.header + h.tags[a].size <= b || b + h.tags[b].realSize <= a
  {
    assert Fitting(l, h, a);
    assert Apart(h, a, b) && Apart(h, b, a);
  }
}
