/** What a client may rely on over all calls: given back is given back, and a block that is allocated and
    freed leaves no trace. */
module HeapTheorems {
  import opened HeapTags
  import opened HeapBlocks
  import opened HeapCoalescing
  import opened HeapAllocation

  // Regions do not overlap.

  /** Every address of a region lies in one of its blocks. */
  lemma {:induction false} BlockAt(l: Layout, h: Heap, a: int, p: int) returns (x: int)
    requires Tiled(l, h) && a in h.tags && a <= p && a in h.home && h.home[a] in h.regions && p < End(l, h, h.home[a])
    ensures x in h.tags && x in h.home && h.home[x] == h.home[a] && x <= p < x + h.tags[x].realSize
    decreases End(l, h, h.home[a]) - a
  {
    assert Linked(l, h, a);
    if p < a + h.tags[a].realSize {
      x := a;
    } else {
      assert Linked(l, h, h.tags[a].splitRight);
      x := BlockAt(l, h, h.tags[a].splitRight, p);
    }
  }

  /** A tag belongs to the region in which it lies. */
  lemma HomeUnique(l: Layout, h: Heap, base: int, a: int)
    requires Tiled(l, h) && a in h.tags && base in h.regions && base <= a < End(l, h, base)
    ensures a in h.home && h.home[a] == base
  {
    assert Rooted(l, h, base) && Linked(l, h, a);
    var x := BlockAt(l, h, base, a);
    assert Apart(h, x, a) && Linked(l, h, x);
  }

  /** Two regions have no address in common. */
  lemma RegionsApart(l: Layout, h: Heap, b: int, c: int)
    requires Tiled(l, h) && b in h.regions && c in h.regions && b < c
    ensures End(l, h, b) <= c
  {
    assert Rooted(l, h, c);
    if c < End(l, h, b) {
      HomeUnique(l, h, b, c);
    }
  }

  // Giving back.

  /** The block is not in use any more, and nothing else changes for the client. */
  lemma FreesLive(l: Layout, h: Heap, h': Heap, a: int, released: int, pages: int)
    requires Valid(l, h) && a in Live(h) && Frees(l, h, h', a, released, pages)
    ensures Live(h') == Live(h) - {a}
  {
    var x := SpaceStart(h, a);
    forall y | y in Space(h, a) && y != a
      ensures y in h.tags && h.tags[y].Free()
    {}
    forall y
      ensures y in Live(h') <==> y in Live(h) && y != a
      ensures y in Live(h') ==> Live(h')[y] == Live(h)[y]
    {
      if y in Space(h, a) {
        assert y in h'.tags <==> y in View(h');
      } else {
        assert y in View(h') <==> y in View(h);
        if y in h.tags {
          assert View(h')[y] == View(h)[y];
          LiveOfView(h, h', y);
        }
      }
    }
  }

  /** A region goes back exactly when giving the block back leaves it empty and five empty regions stand by on
      its list. */
  lemma FiveStandBy(l: Layout, h: Heap, h': Heap, a: int, released: int, pages: int, e: nat)
    requires Valid(l, h) && a in Live(h) && Frees(l, h, h', a, released, pages)
    requires OfList(e, SpaceEnd(h, a) - SpaceStart(h, a) - l.header) && e < 32
    ensures released != 0
       <==> WholeSpace(l, h, a)
            && |set x | x in h.tags && h.tags[x].index == e && h.tags[x].splitLeft == 0 == h.tags[x].splitRight| == 5
  {
    hide Bucket;
    ListOf(e, SpaceEnd(h, a) - SpaceStart(h, a) - l.header);
    assert Counted(h, e);
    var whole := set x | x in h.tags && h.tags[x].index == e && h.tags[x].splitLeft == 0 == h.tags[x].splitRight;
    forall x
      ensures x in whole <==> x in WholeOn(h, e)
    {}
    assert WholeOn(h, e) == whole;
    assert Linked(l, h, a);
    assert SpaceStart(h, a) != NULL;
  }

  // A block allocated from a list and freed again.

  /** h1 is h after a request met by the free block a. */
  ghost predicate Borrowed(l: Layout, h: Heap, h1: Heap, size: int, a: int) {
    && Valid(l, h) && Valid(l, h1) && 0 <= size && a in h.tags && h.tags[a].Free()
    && l.header + size <= h.tags[a].realSize - l.header
    && h1.regions == h.regions && View(h1) == Granted(l, View(h), a, size, h.tags[a].realSize)
  }

  lemma BorrowedTag(l: Layout, h: Heap, h1: Heap, size: int, a: int, x: int)
    requires Borrowed(l, h, h1, size, a) && x in h1.tags
    ensures a in h1.tags && !h1.tags[a].Free()
    ensures var extent := h.tags[a].realSize;
            var c := a + l.header + size;
            && h1.tags[a].realSize == (if Splits(l, size, extent) then l.header + size else extent)
            && (Splits(l, size, extent) ==>
                  c in h1.tags && h1.tags[c].Free() && h1.tags[c].realSize == extent - l.header - size)
            && (x != a && !(Splits(l, size, extent) && x == c) ==>
                  x in h.tags && h1.tags[x].Free() == h.tags[x].Free() && h1.tags[x].realSize == h.tags[x].realSize)
  {
    var v := View(h1);
    assert a in v && v[a] == BlockOf(h1.tags[a]);
    assert x in v && v[x] == BlockOf(h1.tags[x]);
    if Splits(l, size, h.tags[a].realSize) {
      var c := a + l.header + size;
      assert c in v && v[c] == BlockOf(h1.tags[c]);
    }
  }

  lemma BorrowedHome(l: Layout, h: Heap, h1: Heap, size: int, a: int)
    requires Borrowed(l, h, h1, size, a)
    ensures a in h.home && a in h1.home && h.home[a] in h.regions && h1.home[a] == h.home[a]
    ensures a + h.tags[a].realSize <= End(l, h, h.home[a]) == End(l, h1, h.home[a])
  {
    assert Linked(l, h, a);
    assert a in View(h1);
    HomeUnique(l, h1, h.home[a], a);
  }

  /** The block in front of a free one is in use. */
  lemma UsedInFront(l: Layout, h: Heap, a: int, w: int)
    requires Valid(l, h) && a in h.tags && h.tags[a].Free() && h.tags[a].splitLeft != NULL
    requires w in h.tags && w + h.tags[w].realSize == a
    ensures !h.tags[w].Free()
  {
    assert Linked(l, h, a) && Linked(l, h, w);
    var left := h.tags[a].splitLeft;
    assert Linked(l, h, left) && Alone(h, left) && Apart(h, w, left) && Apart(h, left, w);
  }

  lemma BorrowedLeft(l: Layout, h: Heap, h1: Heap, size: int, a: int)
    requires Borrowed(l, h, h1, size, a)
    ensures a in h1.tags && !LeftFree(h1, a)
  {
    BorrowedHome(l, h, h1, size, a);
    assert a in View(h1);
    assert Linked(l, h, a) && Linked(l, h1, a);
    if LeftFree(h1, a) {
      var w := h1.tags[a].splitLeft;
      BorrowedTag(l, h, h1, size, a, w);
      UsedInFront(l, h, a, w);
    }
  }

  lemma BorrowedRight(l: Layout, h: Heap, h1: Heap, size: int, a: int)
    requires Borrowed(l, h, h1, size, a)
    ensures a in h1.tags && SpaceEnd(h1, a) == a + h.tags[a].realSize
    ensures RightFree(h1, a) == Splits(l, size, h.tags[a].realSize)
    ensures RightFree(h1, a) ==> h1.tags[a].splitRight == a + l.header + size
  {
    BorrowedHome(l, h, h1, size, a);
    assert a in View(h1);
    BorrowedTag(l, h, h1, size, a, a);
    assert Linked(l, h, a) && Linked(l, h1, a) && Alone(h, a);
    if !Splits(l, size, h.tags[a].realSize) && RightFree(h1, a) {
      BorrowedTag(l, h, h1, size, a, h1.tags[a].splitRight);
    }
  }

  lemma {:induction false} SubsetSize<T>(s: set<T>, t: set<T>)
    requires s <= t
    ensures |s| <= |t|
    decreases |s|
  {
    if x :| x in s {
      SubsetSize(s - {x}, t - {x});
    }
  }

  lemma Fewer<T>(s: set<T>, t: set<T>, a: T)
    requires s <= t && a in t && a !in s
    ensures |s| < |t|
  {
    assert s <= t - {a};
    SubsetSize(s, t - {a});
  }

  lemma BorrowedWhole(l: Layout, h: Heap, h1: Heap, size: int, a: int, x: int)
    requires Borrowed(l, h, h1, size, a) && x in h1.tags && h1.tags[x].Whole()
    ensures x != a && x in h.tags && h.tags[x].Whole() && h.tags[x].realSize == h1.tags[x].realSize
  {
    BorrowedTag(l, h, h1, size, a, x);
    BorrowedHome(l, h, h1, size, a);
    assert Linked(l, h1, x) && Linked(l, h, a);
    var c := a + l.header + size;
    if x == c && Splits(l, size, h.tags[a].realSize) {
      HomeUnique(l, h1, h.home[a], c);
    } else {
      assert Rooted(l, h, x) && Linked(l, h, x);
      assert End(l, h, x) == End(l, h1, x);
    }
  }

  /** In h1 there is one whole region less on the list if a is one. */
  lemma BorrowedCount(l: Layout, h: Heap, h1: Heap, size: int, a: int)
    requires Borrowed(l, h, h1, size, a) && h.tags[a].Whole()
    ensures var i := Bucket(h.tags[a].realSize - l.header); 0 <= i < MAXEXP && h1.complete[i] < MAXCOMPLETE
  {
    hide Bucket;
    var i := Bucket(h.tags[a].realSize - l.header);
    assert Fitting(l, h, a) && Listed(h, a);
    assert Counted(h, i) && Counted(h1, i);
    forall x | x in WholeOn(h1, i)
      ensures x in WholeOn(h, i) && x != a
    {
      BorrowedWhole(l, h, h1, size, a, x);
      assert Fitting(l, h, x) && Fitting(l, h1, x);
    }
    assert a in WholeOn(h, i);
    Fewer(WholeOn(h1, i), WholeOn(h, i), a);
  }

  lemma RestoredView(l: Layout, v: map<int, Block>, a: int, size: int, extent: int, space: set<int>)
    requires a in v && v[a] == Unused(extent)
    requires space == if Splits(l, size, extent) then {a, a + l.header + size} else {a}
    ensures a + l.header + size !in v || !Splits(l, size, extent) ==>
              (Granted(l, v, a, size, extent) - space)[a := Unused(extent)] == v
  {}

  /** Freeing a block that was taken from a list restores all blocks, and nothing goes to the page layer. */
  lemma FreeUndoesMalloc(l: Layout, h: Heap, h1: Heap, h2: Heap, size: int, offer: int, a: int, released: int,
                         pages: int)
    requires Valid(l, h) && Valid(l, h1) && 0 <= size
    requires Allocates(l, h, h1, size, offer, a) && exists x :: Fits(l, h, Bucket(size), size, x)
    requires a in h1.tags && Frees(l, h1, h2, a, released, pages)
    ensures View(h2) == View(h) && h2.regions == h.regions && released == NULL
  {
    hide Bucket;
    assert Fits(l, h, Bucket(size), size, a);
    var extent := h.tags[a].realSize;
    assert Borrowed(l, h, h1, size, a);
    BorrowedLeft(l, h, h1, size, a);
    BorrowedRight(l, h, h1, size, a);
    if WholeSpace(l, h1, a) {
      BorrowedHome(l, h, h1, size, a);
      assert Linked(l, h, a);
      BorrowedCount(l, h, h1, size, a);
    }
    assert View(h2) == Outside(h1, a)[a := Unused(extent)];
    RestoredView(l, View(h), a, size, extent, Space(h1, a));
    CutIsNew(l, h, a, size, extent);
  }

  lemma ForgottenView(l: Layout, v: map<int, Block>, a: int, size: int, extent: int, space: set<int>)
    requires a !in v && (Splits(l, size, extent) ==> a + l.header + size !in v)
    requires space == if Splits(l, size, extent) then {a, a + l.header + size} else {a}
    ensures Granted(l, v, a, size, extent) - space == v
  {}

  lemma NewRegionSpace(l: Layout, h: Heap, h1: Heap, size: int, base: int)
    requires Valid(l, h) && Valid(l, h1) && 0 <= size && Requestable(l, size) && base !in h.tags
             && base in h1.regions && base in h1.tags
    requires h1.regions[base] == PagesFor(l, size)
    requires View(h1) == Granted(l, View(h), base, size, PagesFor(l, size) * l.page)
    ensures var extent := PagesFor(l, size) * l.page;
            && SpaceStart(h1, base) == base && SpaceEnd(h1, base) == base + extent
            && Space(h1, base) == if Splits(l, size, extent) then {base, base + l.header + size} else {base}
  {
    var extent := PagesFor(l, size) * l.page;
    assert Rooted(l, h1, base) && Linked(l, h1, base);
    assert base in View(h1) && View(h1)[base] == BlockOf(h1.tags[base]);
    if Splits(l, size, extent) {
      var c := base + l.header + size;
      assert c in View(h1) && View(h1)[c] == BlockOf(h1.tags[c]);
    }
  }

  /** Freeing a block for which a region had to be obtained leaves that region as one free block, or gives
      it back. */
  lemma FreeAfterNewRegion(l: Layout, h: Heap, h1: Heap, h2: Heap, size: int, base: int, released: int, pages: int)
    requires Valid(l, h) && Valid(l, h1) && 0 <= size && Requestable(l, size)
    requires Allocates(l, h, h1, size, base, base) && forall x :: !Fits(l, h, Bucket(size), size, x)
    requires Offered(l, h, base, PagesFor(l, size)) && base in h1.tags && Frees(l, h1, h2, base, released, pages)
    ensures if released == NULL then View(h2) == View(h)[base := Unused(PagesFor(l, size) * l.page)]
            else View(h2) == View(h) && h2.regions == h.regions && released == base && pages == PagesFor(l, size)
  {
    hide Bucket;
    var extent := PagesFor(l, size) * l.page;
    OfferedNew(l, h, base, PagesFor(l, size));
    NewRegionSpace(l, h, h1, size, base);
    CutIsNew(l, h, base, size, extent);
    ForgottenView(l, View(h), base, size, extent, Space(h1, base));
  }
}
