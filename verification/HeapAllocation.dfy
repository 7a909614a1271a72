/** What an allocation does, in terms of the blocks. */
module HeapAllocation {
  import opened Powers
  import opened HeapTags
  import opened HeapSteps
  import opened HeapBlocks
  import opened HeapCoalescing
  import opened HeapLists

  /** The free block x on list i is large enough for a request and a further tag. */
  ghost predicate Fits(l: Layout, h: Heap, i: int, size: int, x: int) {
    x in h.tags && i >= 0 && h.tags[x].index == i && h.tags[x].realSize - l.header >= size + l.header
  }

  lemma Rounded(usage: int, page: int, pages: int)
    requires page > 0 && pages == usage / page + (if usage % page != 0 then 1 else 0)
    ensures usage <= pages * page && (pages - 1) * page < usage
  {
    var q := usage / page;
    assert usage == q * page + usage % page;
    if usage % page == 0 {
      assert (pages - 1) * page == q * page - page;
    } else {
      assert pages * page == q * page + page;
    }
  }

  /** The pages asked for when no block fits: as many as the request and a tag need, but at least the
      minimum. */
  function PagesFor(l: Layout, size: int): (pages: int)
    requires l.Valid() && 0 <= size
    ensures MIN_PAGES <= pages && l.header + size <= pages * l.page
    ensures pages == MIN_PAGES || (pages - 1) * l.page < l.header + size
  {
    var usage := size + l.header;
    var pages := usage / l.page + (if usage % l.page != 0 then 1 else 0);
    Rounded(usage, l.page, pages);
    if pages < MIN_PAGES then
      Multiples(pages, MIN_PAGES, l.page);
      MIN_PAGES
    else pages
  }

  /** The sizes whose pages, if it comes to that, stay below the limit. */
  predicate Requestable(l: Layout, size: int) {
    0 <= size && size + l.header + l.page <= LIMIT
  }

  /** The pages for such a size make a region of a size below the limit. */
  lemma PagesFit(l: Layout, size: int)
    requires l.Valid() && Requestable(l, size)
    ensures PagesFor(l, size) * l.page < LIMIT
  {
    var pages := PagesFor(l, size);
    assert (pages - 1) * l.page == pages * l.page - l.page;
  }

  /** What is left of a block of the given extent behind the tag, the payload and a further tag is worth a
      block of its own. */
  predicate Splits(l: Layout, size: int, extent: int) {
    256 <= extent - size - 2 * l.header
  }

  /** Block a, with this extent, in use for a request of this size, and what is left of it. */
  function Granted(l: Layout, v: map<int, Block>, a: int, size: int, extent: int): map<int, Block> {
    if Splits(l, size, extent)
    then v[a := Used(size, l.header + size)][a + l.header + size := Unused(extent - l.header - size)]
    else v[a := Used(size, extent)]
  }

  /** The rest that is cut off is the latest on its list; nothing else is put on a list. */
  ghost predicate Restamped(l: Layout, h: Heap, h': Heap, a: int, size: int, extent: int) {
    h'.stamp == if Splits(l, size, extent) then h.stamp[a + l.header + size := h.clock] else h.stamp
  }

  /** The request can be met: some block on its list fits, or the page layer has pages. */
  ghost predicate Served(l: Layout, h: Heap, size: int, offer: int) {
    offer != NULL || exists x :: Fits(l, h, Bucket(size), size, x)
  }

  /** The block for a request: of the fitting blocks on the list for its size the one put there last; only
      when there is none, the one that is a new region. */
  ghost predicate Chosen(l: Layout, h: Heap, regions: map<int, int>, size: int, offer: int, a: int)
    requires l.Valid() && 0 <= size
  {
    var i := Bucket(size);
    if exists x :: Fits(l, h, i, size, x) then
      && Fits(l, h, i, size, a) && (forall x :: Fits(l, h, i, size, x) ==> Time(h, x) <= Time(h, a))
      && regions == h.regions
    else
      a == offer && regions == h.regions[offer := PagesFor(l, size)]
  }

  /** The extent of that block before it is cut. */
  ghost function ExtentFor(l: Layout, h: Heap, size: int, a: int): int
    requires l.Valid() && 0 <= size
  {
    if a in h.tags then h.tags[a].realSize else PagesFor(l, size) * l.page
  }

  ghost predicate Allocates(l: Layout, h: Heap, h': Heap, size: int, offer: int, a: int)
    requires l.Valid() && 0 <= size
  {
    && Chosen(l, h, h'.regions, size, offer, a) && View(h') == Granted(l, View(h), a, size, ExtentFor(l, h, size, a))
    && Restamped(l, h, h', a, size, ExtentFor(l, h, size, a))
  }

  /** The requested sizes of the blocks in use. */
  ghost function Live(h: Heap): map<int, int> {
    map a | a in h.tags && !h.tags[a].Free() :: h.tags[a].size
  }

  lemma LiveOfView(h: Heap, h': Heap, a: int)
    requires a in h.tags && a in h'.tags && View(h)[a] == View(h')[a]
    ensures h.tags[a].Free() == h'.tags[a].Free() && (!h.tags[a].Free() ==> h.tags[a].size == h'.tags[a].size)
  {}

  lemma CutIsNew(l: Layout, h: Heap, a: int, size: int, extent: int)
    requires Tiled(l, h) && 0 <= size
    requires if a in h.tags then h.tags[a].realSize == extent
             else Offered(l, h, a, PagesFor(l, size)) && extent == PagesFor(l, size) * l.page
    ensures Splits(l, size, extent) ==> a + l.header + size !in h.tags
  {
    var c := a + l.header + size;
    if Splits(l, size, extent) && a in h.tags {
      assert c in h.tags ==> Apart(h, a, c);
    } else if Splits(l, size, extent) {
      forall x | x in h.tags
        ensures x != c
      {
        OfferedApart(l, h, a, PagesFor(l, size), x);
        assert Linked(l, h, x);
      }
    }
  }

  /** The block handed out was not in use, and nothing else changes for the client. */
  lemma AllocatesLive(l: Layout, h: Heap, h': Heap, size: int, offer: int, a: int)
    requires Valid(l, h) && 0 <= size && Allocates(l, h, h', size, offer, a)
    requires (forall x :: !Fits(l, h, Bucket(size), size, x)) ==> Offered(l, h, offer, PagesFor(l, size))
    ensures a !in Live(h) && Live(h') == Live(h)[a := size]
  {
    var extent := ExtentFor(l, h, size, a);
    if forall x :: !Fits(l, h, Bucket(size), size, x) {
      OfferedNew(l, h, offer, PagesFor(l, size));
    }
    assert a in h.tags ==> h.tags[a].Free();
    var c := a + l.header + size;
    assert Splits(l, size, extent) ==> c !in h.tags by {
      CutIsNew(l, h, a, size, extent);
    }
    assert Live(h').Keys == Live(h)[a := size].Keys by {
      forall x
        ensures x in Live(h') <==> x in Live(h)[a := size]
      {
        if x != a && x != c && x in h.tags { LiveOfView(h, h', x); }
        assert x in View(h') <==> x in h'.tags;
        assert a in View(h') && View(h')[a].Used?;
      }
    }
    forall x | x in Live(h')
      ensures Live(h')[x] == Live(h)[a := size][x]
    {
      if x != a { LiveOfView(h, h', x); }
    }
  }

  lemma GrantedBlocks(l: Layout, v: map<int, Block>, v': map<int, Block>, a: int, size: int, extent: int)
    requires l.Valid() && 0 <= size && v' == Granted(l, v, a, size, extent)
    ensures a in v'
    ensures if extent >= size + 2 * l.header + 256
            then v'[a] == Used(size, l.header + size) && a + l.header + size in v'
                 && v'[a + l.header + size] == Unused(extent - l.header - size)
            else v'[a] == Used(size, extent)
  {}

  lemma UsedAndNext(l: Layout, h: Heap, a: int)
    requires Valid(l, h) && a in h.tags && !h.tags[a].Free()
    ensures l.header + h.tags[a].size <= h.tags[a].realSize
  {
    assert Fitting(l, h, a);
  }

  /** What a request leaves of the block it is met from: less than 256 bytes and a tag more than it needs,
      and if there was more than that, a free block right behind it. */
  lemma GrantIsTight(l: Layout, h: Heap, h': Heap, size: int, offer: int, a: int)
    requires Valid(l, h') && 0 <= size && Allocates(l, h, h', size, offer, a)
    ensures a in h'.tags && !h'.tags[a].Free() && h'.tags[a].size == size
    ensures l.header + size <= h'.tags[a].realSize < size + 2 * l.header + 256
    ensures var extent := if a in h.tags then h.tags[a].realSize else PagesFor(l, size) * l.page;
            var c := a + l.header + size;
            if extent >= size + 2 * l.header + 256 then
              && h'.tags[a].realSize == l.header + size && c in h'.tags
              && h'.tags[c].Free() && h'.tags[c].realSize == extent - l.header - size
            else h'.tags[a].realSize == extent
  {
    hide Chosen, Granted, PagesFor;
    assert l.Valid();
    var extent := ExtentFor(l, h, size, a);
    GrantedBlocks(l, View(h), View(h'), a, size, extent);
    assert View(h')[a] == BlockOf(h'.tags[a]);
    UsedAndNext(l, h', a);
    if extent >= size + 2 * l.header + 256 {
      var c := a + l.header + size;
      assert View(h')[c] == BlockOf(h'.tags[c]);
    }
  }

  /** The bytes of list e: from 8 on a power of two up to the next, below 8 none, on list 8 also all smaller. */
  predicate OfList(e: nat, bytes: int) {
    8 <= e && 0 <= bytes < Pow2(e + 1) && (e == 8 || Pow2(e) <= bytes)
  }

  lemma ListOf(e: nat, bytes: int)
    requires OfList(e, bytes)
    ensures Bucket(bytes) == e
  {
    Pow2Words();
    assert Pow2(9) == 512;
    Pow2Grows(8, e);
    if bytes >= 256 {
      Log2Unique(bytes, e);
    }
  }

  lemma BytesOfIndex(l: Layout, h: Heap, x: int, e: nat)
    requires Valid(l, h) && x in h.tags && h.tags[x].Free() && 8 <= e
    ensures OfList(e, h.tags[x].realSize - l.header) <==> h.tags[x].index == e
  {
    var bytes := h.tags[x].realSize - l.header;
    assert Fitting(l, h, x);
    BlockBytes(l, h, x);
    BucketBounds(bytes);
    if OfList(e, bytes) {
      ListOf(e, bytes);
    }
  }

  /** A request fails exactly when the page layer has no pages and every free block of the sizes that go on the
      list of the request is too small for it and one more tag. */
  lemma ServedExactly(l: Layout, h: Heap, size: int, offer: int, e: nat)
    requires Valid(l, h) && OfList(e, size)
    ensures !Served(l, h, size, offer)
       <==> offer == 0 && forall x :: x in h.tags && h.tags[x].Free() && OfList(e, h.tags[x].realSize - l.header) ==>
                                h.tags[x].realSize < size + 2 * l.header
  {
    hide Bucket;
    ListOf(e, size);
    forall x | x in h.tags && h.tags[x].Free()
      ensures OfList(e, h.tags[x].realSize - l.header) <==> h.tags[x].index == e
    {
      BytesOfIndex(l, h, x, e);
    }
    if !Served(l, h, size, offer) {
      forall x | x in h.tags && h.tags[x].Free() && OfList(e, h.tags[x].realSize - l.header)
        ensures h.tags[x].realSize < size + 2 * l.header
      {
        assert !Fits(l, h, e, size, x);
      }
    }
  }

  /** A request that is met from a list gets the first block on it that is large enough. */
  lemma ChosenFirst(l: Layout, h: Heap, regions: map<int, int>, size: int, offer: int, a: int)
    requires Valid(l, h) && 0 <= size < WORD && Chosen(l, h, regions, size, offer, a)
    requires exists x :: Fits(l, h, Bucket(size), size, x)
    ensures 0 <= Bucket(size) < MAXEXP
    ensures var s := FreeList(h, Bucket(size));
            exists k :: 0 <= k < |s| && s[k] == a && Extent(h, a) >= size + 2 * l.header
                        && forall j :: 0 <= j < k ==> Extent(h, s[j]) < size + 2 * l.header
  {
    hide Bucket;
    BucketBounds(size);
    var i := Bucket(size);
    var s := FreeList(h, i);
    FreeListAgrees(h, i);
    ListFromOrdered(h, h.free[i]);
    assert Fits(l, h, i, size, a) && a in s;
    var k :| 0 <= k < |s| && s[k] == a;
    forall j | 0 <= j < k
      ensures Extent(h, s[j]) < size + 2 * l.header
    {
      assert s[j] in s && Time(h, s[j]) > Time(h, a);
      assert !Fits(l, h, i, size, s[j]);
    }
  }

  /** At least sixteen pages, and otherwise no more than are needed. */
  lemma SixteenPages(l: Layout, size: int)
    requires l.Valid() && 0 <= size
    ensures PagesFor(l, size) >= 16 && PagesFor(l, size) * l.page >= l.header + size
    ensures PagesFor(l, size) > 16 ==> (PagesFor(l, size) - 1) * l.page < l.header + size
  {}

  // The steps of an allocation.

  /** A block from a list, about to be used, has no free neighbour. */
  lemma TakenAlone(l: Layout, h: Heap, a: int)
    requires Valid(l, h) && a in h.tags && h.tags[a].Free()
    ensures Listed(h, a) && AtWork(l, TakenOff(h, a), a)
    ensures !LeftFree(TakenOff(h, a), a) && !RightFree(TakenOff(h, a), a)
    ensures TakenOff(h, a).tags[a].realSize == h.tags[a].realSize && TakenOff(h, a).regions == h.regions
  {
    hide Removed;
    TakenOffKeeps(l, h, {}, a);
    RemovedTag(h, a, a);
    var left, right := h.tags[a].splitLeft, h.tags[a].splitRight;
    assert Linked(l, h, a) && Alone(h, a);
    if left in h.tags {
      assert Linked(l, h, left) && Alone(h, left);
      RemovedTag(h, a, left);
    }
    if right in h.tags {
      RemovedTag(h, a, right);
    }
  }

  predicate CanCut(l: Layout, h: Heap, a: int, junk: int) {
    && a in h.tags && (h.tags[a].splitRight != NULL ==> h.tags[a].splitRight in h.tags) && a in h.home
    && var s, c := SplitOff(l, h, a, junk), Cut(l, h, a);
    && c in s.tags
    && 0 <= s.tags[c].realSize - l.header < WORD
    && var i := Bucket(s.tags[c].realSize - l.header);
    0 <= i < |s.free| == MAXEXP && (s.free[i] != NULL ==> s.free[i] in s.tags && s.free[i] != c)
  }

  /** The state after the rest of block a is cut off and put on its list. */
  function Shortened(l: Layout, h: Heap, a: int, junk: int): Heap
    requires CanCut(l, h, a, junk)
  {
    var s, c := SplitOff(l, h, a, junk), Cut(l, h, a);
    Inserted(s, c, Bucket(s.tags[c].realSize - l.header))
  }

  lemma CutReady(l: Layout, h: Heap, a: int, junk: int)
    requires Valid(l, h) && CanSplit(l, h, a)
    ensures Linked(l, h, a) && (h.tags[a].splitRight != NULL ==> h.tags[a].splitRight in h.tags) && a in h.home
    ensures var s, c := SplitOff(l, h, a, junk), Cut(l, h, a);
            && ValidBut(l, s, {c}) && c in s.tags
            && s.tags[c].realSize == h.tags[a].realSize - l.header - h.tags[a].size
            && 0 <= s.tags[c].realSize - l.header < WORD && s.tags[c].splitLeft == a
            && s.tags[c].splitRight == h.tags[a].splitRight
            && !s.tags[a].Free() && s.regions == h.regions && s.stamp == h.stamp && s.clock == h.clock
            && CanInsert(s, c, Bucket(s.tags[c].realSize - l.header))
  {
    hide SplitOff, Bucket;
    CanSplitLinked(l, h, a);
    SplitTag(l, h, a, junk, a);
    SplitKeeps(l, h, {}, a, junk);
    assert {} + {Cut(l, h, a)} == {Cut(l, h, a)};
    BlockBytes(l, h, a);
    BucketBounds(h.tags[a].realSize - l.header - h.tags[a].size - l.header);
  }

  /** The right neighbour of the part cut off is that of the block. */
  lemma CutNeighbour(l: Layout, h: Heap, a: int, junk: int)
    requires CanSplit(l, h, a) && Linked(l, h, a) && !RightFree(h, a)
    ensures var s := SplitOff(l, h, a, junk);
            h.tags[a].splitRight in s.tags ==> !s.tags[h.tags[a].splitRight].Free()
  {
    hide SplitOff;
    CanSplitLinked(l, h, a);
    SplitTag(l, h, a, junk, a);
    if h.tags[a].splitRight in h.tags {
      SplitTag(l, h, a, junk, h.tags[a].splitRight);
    }
  }

  lemma ShortenedKeeps(l: Layout, h: Heap, a: int, junk: int)
    requires Valid(l, h) && CanSplit(l, h, a) && !RightFree(h, a)
    ensures CanCut(l, h, a, junk) && Valid(l, Shortened(l, h, a, junk))
    ensures Shortened(l, h, a, junk).regions == h.regions
            && Shortened(l, h, a, junk).stamp == h.stamp[Cut(l, h, a) := h.clock]
    ensures var size := h.tags[a].size;
            View(Shortened(l, h, a, junk))
            == View(h)[a := Used(size, l.header + size)][Cut(l, h, a) := Unused(h.tags[a].realSize - l.header - size)]
  {
    hide SplitOff, Bucket, View, Linked, CanSplit;
    CutReady(l, h, a, junk);
    CutNeighbour(l, h, a, junk);
    var s, c := SplitOff(l, h, a, junk), Cut(l, h, a);
    var i := Bucket(s.tags[c].realSize - l.header);
    CanInsertHead(s, c, i);
    NotNull(l, h, a);
    assert {c} - {c} == {};
    PutBackKeeps(l, s, {c}, c, i);
    PutBackView(s, c, i);
    SplitView(l, h, a, junk);
  }

  /** Block a is in use and needs only its size and perhaps a cut to be the block that is handed out. */
  ghost predicate Granting(l: Layout, h: Heap, h': Heap, a: int, extent: int) {
    && AtWork(l, h', a) && !RightFree(h', a) && h'.tags[a].realSize == extent && h'.stamp == h.stamp
    && h'.clock == h.clock
    && View(h') - {a} == View(h) - {a}
  }

  lemma TakenGranting(l: Layout, h: Heap, a: int)
    requires Valid(l, h) && a in h.tags && h.tags[a].Free()
    ensures CanRemove(h, a) && Listed(h, a) && Granting(l, h, TakenOff(h, a), a, h.tags[a].realSize)
  {
    TakenAlone(l, h, a);
    TakenOffView(h, a);
  }

  lemma ObtainedGranting(l: Layout, h: Heap, base: int, size: int)
    requires Valid(l, h) && Requestable(l, size) && Offered(l, h, base, PagesFor(l, size))
    ensures base !in h.tags
            && Granting(l, h, Obtained(l, h, base, PagesFor(l, size), size), base, PagesFor(l, size) * l.page)
  {
    var pages := PagesFor(l, size);
    var h' := Obtained(l, h, base, pages, size);
    PagesFit(l, size);
    ObtainedKeeps(l, h, base, pages, size);
    ValidWeakens(l, h', {}, base);
    assert {} + {base} == {base};
    assert NULL !in h'.tags;
    assert View(h') - {base} == View(h) - {base};
  }

  lemma SizedView(l: Layout, h: Heap, h': Heap, a: int, size: int, extent: int)
    requires Granting(l, h, h', a, extent) && 0 <= size && l.header + size <= extent
    ensures Valid(l, Resized(h', a, size)) && !RightFree(Resized(h', a, size), a)
    ensures Granted(l, View(Resized(h', a, size)), a, size, extent) == Granted(l, View(h), a, size, extent)
  {
    hide View;
    ResizedKeeps(l, h', {a}, a, size);
    assert {a} - {a} == {};
    SetAgain(View(h), View(Resized(h', a, size)), a, Used(size, extent));
    SetAgain(View(h), View(Resized(h', a, size)), a, Used(size, l.header + size));
  }
}
