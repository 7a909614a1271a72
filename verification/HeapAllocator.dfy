/** The allocator: the fields and the operations of the kernel heap. */
module HeapAllocator {
  import opened HeapTags
  import opened HeapSteps
  import opened HeapBlocks
  import opened HeapCoalescing
  import opened HeapLists
  import opened HeapAllocation

  /** A heap without regions. */
  ghost function Empty(): Heap {
    Heap(map[], seq(MAXEXP, _ => NULL), seq(MAXEXP, _ => 0), map[], map[], map[], 0)
  }

  lemma EmptyValid(l: Layout)
    requires l.Valid()
    ensures Valid(l, Empty())
  {
    forall i | 0 <= i < MAXEXP
      ensures Counted(Empty(), i)
    {
      assert WholeOn(Empty(), i) == {};
    }
  }

  /** A 32-bit word, unsigned and signed. */
  function U32(x: int): int {
    x % WORD
  }

  function I32(x: int): int {
    if U32(x) < 0x8000_0000 then U32(x) else U32(x) - WORD
  }

  lemma WorkBytes(l: Layout, h: Heap, a: int)
    requires AtWork(l, h, a)
    ensures CanReturn(l, h, a) || h.tags[a].splitLeft != NULL || h.tags[a].splitRight != NULL
    ensures 0 <= h.tags[a].realSize - l.header < WORD && MINEXP <= Bucket(h.tags[a].realSize - l.header) < MAXEXP
  {
    BlockBytes(l, h, a);
    BucketBounds(h.tags[a].realSize - l.header);
  }

  lemma LiveAtWork(l: Layout, h: Heap, a: int)
    requires Valid(l, h) && a in Live(h)
    ensures AtWork(l, h, a) && h.tags[a].magic == MAGIC
  {
    assert Linked(l, h, a);
    ValidWeakens(l, h, {}, a);
    assert {} + {a} == {a};
  }

  lemma WorkLinked(l: Layout, h: Heap, a: int)
    requires AtWork(l, h, a)
    ensures Linked(l, h, a) && NULL !in h.tags
  {
    assert Linked(l, h, a);
  }

  lemma MergedRest(h: Heap, x: int, y: int)
    requires x in h.tags && y in h.tags && x != y && (h.tags[y].splitRight != NULL ==> h.tags[y].splitRight in h.tags)
    ensures Merged(h, x, y).free == h.free
  {}

  /** Melting to the left takes the tag off its list only afterwards. */
  lemma MeltReadyLeft(l: Layout, h: Heap, a: int)
    requires AtWork(l, h, a) && LeftFree(h, a)
    ensures var x := h.tags[a].splitLeft;
            && x != a
            && (h.tags[a].splitRight != NULL ==>
                  h.tags[a].splitRight in h.tags && h.tags[a].splitRight !in {a, x})
            && CanMelt(l, h, x, a, x)
            && var m := Merged(h, x, a);
            && x in m.tags && 0 <= m.tags[x].index < MAXEXP
            && (m.tags[x].prev != NULL ==> m.tags[x].prev in m.tags && m.tags[x].prev != x)
            && (m.tags[x].next != NULL ==> m.tags[x].next in m.tags && m.tags[x].next != x)
            && |m.free| == MAXEXP && Removed(m, x) == Melted(h, x, a, x)
  {
    hide Removed, Merged;
    var x := h.tags[a].splitLeft;
    assert Linked(l, h, a) && Linked(l, h, x) && Listed(h, x);
    if h.tags[a].splitRight != NULL {
      assert Linked(l, h, h.tags[a].splitRight);
    }
    MeltReady(l, h, {a}, x, a, x);
    MeltCommutes(l, h, x, a);
    MergedRest(h, x, a);
  }

  /** A chosen block does not have the address 0, and there is a choice when the page layer offers one. */
  lemma ChosenPositive(l: Layout, h: Heap, regions: map<int, int>, size: int, offer: int, a: int)
    requires Valid(l, h) && 0 <= size && Chosen(l, h, regions, size, offer, a) && a != NULL
    requires offer != NULL ==> Offered(l, h, offer, PagesFor(l, size))
    ensures a > 0 && Served(l, h, size, offer)
  {
    if a in h.tags {
      assert Linked(l, h, a);
    }
  }

  lemma NoneInFront(l: Layout, h: Heap, i: int, size: int)
    requires Lists(h) && 0 <= i < MAXEXP
    ensures forall x :: Fits(l, h, i, size, x) ==> h.free[i] != NULL && Time(h, x) <= Time(h, h.free[i])
  {
    forall x | Fits(l, h, i, size, x)
      ensures h.free[i] != NULL && Time(h, x) <= Time(h, h.free[i])
    {
      HeadNewest(h, x);
      assert Listed(h, x);
    }
  }

  lemma NoneSkipped(l: Layout, h: Heap, i: int, size: int, a: int)
    requires Lists(h) && i >= 0 && a in h.tags && h.tags[a].index == i && !Fits(l, h, i, size, a)
    requires forall x :: Fits(l, h, i, size, x) ==> Time(h, x) <= Time(h, a)
    ensures Listed(h, a)
    ensures var n := h.tags[a].next; forall x :: Fits(l, h, i, size, x) ==> n != NULL && Time(h, x) <= Time(h, n)
  {
    assert Listed(h, a);
    forall x | Fits(l, h, i, size, x)
      ensures h.tags[a].next != NULL && Time(h, x) <= Time(h, h.tags[a].next)
    {
      assert Listed(h, x) && Timed(h, x, a);
      NextOlder(h, a, x);
    }
  }

  lemma UsedView(h: Heap, a: int)
    requires a in h.tags && !h.tags[a].Free()
    ensures View(h)[a := Used(h.tags[a].size, h.tags[a].realSize)] == View(h)
  {}

  class Allocator {
    const l: Layout
    var tags: map<int, Tag>
    const freePages: array<int>
    const completePages: array<int>
    ghost var home: map<int, int>
    ghost var regions: map<int, int>
    ghost var stamp: map<int, nat>
    ghost var clock: nat

    ghost function Now(): Heap
      reads this, freePages, completePages
    {
      Heap(tags, freePages[..], completePages[..], home, regions, stamp, clock)
    }

    var initialized: bool

    /** The heap as it is in effect: before the first request there is none. */
    ghost function State(): Heap
      reads this, freePages, completePages
    {
      if initialized then Now() else Empty()
    }

    /** What holds between calls. */
    ghost predicate Ready()
      reads this, freePages, completePages
    {
      && Shaped() && Valid(l, State())
      && (!initialized ==> tags == map[] && home == map[] && regions == map[] && stamp == map[] && clock == 0)
    }

    constructor (l: Layout)
      requires l.Valid()
      ensures Ready() && State() == Empty() && this.l == l && fresh(freePages) && fresh(completePages)
    {
      this.l := l;
      tags, home, regions, stamp, clock := map[], map[], map[], map[], 0;
      freePages, completePages := new int[MAXEXP], new int[MAXEXP];
      initialized := false;
      new;
      EmptyValid(l);
    }

    ghost predicate Shaped()
      reads this
    {
      l.Valid() && freePages != completePages && freePages.Length == MAXEXP == completePages.Length
    }

    method InsertTag(tag: int, index: int, ghost i: int)
      requires Shaped() && tag in tags && (index < 0 ==> 0 <= tags[tag].realSize - l.header < WORD)
      requires i == if index < 0 then Bucket(tags[tag].realSize - l.header) else index
      requires 0 <= i < MAXEXP && (freePages[i] != NULL ==> freePages[i] in tags && freePages[i] != tag)
      modifies this`tags, this`stamp, this`clock, freePages
      ensures Now() == Inserted(old(Now()), tag, i)
    {
      var realIndex;
      if index < 0 {
        realIndex := GetExp(tags[tag].realSize - l.header);
        if realIndex < MINEXP {
          realIndex := MINEXP;
        }
      } else {
        realIndex := index;
      }
      tags := tags[tag := tags[tag].(index := realIndex)];
      if freePages[realIndex] != NULL {
        tags := tags[freePages[realIndex] := tags[freePages[realIndex]].(prev := tag)];
        tags := tags[tag := tags[tag].(next := freePages[realIndex])];
        assert tags == old(tags)[freePages[realIndex] := old(tags)[freePages[realIndex]].(prev := tag)]
                                [tag := old(tags)[tag].(index := realIndex, next := freePages[realIndex])];
      }
      freePages[realIndex] := tag;
      stamp, clock := stamp[tag := clock], clock + 1;
      assert freePages[..] == old(freePages[..])[realIndex := tag];
    }

    method RemoveTag(tag: int)
      requires Shaped() && tag in tags && 0 <= tags[tag].index < MAXEXP
      requires tags[tag].prev != NULL ==> tags[tag].prev in tags && tags[tag].prev != tag
      requires tags[tag].next != NULL ==> tags[tag].next in tags && tags[tag].next != tag
      modifies this`tags, freePages
      ensures Now() == Removed(old(Now()), tag)
    {
      if freePages[tags[tag].index] == tag {
        freePages[tags[tag].index] := tags[tag].next;
      }
      if tags[tag].prev != NULL {
        tags := tags[tags[tag].prev := tags[tags[tag].prev].(next := tags[tag].next)];
      }
      if tags[tag].next != NULL {
        tags := tags[tags[tag].next := tags[tags[tag].next].(prev := tags[tag].prev)];
      }
      tags := tags[tag := tags[tag].(next := NULL, prev := NULL, index := -1)];
      assert freePages[..] == Removed(old(Now()), tag).free;
    }

    /** The tag of the block that melts away is payload from now on. */
    method MeltLeft(tag: int) returns (left: int)
      requires Shaped() && tag in tags && tags[tag].splitLeft in tags && tags[tag].splitLeft != tag
      requires tags[tag].splitRight != NULL ==>
                 tags[tag].splitRight in tags && tags[tag].splitRight !in {tag, tags[tag].splitLeft}
      modifies this`tags, this`home
      ensures left == old(tags)[tag].splitLeft && Now() == Merged(old(Now()), left, tag)
    {
      left := tags[tag].splitLeft;
      tags := tags[left := tags[left].(realSize := tags[left].realSize + tags[tag].realSize)];
      tags := tags[left := tags[left].(splitRight := tags[tag].splitRight)];
      assert tags == old(tags)[left := old(tags)[left].(realSize := old(tags)[left].realSize + old(tags)[tag].realSize,
                                                       splitRight := old(tags)[tag].splitRight)];
      if tags[tag].splitRight != NULL {
        tags := tags[tags[tag].splitRight := tags[tags[tag].splitRight].(splitLeft := left)];
      }
      tags := tags - {tag};
      home := home - {tag};
    }

    method AbsorbRight(tag: int)
      requires Shaped() && tag in tags && CanMelt(l, Now(), tag, tags[tag].splitRight, tags[tag].splitRight)
      modifies this`tags, this`home, freePages
      ensures var y := old(tags)[tag].splitRight;
              CanMelt(l, old(Now()), tag, y, y) && Now() == Melted(old(Now()), tag, y, y)
    {
      var right := tags[tag].splitRight;
      RemoveTag(right);
      CanMergeLinked(l, Now(), tag, right);
      JoinRight(tag, right);
    }

    /** The rest of it: the block behind becomes part of this one. */
    method JoinRight(tag: int, right: int)
      requires Shaped() && tag in tags && tags[tag].splitRight == right && right in tags && right != tag
      requires tags[right].splitRight != NULL ==>
                 tags[right].splitRight in tags && tags[right].splitRight !in {tag, right}
      modifies this`tags, this`home
      ensures Now() == Merged(old(Now()), tag, right)
    {
      tags := tags[tag := tags[tag].(realSize := tags[tag].realSize + tags[right].realSize)];
      tags := tags[tag := tags[tag].(splitRight := tags[right].splitRight)];
      assert tags == old(tags)[tag := old(tags)[tag].(realSize := old(tags)[tag].realSize + old(tags)[right].realSize,
                                                     splitRight := old(tags)[right].splitRight)];
      if tags[right].splitRight != NULL {
        tags := tags[tags[right].splitRight := tags[tags[right].splitRight].(splitLeft := tag)];
      }
      tags := tags - {right};
      home := home - {right};
    }

    /** junk is what the memory holds where the size of the new tag goes, which is not set. */
    method SplitTag(tag: int, junk: int) returns (newTag: int)
      requires Shaped() && CanCut(l, Now(), tag, junk) && Cut(l, Now(), tag) != tag && Cut(l, Now(), tag) !in tags
      requires tags[tag].splitRight != tag
      modifies this`tags, this`home, this`stamp, this`clock, freePages
      ensures CanCut(l, old(Now()), tag, junk) && Now() == Shortened(l, old(Now()), tag, junk)
      ensures newTag == Cut(l, old(Now()), tag)
    {
      ghost var h := Now();
      var remainder := tags[tag].realSize - l.header - tags[tag].size;
      newTag := tag + l.header + tags[tag].size;
      tags := tags[newTag := Tag(MAGIC, junk, remainder, -1, tag, tags[tag].splitRight, NULL, NULL)];
      if tags[newTag].splitRight != NULL {
        tags := tags[tags[newTag].splitRight := tags[tags[newTag].splitRight].(splitLeft := newTag)];
      }
      tags := tags[tag := tags[tag].(splitRight := newTag)];
      tags := tags[tag := tags[tag].(realSize := tags[tag].realSize - tags[newTag].realSize)];
      assert tags == SplitOff(l, h, tag, junk).tags;
      home := home[newTag := home[tag]];
      assert Now() == SplitOff(l, h, tag, junk);
      InsertTag(newTag, -1, Bucket(remainder - l.header));
    }

    /** Cuts the excess off the block in use, when there is enough of it. */
    method CutExcess(tag: int, junk: int)
      requires Shaped() && Valid(l, Now()) && tag in tags && !tags[tag].Free() && !RightFree(Now(), tag)
      modifies this`tags, this`home, this`stamp, this`clock, freePages
      ensures Valid(l, Now())
      ensures View(Now()) == Granted(l, old(View(Now())), tag, old(tags)[tag].size, old(tags)[tag].realSize)
      ensures Restamped(l, old(Now()), Now(), tag, old(tags)[tag].size, old(tags)[tag].realSize)
    {
      hide Bucket, View, Shortened, CanCut;
      ghost var h := Now();
      BlockBytes(l, h, tag);
      assert Fitting(l, h, tag);
      UsedView(h, tag);
      var remainder := U32(tags[tag].realSize - tags[tag].size - l.header * 2);
      if I32(remainder) > 0 {
        var childIndex := GetExp(remainder);
        if childIndex >= 0 {
          ShortenedKeeps(l, h, tag, junk);
          CanSplitLinked(l, h, tag);
          var _ := SplitTag(tag, junk);
        }
      }
    }

    /** No block fits: asks the page layer, which answers offer. */
    method AllocateNewTag(size: int, offer: int) returns (tag: int)
      requires Shaped() && l.Valid() && Requestable(l, size)
      modifies this`tags, this`home, this`regions
      ensures tag == offer
      ensures Now() == if offer == NULL then old(Now()) else Obtained(l, old(Now()), offer, PagesFor(l, size), size)
    {
      var usage := size + l.header;
      var pages := usage / l.page;
      if usage % l.page != 0 {
        pages := pages + 1;
      }
      if pages < MIN_PAGES {
        pages := MIN_PAGES;
      }
      tag := offer;
      if tag == NULL {
        return;
      }
      tags := tags[tag := Tag(MAGIC, size, pages * l.page, -1, NULL, NULL, NULL, NULL)];
      home, regions := home[tag := tag], regions[tag := pages];
    }

    /** The first block on the list that is large enough for the request and a further tag. */
    method FindFit(index: int, size: int) returns (tag: int)
      requires Shaped() && Valid(l, Now()) && 0 <= index < MAXEXP
      ensures tag == NULL ==> forall x :: !Fits(l, Now(), index, size, x)
      ensures tag != NULL ==> Fits(l, Now(), index, size, tag)
      ensures tag != NULL ==> forall x :: Fits(l, Now(), index, size, x) ==> Time(Now(), x) <= Time(Now(), tag)
    {
      ghost var h := Now();
      tag := freePages[index];
      assert Heads(h, index);
      NoneInFront(l, h, index, size);
      while tag != NULL
        invariant OnList(h, tag) && (tag != NULL ==> tags[tag].index == index)
        invariant forall x :: Fits(l, h, index, size, x) ==> tag != NULL && Time(h, x) <= Time(h, tag)
        decreases tag != NULL, Time(h, tag)
      {
        if tags[tag].realSize - l.header >= size + l.header {
          return;
        }
        NoneSkipped(l, h, index, size, tag);
        tag := tags[tag].next;
      }
    }

    method Initialize()
      requires Ready() && !initialized
      modifies this`initialized, freePages, completePages
      ensures Ready() && initialized && Now() == Empty()
    {
      for index := 0 to MAXEXP
        invariant forall i :: 0 <= i < index ==> freePages[i] == NULL && completePages[i] == 0
      {
        freePages[index] := NULL;
        completePages[index] := 0;
      }
      initialized := true;
      assert freePages[..] == Empty().free && completePages[..] == Empty().complete;
      EmptyValid(l);
    }

    /** Takes a tag that the search has found off list index. */
    method TakeTag(tag: int, index: int)
      requires Shaped() && CanRemove(Now(), tag) && Listed(Now(), tag) && tags[tag].index == index
      modifies this`tags, freePages, completePages
      ensures Listed(old(Now()), tag) && Now() == TakenOff(old(Now()), tag)
    {
      ghost var h := Now();
      RemoveTag(tag);
      RemovedTag(h, tag, tag);
      if tags[tag].splitLeft == NULL && tags[tag].splitRight == NULL {
        completePages[index] := completePages[index] - 1;
      }
      assert completePages[..] == TakenOff(h, tag).complete;
    }

    /** A block for the request, off its list, or a new region. */
    method ObtainBlock(size: int, offer: int) returns (tag: int)
      requires Shaped() && Valid(l, Now()) && Requestable(l, size)
      requires offer != NULL ==> Offered(l, Now(), offer, PagesFor(l, size))
      modifies this`tags, this`home, this`regions, freePages, completePages
      ensures tag == NULL ==> Now() == old(Now()) && offer == NULL && forall x :: !Fits(l, Now(), Bucket(size), size, x)
      ensures tag != NULL ==> Chosen(l, old(Now()), regions, size, offer, tag)
      ensures tag != NULL ==> var extent := ExtentFor(l, old(Now()), size, tag);
                              l.header + size <= extent && Granting(l, old(Now()), Now(), tag, extent)
    {
      hide View, ValidBut, Granting;
      ghost var h := Now();
      var index := GetExp(size);
      index := index + MODE;
      if index < MINEXP {
        index := MINEXP;
      }
      BucketBounds(size);
      assert index == Bucket(size);
      tag := FindFit(index, size);
      if tag == NULL {
        tag := AllocateNewTag(size, offer);
        if tag != NULL {
          ObtainedGranting(l, h, tag, size);
        }
      } else {
        TakenGranting(l, h, tag);
        TakeTag(tag, index);
      }
    }

    /** offer is the answer of the page layer, if it is asked. */
    method Malloc(size: int, offer: int, junk: int) returns (ptr: int)
      requires Ready() && Requestable(l, size)
      requires offer != NULL ==> Offered(l, State(), offer, PagesFor(l, size))
      modifies this, freePages, completePages
      ensures Ready() && initialized
      ensures if Served(l, old(State()), size, offer)
              then ptr != NULL && Allocates(l, old(State()), Now(), size, offer, ptr - l.header)
              else ptr == NULL && Now() == old(State())
      ensures ptr != NULL ==>
                && ptr - l.header in tags && tags[ptr - l.header].size == size
                && l.header + size <= tags[ptr - l.header].realSize < size + 2 * l.header + 256
      ensures ptr != NULL ==>
                var h, a, c := old(State()), ptr - l.header, ptr + size;
                var extent := if a in h.tags then h.tags[a].realSize else PagesFor(l, size) * l.page;
                if extent >= size + 2 * l.header + 256 then
                  && tags[a].realSize == l.header + size && c in tags && tags[c].Free()
                  && tags[c].realSize == extent - l.header - size
                else tags[a].realSize == extent
    {
      hide View, Granted, ValidBut, Bucket, Chosen;
      if !initialized {
        Initialize();
      }
      ghost var h := Now();
      var tag := ObtainBlock(size, offer);
      if tag == NULL {
        return NULL;
      }
      ghost var extent := ExtentFor(l, h, size, tag);
      SizedView(l, h, Now(), tag, size, extent);
      ghost var h' := Resized(Now(), tag, size);
      tags := tags[tag := tags[tag].(size := size)];
      assert Now() == h';
      CutExcess(tag, junk);
      ptr := tag + l.header;
      ChosenPositive(l, h, regions, size, offer, tag);
      GrantIsTight(l, h, Now(), size, offer, tag);
    }

    /** The loop that melts the block into free ones on its left. */
    method MeltLeftwards(start: int) returns (tag: int)
      requires Shaped() && AtWork(l, Now(), start)
      modifies this`tags, this`home, freePages
      ensures start in old(tags) && tag == SpaceStart(old(Now()), start)
      ensures AtWork(l, Now(), tag) && !LeftFree(Now(), tag)
      ensures LeftFree(old(Now()), start) ==> IsMelted(l, old(Now()), Now(), tag, start, tag)
      ensures !LeftFree(old(Now()), start) ==> Now() == old(Now())
    {
      hide ValidBut, Melted, CanMelt, Removed, Merged;
      ghost var h := Now();
      tag := start;
      WorkLinked(l, h, start);
      while tags[tag].splitLeft != NULL && tags[tags[tag].splitLeft].index >= 0
        invariant AtWork(l, Now(), tag) && Linked(l, Now(), tag) && NULL !in tags
        invariant tag == start ==> Now() == h
        invariant tag != start ==> LeftFree(h, start) && tag == h.tags[start].splitLeft && !LeftFree(Now(), tag)
        invariant tag != start ==> IsMelted(l, h, Now(), tag, start, tag)
        decreases if tag == start then 1 else 0
      {
        MeltLeftKeeps(l, h, start);
        MeltReadyLeft(l, h, start);
        tag := MeltLeft(tag);
        RemoveTag(tag);
        WorkLinked(l, Now(), tag);
      }
    }

    /** The loop that absorbs free blocks on the right. */
    method MeltRightwards(start: int, tag: int)
      requires Shaped() && AtWork(l, Now(), tag)
      modifies this`tags, this`home, freePages
      ensures tag in old(tags) && AtWork(l, Now(), tag) && !RightFree(Now(), tag)
      ensures LeftFree(Now(), tag) == LeftFree(old(Now()), tag)
      ensures var y := old(tags)[tag].splitRight;
              RightFree(old(Now()), tag) ==> IsMelted(l, old(Now()), Now(), tag, y, y)
      ensures !RightFree(old(Now()), tag) ==> Now() == old(Now())
    {
      hide ValidBut, Melted, CanMelt, Removed, Merged;
      ghost var h := Now();
      ghost var y := h.tags[tag].splitRight;
      ghost var melted := false;
      WorkLinked(l, h, tag);
      while tags[tag].splitRight != NULL && tags[tags[tag].splitRight].index >= 0
        invariant AtWork(l, Now(), tag) && Linked(l, Now(), tag) && NULL !in tags
        invariant !melted ==> Now() == h
        invariant melted ==> RightFree(h, tag) && !RightFree(Now(), tag)
        invariant LeftFree(Now(), tag) == LeftFree(h, tag)
        invariant melted ==> IsMelted(l, h, Now(), tag, y, y)
        decreases if melted then 0 else 1
      {
        AbsorbRightKeeps(l, h, tag);
        AbsorbRight(tag);
        WorkLinked(l, Now(), tag);
        melted := true;
      }
    }

    /** Gives the region that is this block back to the page layer. */
    method ReturnRegion(tag: int) returns (pages: int)
      requires Shaped() && AtWork(l, Now(), tag) && CanReturn(l, Now(), tag)
      modifies this`tags, this`home, this`regions
      ensures Valid(l, Now()) && tag in old(regions) && pages == old(regions)[tag]
      ensures Now() == Returned(old(Now()), tag) && View(Now()) == old(View(Now())) - {tag}
    {
      hide View;
      ghost var h := Now();
      WholeRegion(l, h, tag);
      ReturnedKeeps(l, h, {tag}, tag);
      assert {tag} - {tag} == {};
      pages := tags[tag].realSize / l.page;
      if tags[tag].realSize % l.page != 0 {
        pages := pages + 1;
      }
      if pages < MIN_PAGES {
        pages := MIN_PAGES;
      }
      tags, home, regions := tags - {tag}, home - {tag}, regions - {tag};
    }

    /** Puts the block on its list. */
    method ReturnBlock(tag: int, index: int)
      requires Shaped() && AtWork(l, Now(), tag) && !LeftFree(Now(), tag) && !RightFree(Now(), tag)
      requires index == Bucket(tags[tag].realSize - l.header) && 0 <= index < MAXEXP
      requires tags[tag].splitLeft == NULL == tags[tag].splitRight ==> completePages[index] != MAXCOMPLETE
      modifies this`tags, this`stamp, this`clock, freePages, completePages
      ensures tag in old(tags) && Valid(l, Now())
              && View(Now()) == old(View(Now()))[tag := Unused(old(tags)[tag].realSize)]
      ensures stamp == old(stamp)[tag := old(clock)] && clock == old(clock) + 1
    {
      hide View;
      ghost var h := Now();
      assert Listed(h, tag);
      WorkLinked(l, h, tag);
      assert index >= MINEXP;
      assert {tag} - {tag} == {};
      PutBackKeeps(l, h, {tag}, tag, index);
      PutBackView(h, tag, index);
      if tags[tag].splitLeft == NULL && tags[tag].splitRight == NULL {
        completePages[index] := completePages[index] + 1;
      }
      InsertTag(tag, index, index);
      assert completePages[..] == PutBack(h, tag, index).complete;
      assert Now() == PutBack(h, tag, index);
    }

    /** Puts the block on its list, or gives its region back. */
    method GiveBack(tag: int) returns (released: int, pages: int)
      requires Shaped() && AtWork(l, Now(), tag) && !LeftFree(Now(), tag) && !RightFree(Now(), tag)
      modifies this`tags, this`home, this`regions, this`stamp, this`clock, freePages, completePages
      ensures tag in old(tags) && Valid(l, Now()) && GivesBack(l, old(Now()), Now(), tag, released, pages)
    {
      hide View, ValidBut, LeftFree, RightFree;
      ghost var h := Now();
      WorkBytes(l, h, tag);
      var index := GetExp(tags[tag].realSize - l.header);
      if index < MINEXP {
        index := MINEXP;
      }
      if tags[tag].splitLeft == NULL && tags[tag].splitRight == NULL && completePages[index] == MAXCOMPLETE {
        pages := ReturnRegion(tag);
        released := tag;
      } else {
        ReturnBlock(tag, index);
        released, pages := NULL, 0;
      }
    }

    /** ptr is null or was handed out and not given back since.  What is released, if anything, goes to the
        page layer. */
    method Free(ptr: int) returns (released: int, pages: int)
      requires Ready()
      requires ptr != NULL ==> ptr - l.header in Live(State())
      modifies this, freePages, completePages
      ensures Ready() && initialized == old(initialized)
      ensures ptr == NULL ==> released == NULL && Now() == old(Now())
      ensures ptr != NULL ==>
                ptr - l.header in old(tags) && Frees(l, old(Now()), Now(), ptr - l.header, released, pages)
    {
      hide View, ValidBut, Bucket, Frees, GivesBack;
      released, pages := NULL, 0;
      if ptr == NULL {
        return;
      }
      var start := ptr - l.header;
      ghost var h := Now();
      LiveAtWork(l, h, start);
      if tags[start].magic != MAGIC {
        return;
      }
      var tag := MeltLeftwards(start);
      ghost var h1 := Now();
      MeltRightwards(start, tag);
      ghost var h2 := Now();
      released, pages := GiveBack(tag);
      FreesInSteps(l, h, h1, h2, Now(), start, tag, released, pages);
    }
  }
}
