/** Boundary tags, the state of the heap, and what the steps of the allocator do to it. */
module HeapTags {
  import opened Powers

  /** The number of free lists. */
  const MAXEXP: nat := 32
  const MINEXP: nat := 8
  /** The number of whole regions that a list may hold. */
  const MAXCOMPLETE: nat := 5
  const MIN_PAGES: nat := 16
  /** The searching mode: the exponent of the request is the number of its list. */
  const MODE: nat := 0
  const MAGIC: int := 0xc001c0de
  const NULL: int := 0
  const WORD: int := 0x1_0000_0000
  /** Sizes of regions stay below this, so that signed words hold them. */
  const LIMIT: int := 0x8000_0000

  /** The size of a tag and of a page, in bytes. */
  datatype Layout = Layout(header: int, page: int)
  {
    predicate Valid() {
      0 < header <= LIMIT && 0 < page && MIN_PAGES * page < LIMIT
    }
  }

  /** The header in front of every block.  Tags refer to each other by address. */
  datatype Tag = Tag(magic: int, size: int, realSize: int, index: int,
                     splitLeft: int, splitRight: int, next: int, prev: int)
  {
    predicate Free() {
      index >= 0
    }

    /** A free block that is a whole region. */
    predicate Whole() {
      Free() && splitLeft == NULL && splitRight == NULL
    }
  }

  /** The state: the tags in effect by address, the heads of the free lists and the numbers of whole
      regions on them.  For the proofs: the region (by its base) of every tag, the regions obtained from
      the page layer (base and number of pages), and the time at which a tag was last put on a list. */
  datatype Heap = Heap(tags: map<int, Tag>, free: seq<int>, complete: seq<int>,
                       home: map<int, int>, regions: map<int, int>, stamp: map<int, nat>, clock: nat)

  /** A block as a client sees it. */
  datatype Block = Used(size: int, extent: int) | Unused(extent: int)

  function BlockOf(t: Tag): Block {
    if t.Free() then Unused(t.realSize) else Used(t.size, t.realSize)
  }

  function View(h: Heap): (v: map<int, Block>)
    ensures v.Keys == h.tags.Keys
  {
    map a | a in h.tags :: BlockOf(h.tags[a])
  }

  // Exponents.

  function Log2(n: nat): nat
    requires n > 0
  {
    if n == 1 then 0 else 1 + Log2(n / 2)
  }

  /** The exponent of a size, -1 below the quantum. */
  function Exponent(size: int): int {
    if size < 256 then -1 else Log2(size)
  }

  /** The list for free blocks with so many bytes behind the tag. */
  function Bucket(bytes: int): int {
    if Exponent(bytes) < MINEXP then MINEXP else Exponent(bytes)
  }

  lemma {:induction false} Log2Bounds(n: nat)
    requires n > 0
    ensures Pow2(Log2(n)) <= n < Pow2(Log2(n) + 1)
    decreases n
  {
    if n > 1 {
      Log2Bounds(n / 2);
    }
  }

  lemma Log2Unique(n: nat, e: nat)
    requires n > 0 && Pow2(e) <= n < Pow2(e + 1)
    ensures Log2(n) == e
  {
    Log2Bounds(n);
    if Log2(n) < e {
      Pow2Grows(Log2(n) + 1, e);
    } else if e < Log2(n) {
      Pow2Grows(e + 1, Log2(n));
    }
  }

  /** A list holds the blocks from a power of two up to the next; the first list also all smaller ones. */
  lemma BucketBounds(bytes: int)
    requires 0 <= bytes < WORD
    ensures MINEXP <= Bucket(bytes) < MAXEXP
    ensures bytes < Pow2(Bucket(bytes) + 1) && (Bucket(bytes) > MINEXP ==> Pow2(Bucket(bytes)) <= bytes)
  {
    Pow2Words();
    if bytes >= 256 {
      Log2Bounds(bytes);
      if Log2(bytes) >= 32 {
        Pow2Grows(32, Log2(bytes));
      }
      if Log2(bytes) < 8 {
        Pow2Grows(Log2(bytes) + 1, 8);
      }
    } else {
      assert Pow2(9) == 512;
    }
  }

  /** The search for the exponent. */
  method GetExp(size: int) returns (e: int)
    requires 0 <= size < WORD
    ensures e == Exponent(size)
  {
    if size < Pow2(MINEXP) {
      Pow2Words();
      return -1;
    }
    Pow2Words();
    var shift: nat := MINEXP;
    while shift < MAXEXP
      invariant MINEXP <= shift <= MAXEXP && Pow2(MINEXP) <= size && (shift > MINEXP ==> Pow2(shift - 1) <= size)
    {
      if Pow2(shift) > size {
        break;
      }
      shift := shift + 1;
    }
    Log2Unique(size, shift - 1);
    return shift - 1;
  }

  // The steps.

  /** Puts tag a in front of list i. */
  function Inserted(h: Heap, a: int, i: int): Heap
    requires a in h.tags && 0 <= i < |h.free| && (h.free[i] != NULL ==> h.free[i] in h.tags && h.free[i] != a)
  {
    var head := h.free[i];
    var t := h.tags[a].(index := i);
    h.(tags := if head != NULL then h.tags[head := h.tags[head].(prev := a)][a := t.(next := head)] else h.tags[a := t],
       free := h.free[i := a], stamp := h.stamp[a := h.clock], clock := h.clock + 1)
  }

  /** Takes tag a off its list. */
  function Removed(h: Heap, a: int): Heap
    requires a in h.tags && 0 <= h.tags[a].index < |h.free|
    requires h.tags[a].prev != NULL ==> h.tags[a].prev in h.tags
    requires h.tags[a].next != NULL ==> h.tags[a].next in h.tags
  {
    var t := h.tags[a];
    var tags1 := if t.prev != NULL then h.tags[t.prev := h.tags[t.prev].(next := t.next)] else h.tags;
    var tags2 := if t.next != NULL then tags1[t.next := tags1[t.next].(prev := t.prev)] else tags1;
    h.(tags := tags2[a := t.(next := NULL, prev := NULL, index := -1)],
       free := if h.free[t.index] == a then h.free[t.index := t.next] else h.free)
  }

  /** The same, with the number of whole regions on the list. */
  function TakenOff(h: Heap, a: int): Heap
    requires a in h.tags && 0 <= h.tags[a].index < |h.free| == |h.complete|
    requires h.tags[a].prev != NULL ==> h.tags[a].prev in h.tags
    requires h.tags[a].next != NULL ==> h.tags[a].next in h.tags
  {
    var i := h.tags[a].index;
    if h.tags[a].Whole() then Removed(h, a).(complete := h.complete[i := h.complete[i] - 1]) else Removed(h, a)
  }

  /** Puts tag a in front of list i, and counts it there if it is a whole region. */
  function PutBack(h: Heap, a: int, i: int): Heap
    requires a in h.tags && 0 <= i < |h.free| == |h.complete|
    requires h.free[i] != NULL ==> h.free[i] in h.tags && h.free[i] != a
  {
    var t := h.tags[a];
    if t.splitLeft == NULL && t.splitRight == NULL
    then Inserted(h, a, i).(complete := h.complete[i := h.complete[i] + 1])
    else Inserted(h, a, i)
  }

  /** Block y, which follows x, becomes part of x. */
  function Merged(h: Heap, x: int, y: int): Heap
    requires x in h.tags && y in h.tags && x != y
    requires h.tags[y].splitRight != NULL ==> h.tags[y].splitRight in h.tags
  {
    var r := h.tags[y].splitRight;
    var t := h.tags[x].(realSize := h.tags[x].realSize + h.tags[y].realSize, splitRight := r);
    var tags1 := h.tags[x := t];
    h.(tags := (if r != NULL && r in tags1 then tags1[r := tags1[r].(splitLeft := x)] else tags1) - {y},
       home := h.home - {y})
  }

  /** Cuts what block a has behind its tag and its size off, as a block of its own on no list yet. */
  function SplitOff(l: Layout, h: Heap, a: int, junk: int): Heap
    requires a in h.tags && (h.tags[a].splitRight != NULL ==> h.tags[a].splitRight in h.tags) && a in h.home
  {
    var t := h.tags[a];
    var c := a + l.header + t.size;
    var rest := t.realSize - l.header - t.size;
    var n := Tag(MAGIC, junk, rest, -1, a, t.splitRight, NULL, NULL);
    var tags1 := if t.splitRight != NULL then h.tags[t.splitRight := h.tags[t.splitRight].(splitLeft := c)] else h.tags;
    h.(tags := tags1[a := t.(splitRight := c, realSize := t.realSize - rest)][c := n],
       home := h.home[c := h.home[a]])
  }

  /** A region of so many pages, obtained for a block of the given size. */
  function Obtained(l: Layout, h: Heap, base: int, pages: int, size: int): Heap {
    h.(tags := h.tags[base := Tag(MAGIC, size, pages * l.page, -1, NULL, NULL, NULL, NULL)],
       home := h.home[base := base], regions := h.regions[base := pages])
  }

  /** The region that is the block a goes back to the page layer. */
  function Returned(h: Heap, a: int): Heap {
    h.(tags := h.tags - {a}, home := h.home - {a}, regions := h.regions - {a})
  }

  // The invariants.

  /** Where a region ends. */
  function End(l: Layout, h: Heap, base: int): int
    requires base in h.regions
  {
    base + h.regions[base] * l.page
  }

  /** Tag a is linked to its neighbours in its region. */
  ghost predicate Linked(l: Layout, h: Heap, a: int) {
    && a in h.tags && a in h.home && h.home[a] in h.regions
    && var t := h.tags[a];
    && var base := h.home[a];
    && var end := End(l, h, base);
    && t.magic == MAGIC && 0 < base <= a && l.header <= t.realSize && a + t.realSize <= end
    && (t.splitLeft == NULL <==> a == base)
    && (t.splitRight == NULL <==> a + t.realSize == end)
    && (t.splitLeft != NULL ==>
          && t.splitLeft in h.tags && t.splitLeft in h.home && h.home[t.splitLeft] == base && t.splitLeft < a
          && h.tags[t.splitLeft].splitRight == a && t.splitLeft + h.tags[t.splitLeft].realSize == a)
    && (t.splitRight != NULL ==>
          && t.splitRight in h.tags && t.splitRight in h.home && h.home[t.splitRight] == base
          && h.tags[t.splitRight].splitLeft == a && t.splitRight == a + t.realSize)
  }

  /** Different blocks do not overlap. */
  ghost predicate Apart(h: Heap, a: int, b: int)
    requires a in h.tags && b in h.tags
  {
    a < b ==> a + h.tags[a].realSize <= b
  }

  /** A region has its first tag at its base, and a size below the limit. */
  ghost predicate Rooted(l: Layout, h: Heap, base: int) {
    && base in h.regions && base in h.tags && base in h.home && h.home[base] == base
    && MIN_PAGES <= h.regions[base] && h.regions[base] * l.page < LIMIT
  }

  ghost predicate Tiled(l: Layout, h: Heap) {
    && l.Valid() && h.tags.Keys == h.home.Keys
    && (forall a {:trigger Linked(l, h, a)} :: a in h.tags ==> Linked(l, h, a))
    && (forall a, b {:trigger Apart(h, a, b)} :: a in h.tags && b in h.tags ==> Apart(h, a, b))
    && (forall base {:trigger Rooted(l, h, base)} :: base in h.regions ==> Rooted(l, h, base))
  }

  /** Tag a is on the list of its index, later entries first, or on none. */
  ghost predicate Listed(h: Heap, a: int) {
    && a in h.tags && |h.free| == MAXEXP
    && var t := h.tags[a];
    if t.index < 0 then t.index == -1 && t.next == NULL && t.prev == NULL
    else
      && MINEXP <= t.index < MAXEXP && a in h.stamp && h.stamp[a] < h.clock
      && (t.prev == NULL <==> h.free[t.index] == a)
      && (t.prev != NULL ==>
            && t.prev in h.tags && t.prev in h.stamp && t.prev != a && h.stamp[t.prev] > h.stamp[a]
            && h.tags[t.prev].next == a && h.tags[t.prev].index == t.index)
      && (t.next != NULL ==>
            && t.next in h.tags && t.next in h.stamp && t.next != a && h.stamp[t.next] < h.stamp[a]
            && h.tags[t.next].prev == a && h.tags[t.next].index == t.index)
  }

  ghost predicate Heads(h: Heap, i: int)
    requires 0 <= i < |h.free|
  {
    h.free[i] != NULL ==> h.free[i] in h.tags && h.tags[h.free[i]].index == i
  }

  /** Entries of the lists have different times. */
  ghost predicate Timed(h: Heap, a: int, b: int)
    requires a in h.tags && b in h.tags
  {
    h.tags[a].Free() && h.tags[b].Free() && a in h.stamp && b in h.stamp && a != b ==> h.stamp[a] != h.stamp[b]
  }

  ghost predicate Lists(h: Heap) {
    && |h.free| == MAXEXP && NULL !in h.tags
    && (forall a {:trigger Listed(h, a)} :: a in h.tags ==> Listed(h, a))
    && (forall i {:trigger Heads(h, i)} :: 0 <= i < MAXEXP ==> Heads(h, i))
    && (forall a, b {:trigger Timed(h, a, b)} :: a in h.tags && b in h.tags ==> Timed(h, a, b))
  }

  /** A free block is on the list for its bytes, a used one is large enough for its size. */
  ghost predicate Fitting(l: Layout, h: Heap, a: int)
    requires a in h.tags
  {
    var t := h.tags[a];
    if t.Free() then t.index == Bucket(t.realSize - l.header) else 0 <= t.size && l.header + t.size <= t.realSize
  }

  /** A free block is not followed by a free one. */
  ghost predicate Alone(h: Heap, a: int)
    requires a in h.tags
  {
    var t := h.tags[a];
    t.Free() && t.splitRight in h.tags ==> !h.tags[t.splitRight].Free()
  }

  /** The whole regions on list i. */
  ghost function WholeOn(h: Heap, i: int): set<int> {
    set a | a in h.tags && h.tags[a].Whole() && h.tags[a].index == i
  }

  ghost predicate Counted(h: Heap, i: int)
    requires 0 <= i < |h.complete|
  {
    h.complete[i] == |WholeOn(h, i)| <= MAXCOMPLETE
  }

  /** All times are past. */
  ghost predicate Past(h: Heap) {
    forall x :: x in h.stamp ==> h.stamp[x] < h.clock
  }

  /** All invariants, but not the sizes of the blocks that an operation is at work on. */
  ghost predicate ValidBut(l: Layout, h: Heap, hot: set<int>) {
    && Tiled(l, h) && Lists(h) && Past(h) && |h.complete| == MAXEXP
    && (forall a {:trigger Fitting(l, h, a)} :: a in h.tags && a !in hot ==> Fitting(l, h, a))
    && (forall a {:trigger Alone(h, a)} :: a in h.tags ==> Alone(h, a))
    && (forall i {:trigger Counted(h, i)} :: 0 <= i < MAXEXP ==> Counted(h, i))
  }

  ghost predicate Valid(l: Layout, h: Heap) {
    ValidBut(l, h, {})
  }
}
