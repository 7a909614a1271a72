/** The bytes of the memory: what the operations of the heap do to the contents of the blocks in use. */
module HeapBytes {
  import opened HeapTags
  import opened HeapBlocks
  import opened HeapCoalescing
  import opened HeapLists
  import opened HeapAllocation
  import opened HeapTheorems
  import opened HeapAllocator

  newtype Byte = x: int | 0 <= x < 256

  /** The address lies in a tag. */
  predicate InTag(header: int, tags: map<int, Tag>, p: int) {
    exists a :: a in tags && a <= p < a + header
  }

  /** The payload of a block in use overlaps no tag. */
  lemma PayloadNotInTag(l: Layout, h: Heap, b: int, p: int)
    requires Valid(l, h) && b in Live(h) && b + l.header <= p < b + l.header + Live(h)[b]
    ensures !InTag(l.header, h.tags, p)
  {
    forall a | a in h.tags
      ensures !(a <= p < a + l.header)
    {
      assert Linked(l, h, a);
      if a != b {
        PayloadsApart(l, h, b, a);
      }
    }
  }

  /** The payload of the block in use at b has no byte from lo to hi. */
  ghost predicate Clear(l: Layout, h: Heap, b: int, lo: int, hi: int)
    requires b in Live(h)
  {
    hi <= lo || b + l.header + Live(h)[b] <= lo || hi <= b + l.header
  }

  /** It does not overlap the pages that the page layer offers. */
  lemma PayloadNotOffered(l: Layout, h: Heap, base: int, pages: int, b: int)
    requires Valid(l, h) && Offered(l, h, base, pages) && b in Live(h)
    ensures Clear(l, h, b, base, base + pages * l.page)
  {
    OfferedApart(l, h, base, pages, b);
    assert Fitting(l, h, b);
  }

  /** Nor those that have gone back to it. */
  lemma PayloadNotReleased(l: Layout, h: Heap, h': Heap, x: int, b: int)
    requires Valid(l, h) && Valid(l, h') && x in h.regions && h'.regions == h.regions - {x} && b in Live(h')
    ensures Clear(l, h', b, x, x + h.regions[x] * l.page)
  {
    assert Linked(l, h', b) && Fitting(l, h', b);
    var base := h'.home[b];
    assert End(l, h', base) == End(l, h, base);
    if base < x {
      RegionsApart(l, h, base, x);
    } else {
      RegionsApart(l, h, x, base);
    }
  }

  /** All regions lie in a memory of n bytes. */
  ghost predicate Inside(l: Layout, h: Heap, n: int) {
    forall b :: b in h.regions ==> 0 <= b && End(l, h, b) <= n
  }

  /** n bytes of the memory from address lo on. */
  ghost function Slice(s: seq<Byte>, lo: int, n: int): seq<Byte> {
    if 0 <= lo && 0 <= n && lo + n <= |s| then s[lo..lo + n] else []
  }

  /** What the blocks in use contain. */
  ghost function Contents(l: Layout, h: Heap, s: seq<Byte>): map<int, seq<Byte>> {
    map a | a in Live(h) :: Slice(s, a + l.header, Live(h)[a])
  }

  lemma InsideBlock(l: Layout, h: Heap, n: int, a: int)
    requires Valid(l, h) && Inside(l, h, n) && a in Live(h)
    ensures 0 <= Live(h)[a] && 0 <= a + l.header && a + l.header + Live(h)[a] <= n
  {
    assert Linked(l, h, a) && Fitting(l, h, a);
  }

  /** The memory before and after an operation of the heap: bytes that belong to no tag, neither before nor
      after, and not to the pages from lo to hi, are the same. */
  ghost predicate Touched(l: Layout, h: Heap, h': Heap, lo: int, hi: int, s: seq<Byte>, s': seq<Byte>) {
    && |s'| == |s|
    && forall p :: 0 <= p < |s| && !InTag(l.header, h.tags, p) && !InTag(l.header, h'.tags, p) && !(lo <= p < hi) ==>
         s'[p] == s[p]
  }

  lemma SliceKept(l: Layout, h: Heap, h': Heap, lo: int, hi: int, s: seq<Byte>, s': seq<Byte>, b: int)
    requires Valid(l, h) && Valid(l, h') && Touched(l, h, h', lo, hi, s, s')
    requires b in Live(h) && b in Live(h') && Live(h)[b] == Live(h')[b]
    requires Clear(l, h, b, lo, hi)
    ensures Slice(s', b + l.header, Live(h)[b]) == Slice(s, b + l.header, Live(h)[b])
  {
    forall p | b + l.header <= p < b + l.header + Live(h)[b] && 0 <= p < |s|
      ensures s'[p] == s[p]
    {
      PayloadNotInTag(l, h, b, p);
      PayloadNotInTag(l, h', b, p);
    }
  }

  lemma ContentsSame(l: Layout, h: Heap, h': Heap, s: seq<Byte>, s': seq<Byte>, a: int)
    requires a !in Live(h) && Live(h) == Live(h') - {a}
    requires forall b :: b in Live(h) ==> Slice(s', b + l.header, Live(h)[b]) == Slice(s, b + l.header, Live(h)[b])
    ensures Contents(l, h, s) == Contents(l, h', s') - {a}
  {
    hide Live, Slice;
  }

  /** An allocation leaves the contents of all blocks in use as they are. */
  lemma AllocatesKeeps(l: Layout, h: Heap, h': Heap, size: int, offer: int, a: int, hi: int, s: seq<Byte>,
                       s': seq<Byte>)
    requires Valid(l, h) && Valid(l, h') && Requestable(l, size) && Allocates(l, h, h', size, offer, a)
    requires if offer != NULL then Offered(l, h, offer, PagesFor(l, size)) && hi == offer + PagesFor(l, size) * l.page
             else hi == offer && exists x :: Fits(l, h, Bucket(size), size, x)
    requires Touched(l, h, h', offer, hi, s, s')
    ensures a !in Live(h) && Live(h') == Live(h)[a := size]
    ensures Contents(l, h', s') - {a} == Contents(l, h, s)
  {
    hide Allocates, Live, Bucket, Slice;
    AllocatesLive(l, h, h', size, offer, a);
    forall b | b in Live(h)
      ensures Slice(s', b + l.header, Live(h)[b]) == Slice(s, b + l.header, Live(h)[b])
    {
      if offer != NULL { PayloadNotOffered(l, h, offer, PagesFor(l, size), b); }
      SliceKept(l, h, h', offer, hi, s, s', b);
    }
    ContentsSame(l, h, h', s, s', a);
  }

  lemma ReleasedRegion(l: Layout, h: Heap, h': Heap, a: int, released: int, pages: int)
    requires a in h.tags && |h.complete| == MAXEXP && Frees(l, h, h', a, released, pages)
    ensures released != NULL ==>
              && released in h.regions && pages == h.regions[released]
              && h'.regions == h.regions - {released}
  {}

  /** Giving a block back leaves the contents of the others as they are. */
  lemma FreesKeeps(l: Layout, h: Heap, h': Heap, a: int, released: int, pages: int, hi: int, s: seq<Byte>,
                   s': seq<Byte>)
    requires Valid(l, h) && Valid(l, h') && a in Live(h) && Frees(l, h, h', a, released, pages)
    requires hi == if released != NULL then released + pages * l.page else released
    requires Touched(l, h, h', released, hi, s, s')
    ensures Live(h') == Live(h) - {a}
    ensures Contents(l, h', s') == Contents(l, h, s) - {a}
  {
    FreesLive(l, h, h', a, released, pages);
    ReleasedRegion(l, h, h', a, released, pages);
    forall b | b in Live(h')
      ensures Slice(s', b + l.header, Live(h)[b]) == Slice(s, b + l.header, Live(h)[b])
    {
      if released != NULL { PayloadNotReleased(l, h, h', released, b); }
      SliceKept(l, h, h', released, hi, s, s', b);
    }
    ContentsSame(l, h', h, s', s, a);
  }

  lemma AllocatesInside(l: Layout, h: Heap, h': Heap, size: int, offer: int, a: int, n: int)
    requires l.Valid() && 0 <= size && Inside(l, h, n) && Allocates(l, h, h', size, offer, a)
    requires if offer != NULL then offer > 0 && offer + PagesFor(l, size) * l.page <= n
             else exists x :: Fits(l, h, Bucket(size), size, x)
    ensures Inside(l, h', n)
  {
    hide Bucket, Granted;
    forall b | b in h'.regions
      ensures 0 <= b && End(l, h', b) <= n
    {
      if b in h.regions {
        assert End(l, h, b) <= n;
      }
    }
  }

  lemma FreesInside(l: Layout, h: Heap, h': Heap, a: int, released: int, pages: int, n: int)
    requires Inside(l, h, n) && a in h.tags && |h.complete| == MAXEXP && Frees(l, h, h', a, released, pages)
    ensures Inside(l, h', n)
  {
    ReleasedRegion(l, h, h', a, released, pages);
    forall b | b in h'.regions
      ensures 0 <= b && End(l, h', b) <= n
    {
      assert End(l, h, b) <= n;
    }
  }

  function Fill(n: int, c: Byte): (s: seq<Byte>)
    ensures |s| == (if n < 0 then 0 else n) && forall i :: 0 <= i < |s| ==> s[i] == c
  {
    if n <= 0 then [] else seq(n, _ => c)
  }

  /** The block at from has moved to to, with a new size; as much of its contents as fits has gone along. */
  ghost predicate Moved(c: map<int, seq<Byte>>, c': map<int, seq<Byte>>, from: int, to: int, size: int) {
    && from in c && to in c' && to !in c && c' - {to} == c - {from} && |c'[to]| == size >= 0
    && var k := if |c[from]| < size then |c[from]| else size;
    c'[to][..k] == c[from][..k]
  }

  /** The block at a, of this size, is new; all others are as before. */
  ghost predicate Fresh(c: map<int, seq<Byte>>, c': map<int, seq<Byte>>, a: int, size: int) {
    a !in c && a in c' && c' - {a} == c && |c'[a]| == size
  }

  lemma LiveSize(h: Heap, a: int)
    requires a in Live(h)
    ensures a in h.tags && h.tags[a].size == Live(h)[a]
  {}

  lemma StoredBlock(l: Layout, h: Heap, s: seq<Byte>, a: int)
    requires Valid(l, h) && Inside(l, h, |s|) && a in Live(h)
    ensures a in Contents(l, h, s) && |Contents(l, h, s)[a]| == Live(h)[a] >= 0
  {
    InsideBlock(l, h, |s|, a);
  }

  lemma PayloadsDisjoint(l: Layout, h: Heap, a: int, b: int)
    requires Valid(l, h) && a in Live(h) && b in Live(h) && a != b
    ensures a + l.header + Live(h)[a] <= b + l.header || b + l.header + Live(h)[b] <= a + l.header
  {
    PayloadsApart(l, h, a, b);
    PayloadsApart(l, h, b, a);
  }

  /** A write to the payload of one block changes the contents of that block only. */
  lemma Written(l: Layout, h: Heap, s: seq<Byte>, s': seq<Byte>, a: int, w: seq<Byte>)
    requires Valid(l, h) && Inside(l, h, |s|) && a in Live(h) && |w| == Live(h)[a]
    requires var at := a + l.header; 0 <= at && at + |w| <= |s| && s' == s[..at] + w + s[at + |w|..]
    ensures Contents(l, h, s') == Contents(l, h, s)[a := w]
  {
    hide Live;
    forall b | b in Live(h)
      ensures Slice(s', b + l.header, Live(h)[b]) == if b == a then w else Slice(s, b + l.header, Live(h)[b])
    {
      InsideBlock(l, h, |s|, b);
      if b != a { PayloadsDisjoint(l, h, a, b); }
    }
  }

  /** A copy to q is a write of the copied bytes and of what the place had behind them. */
  lemma CopyIsWrite(s: seq<Byte>, p: int, q: int, n: int, size: int) returns (w: seq<Byte>)
    requires 0 <= p && 0 <= n <= size && p + n <= |s| && 0 <= q && q + size <= |s|
    ensures |w| == size && w[..n] == s[p..p + n]
    ensures s[..q] + s[p..p + n] + s[q + n..] == s[..q] + w + s[q + size..]
  {
    w := s[p..p + n] + s[q + n..q + size];
    assert s[q + n..] == s[q + n..q + size] + s[q + size..];
  }

  lemma StoredSlice(l: Layout, h: Heap, s: seq<Byte>, a: int, n: int)
    requires Valid(l, h) && Inside(l, h, |s|) && a in Live(h) && 0 <= n <= Live(h)[a]
    ensures 0 <= a + l.header && a + l.header + n <= |s|
    ensures a in Contents(l, h, s) && |Contents(l, h, s)[a]| == Live(h)[a]
    ensures s[a + l.header..a + l.header + n] == Contents(l, h, s)[a][..n]
  {
    hide ValidBut, Live, Inside;
    InsideBlock(l, h, |s|, a);
  }

  /** The contents of a block are the bytes behind its tag. */
  lemma StoredByte(l: Layout, h: Heap, s: seq<Byte>, a: int, j: int)
    requires Valid(l, h) && Inside(l, h, |s|) && a in Live(h) && 0 <= j < Live(h)[a]
    ensures 0 <= a + l.header + j < |s| && a in Contents(l, h, s) && j < |Contents(l, h, s)[a]|
    ensures Contents(l, h, s)[a][j] == s[a + l.header + j]
  {
    hide ValidBut, Live, Inside;
    InsideBlock(l, h, |s|, a);
  }

  /** A block has moved: its byte j, if there is room for it, is the one that it had. */
  lemma MovedByte(l: Layout, h: Heap, s: seq<Byte>, h': Heap, s': seq<Byte>, from: int, to: int, size: int, j: int)
    requires Valid(l, h) && Inside(l, h, |s|) && Valid(l, h') && Inside(l, h', |s'|)
    requires Moved(Contents(l, h, s), Contents(l, h', s'), from, to, size)
    ensures from in Live(h) && to in Live(h') && Live(h')[to] == size
    ensures 0 <= j < size && j < Live(h)[from] ==>
              && 0 <= from + l.header + j < |s| && 0 <= to + l.header + j < |s'|
              && s'[to + l.header + j] == s[from + l.header + j]
  {
    hide ValidBut, Live, Inside, Slice;
    var c, c' := Contents(l, h, s), Contents(l, h', s');
    StoredBlock(l, h, s, from);
    StoredBlock(l, h', s', to);
    if 0 <= j < size && j < Live(h)[from] {
      StoredByte(l, h, s, from, j);
      StoredByte(l, h', s', to, j);
      var k := if |c[from]| < size then |c[from]| else size;
      assert c'[to][..k][j] == c[from][..k][j];
    }
  }

  lemma ContentsKeys(l: Layout, h: Heap, s: seq<Byte>)
    ensures Contents(l, h, s).Keys == Live(h).Keys
  {}

  /** And byte j of any other block b stays where it is. */
  lemma UnmovedByte(l: Layout, h: Heap, s: seq<Byte>, h': Heap, s': seq<Byte>, from: int, to: int, size: int,
                    b: int, j: int)
    requires Valid(l, h) && Inside(l, h, |s|) && Valid(l, h') && Inside(l, h', |s'|)
    requires Moved(Contents(l, h, s), Contents(l, h', s'), from, to, size)
    requires b in Live(h) && b != from && 0 <= j < Live(h)[b]
    ensures b in Live(h') && Live(h')[b] == Live(h)[b]
    ensures 0 <= b + l.header + j < |s| && b + l.header + j < |s'| && s'[b + l.header + j] == s[b + l.header + j]
  {
    hide ValidBut, Live, Inside, Slice;
    var c, c' := Contents(l, h, s), Contents(l, h', s');
    StoredBlock(l, h, s, b);
    assert b in c - {from} && (c' - {to})[b] == (c - {from})[b];
    ContentsKeys(l, h', s');
    StoredBlock(l, h', s', b);
    StoredByte(l, h, s, b, j);
    StoredByte(l, h', s', b, j);
  }

  /** After the copy the block at to begins with what the one at from holds. */
  lemma Copied(l: Layout, h: Heap, s: seq<Byte>, s': seq<Byte>, from: int, to: int, n: int) returns (w: seq<Byte>)
    requires Valid(l, h) && Inside(l, h, |s|) && from in Live(h) && to in Live(h) && from != to
    requires 0 <= n <= Live(h)[from] && n <= Live(h)[to]
    requires var p, q := from + l.header, to + l.header;
             && 0 <= p && p + n <= |s| && 0 <= q && q + n <= |s|
             && s' == s[..q] + s[p..p + n] + s[q + n..]
    ensures |w| == Live(h)[to] && Contents(l, h, s') == Contents(l, h, s)[to := w]
    ensures from in Contents(l, h, s) && |Contents(l, h, s)[from]| == Live(h)[from]
            && w[..n] == Contents(l, h, s)[from][..n]
  {
    hide ValidBut, Live, Inside, Contents;
    InsideBlock(l, h, |s|, to);
    StoredSlice(l, h, s, from, n);
    w := CopyIsWrite(s, from + l.header, to + l.header, n, Live(h)[to]);
    Written(l, h, s, s', to, w);
  }

  lemma MovedInSteps(c: map<int, seq<Byte>>, c1: map<int, seq<Byte>>, c': map<int, seq<Byte>>, from: int, to: int,
                     size: int,
                     n: int, w: seq<Byte>)
    requires from in c && to !in c && to in c1 && c1 - {to} == c && c' == c1[to := w] - {from}
    requires |w| == size && n == (if |c[from]| < size then |c[from]| else size)
    requires from in c1 && n <= |c1[from]| && w[..n] == c1[from][..n]
    ensures Moved(c, c', from, to, size)
  {
    assert (c1 - {to})[from] == c1[from];
    assert c' - {to} == c - {from} by {
      assert (c' - {to}).Keys == (c - {from}).Keys;
      forall b | b in c && b != from
        ensures c'[b] == c[b]
      {
        assert (c1 - {to})[b] == c1[b];
      }
    }
  }

  lemma Extended(c: map<int, seq<Byte>>, d: map<int, seq<Byte>>, a: int, w: seq<Byte>)
    requires d - {a} == c && a in d
    ensures d[a := w] == c[a := w]
  {
    assert d[a := w].Keys == c[a := w].Keys;
    forall b | b in c && b != a
      ensures d[b] == c[b]
    {
      assert (d - {a})[b] == d[b];
    }
  }

  class Memory {
    const heap: Allocator
    const bytes: array<Byte>

    constructor (heap: Allocator, bytes: array<Byte>)
      ensures this.heap == heap && this.bytes == bytes
    {
      this.heap := heap;
      this.bytes := bytes;
    }

    ghost predicate Ready()
      reads this, heap, heap.freePages, heap.completePages
    {
      heap.Ready() && Inside(heap.l, heap.State(), bytes.Length)
    }

    ghost function Stored(): map<int, seq<Byte>>
      reads this, heap, heap.freePages, heap.completePages, bytes
    {
      Contents(heap.l, heap.State(), bytes[..])
    }

    /** The writes of the heap itself, at their most: any byte of a tag from before or after the operation,
        and of pages that are new or gone, may change, to whatever noise says. */
    method Touch(ghost h: Heap, before: map<int, Tag>, lo: int, hi: int, noise: int -> Byte)
      requires before == h.tags
      modifies bytes
      ensures Touched(heap.l, h, heap.Now(), lo, hi, old(bytes[..]), bytes[..])
    {
      ghost var s := bytes[..];
      for p := 0 to bytes.Length
        invariant forall q :: p <= q < bytes.Length ==> bytes[q] == s[q]
        invariant forall q :: 0 <= q < p && !(lo <= q < hi)
                              && !InTag(heap.l.header, h.tags, q) && !InTag(heap.l.header, heap.tags, q) ==>
                                bytes[q] == s[q]
      {
        if InTag(heap.l.header, before, p) || InTag(heap.l.header, heap.tags, p) || lo <= p < hi {
          bytes[p] := noise(p);
        }
      }
    }

    /** The answer of the page layer to a request: null, or pages of this memory that overlap no region. */
    ghost predicate Answers(size: int, offer: int)
      reads this, heap, heap.freePages, heap.completePages
      requires heap.l.Valid()
    {
      offer != NULL ==>
        0 <= size && Offered(heap.l, heap.State(), offer, PagesFor(heap.l, size))
        && offer + PagesFor(heap.l, size) * heap.l.page <= bytes.Length
    }

    /** malloc: the contents of all other blocks stay. */
    method Malloc(size: int, offer: int, junk: int, noise: int -> Byte) returns (ptr: int)
      requires Ready() && Requestable(heap.l, size) && Answers(size, offer)
      modifies heap, heap.freePages, heap.completePages, bytes
      ensures Ready() && (ptr != NULL <==> old(Served(heap.l, heap.State(), size, offer)))
      ensures ptr == NULL ==> heap.State() == old(heap.State()) && Stored() == old(Stored())
      ensures ptr != NULL ==>
                && ptr > 0 && ptr - heap.l.header !in old(Stored())
                && Live(heap.State()) == old(Live(heap.State()))[ptr - heap.l.header := size]
                && Stored() - {ptr - heap.l.header} == old(Stored())
    {
      hide Live, Allocates, Bucket, Touched, ValidBut, Contents;
      ghost var h, s := heap.State(), bytes[..];
      var before := if heap.initialized then heap.tags else map[];
      ptr := heap.Malloc(size, offer, junk);
      if ptr == NULL {
        return;
      }
      ghost var a := ptr - heap.l.header;
      var hi := if offer != NULL then offer + PagesFor(heap.l, size) * heap.l.page else offer;
      Touch(h, before, offer, hi, noise);
      AllocatesInside(heap.l, h, heap.Now(), size, offer, a, bytes.Length);
      AllocatesKeeps(heap.l, h, heap.Now(), size, offer, a, hi, s, bytes[..]);
      ContentsKeys(heap.l, h, s);
      InsideBlock(heap.l, heap.Now(), bytes.Length, a);
    }

    /** free: the contents of all other blocks stay. */
    method Free(ptr: int, noise: int -> Byte)
      requires Ready() && (ptr != NULL ==> ptr - heap.l.header in Live(heap.State()))
      modifies heap, heap.freePages, heap.completePages, bytes
      ensures Ready()
      ensures ptr == NULL ==> heap.State() == old(heap.State()) && Stored() == old(Stored())
      ensures ptr != NULL ==> Live(heap.State()) == old(Live(heap.State())) - {ptr - heap.l.header}
      ensures ptr != NULL ==> Stored() == old(Stored()) - {ptr - heap.l.header}
    {
      hide Live, Frees, Touched, ValidBut, Contents;
      ghost var h, s := heap.State(), bytes[..];
      var before := heap.tags;
      var released, pages := heap.Free(ptr);
      if ptr == NULL {
        return;
      }
      ghost var a := ptr - heap.l.header;
      var hi := if released != NULL then released + pages * heap.l.page else released;
      Touch(h, before, released, hi, noise);
      FreesInside(heap.l, h, heap.Now(), a, released, pages, bytes.Length);
      FreesKeeps(heap.l, h, heap.Now(), a, released, pages, hi, s, bytes[..]);
    }

    /** Sets n bytes. */
    method MemSet(at: int, c: Byte, n: int)
      requires 0 <= at && 0 <= n && at + n <= bytes.Length
      modifies bytes
      ensures bytes[..] == old(bytes[..at]) + Fill(n, c) + old(bytes[at + n..])
    {
      for i := 0 to n
        invariant forall j :: at <= j < at + i ==> bytes[j] == c
        invariant forall j :: 0 <= j < bytes.Length && !(at <= j < at + i) ==> bytes[j] == old(bytes[j])
      {
        bytes[at + i] := c;
      }
    }

    /** done bytes of the copy of memory s are made. */
    ghost predicate CopyMade(s: seq<Byte>, to: int, from: int, done: int)
      reads bytes
      requires |s| == bytes.Length && 0 <= from && from + done <= |s|
    {
      && (forall j :: to <= j < to + done && 0 <= j < bytes.Length ==> bytes[j] == s[from + (j - to)])
      && (forall j :: 0 <= j < bytes.Length && !(to <= j < to + done) ==> bytes[j] == s[j])
    }

    method CopyByte(ghost s: seq<Byte>, to: int, from: int, done: int, ghost n: int)
      requires |s| == bytes.Length && 0 <= to && 0 <= from && 0 <= done < n && to + n <= |s| && from + n <= |s|
      requires (to + n <= from || from + n <= to) && CopyMade(s, to, from, done)
      modifies bytes
      ensures CopyMade(s, to, from, done + 1)
    {
      bytes[to + done] := bytes[from + done];
    }

    /** A word is four bytes; the two words do not overlap. */
    method CopyWord(ghost s: seq<Byte>, to: int, from: int, done: int, ghost n: int)
      requires |s| == bytes.Length && 0 <= to && 0 <= from && 0 <= done && done + 4 <= n && to + n <= |s|
               && from + n <= |s|
      requires (to + n <= from || from + n <= to) && CopyMade(s, to, from, done)
      modifies bytes
      ensures CopyMade(s, to, from, done + 4)
    {
      CopyByte(s, to, from, done, n);
      CopyByte(s, to, from, done + 1, n);
      CopyByte(s, to, from, done + 2, n);
      CopyByte(s, to, from, done + 3, n);
    }

    /** Copies n bytes between places that do not overlap: words first, then the bytes that are left. */
    method MemCpy(to: int, from: int, n: int)
      requires 0 <= to && 0 <= from && 0 <= n && to + n <= bytes.Length && from + n <= bytes.Length
      requires to + n <= from || from + n <= to
      modifies bytes
      ensures bytes[..] == old(bytes[..to]) + old(bytes[from..from + n]) + old(bytes[to + n..])
    {
      ghost var s := bytes[..];
      var done := 0;
      while n - done >= 4
        invariant 0 <= done <= n && CopyMade(s, to, from, done)
      {
        CopyWord(s, to, from, done, n);
        done := done + 4;
      }
      while done < n
        invariant 0 <= done <= n && CopyMade(s, to, from, done)
      {
        CopyByte(s, to, from, done, n);
        done := done + 1;
      }
      assert bytes[..] == s[..to] + s[from..from + n] + s[to + n..];
    }

    /** calloc: a block of zeros.  When malloc fails, the bytes are set at address 0 all the same, which
        does no harm only if there are none. */
    method Calloc(nobj: nat, size: nat, offer: int, junk: int, noise: int -> Byte) returns (ptr: int)
      requires Ready() && Requestable(heap.l, nobj * size) && Answers(nobj * size, offer)
      requires nobj * size == 0 || Served(heap.l, heap.State(), nobj * size, offer)
      modifies heap, heap.freePages, heap.completePages, bytes
      ensures Ready() && (ptr != NULL <==> old(Served(heap.l, heap.State(), nobj * size, offer)))
      ensures ptr == NULL ==> Stored() == old(Stored())
      ensures ptr != NULL ==> ptr - heap.l.header !in old(Stored())
                              && Stored() == old(Stored())[ptr - heap.l.header := Fill(nobj * size, 0)]
    {
      hide Live, ValidBut, Contents, Offered, PagesFor, Served;
      var realSize := nobj * size;
      ptr := Malloc(realSize, offer, junk, noise);
      ghost var a, s := ptr - heap.l.header, bytes[..];
      if ptr != NULL {
        InsideBlock(heap.l, heap.State(), bytes.Length, a);
        ContentsKeys(heap.l, heap.State(), s);
      }
      MemSet(ptr, 0, realSize);
      if ptr != NULL {
        Written(heap.l, heap.State(), s, bytes[..], a, Fill(realSize, 0));
        Extended(old(Stored()), Contents(heap.l, heap.State(), s), a, Fill(realSize, 0));
      } else {
        assert bytes[..] == s;
      }
    }

    /** realloc: size 0 only frees, a null pointer only allocates, otherwise the block moves.  When malloc
        fails for a move, the copy goes to address 0 all the same, which does no harm only if it is empty. */
    method Realloc(p: int, size: int, offer: int, junk: int, noise: int -> Byte) returns (ptr: int)
      requires Ready() && 0 <= size && (p != NULL ==> p - heap.l.header in Live(heap.State()))
      requires size != 0 ==> Requestable(heap.l, size) && Answers(size, offer)
      requires size != 0 && p != NULL && Live(heap.State())[p - heap.l.header] != 0 ==>
                 Served(heap.l, heap.State(), size, offer)
      modifies heap, heap.freePages, heap.completePages, bytes
      ensures Ready() && (ptr != NULL <==> size != 0 && old(Served(heap.l, heap.State(), size, offer)))
      ensures ptr == NULL ==> Stored() == if p == NULL then old(Stored()) else old(Stored()) - {p - heap.l.header}
      ensures ptr != NULL && p == NULL ==> Fresh(old(Stored()), Stored(), ptr - heap.l.header, size)
      ensures ptr != NULL && p != NULL ==> Moved(old(Stored()), Stored(), p - heap.l.header, ptr - heap.l.header, size)
    {
      hide Live, ValidBut, Contents, Offered, PagesFor, Moved, Inside, Served;
      if size == 0 {
        Free(p, noise);
        return NULL;
      }
      if p == NULL {
        ptr := Malloc(size, offer, junk, noise);
        if ptr != NULL {
          StoredBlock(heap.l, heap.State(), bytes[..], ptr - heap.l.header);
        }
        return;
      }
      ptr := Move(p, size, offer, junk, noise);
    }

    /** The part of realloc that moves a block. */
    method Move(p: int, size: int, offer: int, junk: int, noise: int -> Byte) returns (ptr: int)
      requires Ready() && Requestable(heap.l, size) && Answers(size, offer)
      requires p != NULL && p - heap.l.header in Live(heap.State())
      requires Live(heap.State())[p - heap.l.header] != 0 ==> Served(heap.l, heap.State(), size, offer)
      modifies heap, heap.freePages, heap.completePages, bytes
      ensures Ready() && (ptr != NULL <==> old(Served(heap.l, heap.State(), size, offer)))
      ensures ptr == NULL ==> Stored() == old(Stored()) - {p - heap.l.header}
      ensures ptr != NULL ==> Moved(old(Stored()), Stored(), p - heap.l.header, ptr - heap.l.header, size)
    {
      hide Live, ValidBut, Contents, Offered, PagesFor, Moved, Inside, Served;
      ghost var from, h, c := p - heap.l.header, heap.State(), Stored();
      LiveSize(h, from);
      StoredBlock(heap.l, h, bytes[..], from);
      InsideBlock(heap.l, h, bytes.Length, from);
      var realSize := heap.tags[p - heap.l.header].size;
      if realSize > size {
        realSize := size;
      }
      ptr := Malloc(size, offer, junk, noise);
      if ptr == NULL {
        CopyNothing(p, realSize);
        Free(p, noise);
        return;
      }
      ghost var c1 := Stored();
      StoredBlock(heap.l, heap.State(), bytes[..], ptr - heap.l.header);
      StoredBlock(heap.l, heap.State(), bytes[..], from);
      ghost var w := CopyAndFree(p, ptr, realSize, noise);
      MovedInSteps(c, c1, Stored(), from, ptr - heap.l.header, size, realSize, w);
    }

    /** The copy to address 0, of no bytes. */
    method CopyNothing(p: int, n: int)
      requires n == 0 <= p <= bytes.Length
      modifies bytes
      ensures bytes[..] == old(bytes[..])
    {
      MemCpy(NULL, p, n);
    }

    /** The last two steps of realloc: n bytes of the block p go to the block ptr, and p is given back. */
    method CopyAndFree(p: int, ptr: int, n: int, noise: int -> Byte) returns (ghost w: seq<Byte>)
      requires Ready() && p != NULL && p != ptr
      requires p - heap.l.header in Live(heap.State()) && ptr - heap.l.header in Live(heap.State())
      requires 0 <= n <= Live(heap.State())[p - heap.l.header] && n <= Live(heap.State())[ptr - heap.l.header]
      modifies heap, heap.freePages, heap.completePages, bytes
      ensures Ready() && p - heap.l.header in old(Stored()) && n <= |old(Stored())[p - heap.l.header]|
      ensures |w| == old(Live(heap.State()))[ptr - heap.l.header] && n <= |w|
              && w[..n] == old(Stored())[p - heap.l.header][..n]
      ensures Stored() == old(Stored())[ptr - heap.l.header := w] - {p - heap.l.header}
    {
      hide Live, ValidBut, Contents;
      ghost var from, to, h, s := p - heap.l.header, ptr - heap.l.header, heap.State(), bytes[..];
      InsideBlock(heap.l, h, bytes.Length, from);
      InsideBlock(heap.l, h, bytes.Length, to);
      PayloadsDisjoint(heap.l, h, from, to);
      MemCpy(ptr, p, n);
      w := Copied(heap.l, h, s, bytes[..], from, to, n);
      Free(p, noise);
    }
  }
}
