/** What every step of the allocator keeps of the invariants. */
module HeapSteps {
  import opened HeapTags

  // Taking a tag off its list.

  ghost predicate CanRemove(h: Heap, a: int) {
    Lists(h) && a in h.tags && h.tags[a].Free()
  }

  lemma CanRemoveListed(h: Heap, a: int)
    requires CanRemove(h, a)
    ensures Listed(h, a) && 0 <= h.tags[a].index < |h.free|
  {
    assert Listed(h, a);
  }

  lemma RemovedTag(h: Heap, a: int, x: int)
    requires CanRemove(h, a) && Listed(h, a) && x in h.tags
    ensures var h' := Removed(h, a);
            && h'.tags.Keys == h.tags.Keys && h' == h.(tags := h'.tags, free := h'.free)
            && h'.free == (if h.free[h.tags[a].index] == a then h.free[h.tags[a].index := h.tags[a].next] else h.free)
            && var t, t' := h.tags[x], h'.tags[x];
            && t'.(next := t.next, prev := t.prev, index := t.index) == t
            && t'.index == (if x == a then -1 else t.index)
            && t'.next == (if x == a then NULL else if x == h.tags[a].prev then h.tags[a].next else t.next)
            && t'.prev == (if x == a then NULL else if x == h.tags[a].next then h.tags[a].prev else t.prev)
  {
    assert Listed(h, x);
  }

  lemma RemovedTiled(l: Layout, h: Heap, a: int)
    requires CanRemove(h, a) && Listed(h, a) && Tiled(l, h)
    ensures Tiled(l, Removed(h, a))
  {
    hide Removed;
    var h' := Removed(h, a);
    RemovedTag(h, a, a);
    forall x | x in h.tags
      ensures Linked(l, h', x)
    {
      assert Linked(l, h, x);
      RemovedTag(h, a, x);
      if h.tags[x].splitLeft != NULL { RemovedTag(h, a, h.tags[x].splitLeft); }
      if h.tags[x].splitRight != NULL { RemovedTag(h, a, h.tags[x].splitRight); }
    }
    forall x, y | x in h.tags && y in h.tags
      ensures Apart(h', x, y)
    {
      assert Apart(h, x, y);
      RemovedTag(h, a, x);
    }
    forall b | b in h.regions
      ensures Rooted(l, h', b)
    {
      assert Rooted(l, h, b);
    }
  }

  lemma RemovedLists(h: Heap, a: int)
    requires CanRemove(h, a) && Listed(h, a)
    ensures Lists(Removed(h, a))
  {
    hide Removed;
    var h' := Removed(h, a);
    RemovedTag(h, a, a);
    assert Heads(h, h.tags[a].index);
    forall x | x in h.tags
      ensures Listed(h', x)
    {
      assert Listed(h, x);
      RemovedTag(h, a, x);
      if h.tags[x].Free() {
        if h'.tags[x].prev != NULL { assert Listed(h, h.tags[x].prev); RemovedTag(h, a, h'.tags[x].prev); }
        if h'.tags[x].next != NULL { RemovedTag(h, a, h'.tags[x].next); }
      }
    }
    forall i | 0 <= i < MAXEXP
      ensures Heads(h', i)
    {
      assert Heads(h, i);
      if h'.free[i] != NULL { RemovedTag(h, a, h'.free[i]); }
    }
    forall x, y | x in h.tags && y in h.tags
      ensures Timed(h', x, y)
    {
      assert Timed(h, x, y);
      RemovedTag(h, a, x);
      RemovedTag(h, a, y);
    }
  }

  lemma RemovedCounts(h: Heap, a: int)
    requires CanRemove(h, a) && Listed(h, a) && |h.complete| == MAXEXP
    requires forall i {:trigger Counted(h, i)} :: 0 <= i < MAXEXP ==> Counted(h, i)
    ensures var h' := TakenOff(h, a);
            |h'.complete| == MAXEXP && forall i {:trigger Counted(h', i)} :: 0 <= i < MAXEXP ==> Counted(h', i)
  {
    hide Removed;
    var h', k := TakenOff(h, a), h.tags[a].index;
    RemovedTag(h, a, a);
    forall i | 0 <= i < MAXEXP
      ensures Counted(h', i)
    {
      assert Counted(h, i);
      forall x | x in h.tags
        ensures x in WholeOn(h', i) <==> x in WholeOn(h, i) && x != a
      {
        RemovedTag(h, a, x);
      }
      assert WholeOn(h', i) == WholeOn(h, i) - {a};
    }
  }

  /** The numbers of whole regions play no part in the other invariants. */
  lemma OtherCounts(l: Layout, h: Heap, complete: seq<int>)
    requires Tiled(l, h) && Lists(h)
    ensures Tiled(l, h.(complete := complete)) && Lists(h.(complete := complete))
  {
    var h' := h.(complete := complete);
    forall a | a in h.tags
      ensures Linked(l, h', a) && Listed(h', a)
    {
      assert Linked(l, h, a) && Listed(h, a);
    }
    forall a, b | a in h.tags && b in h.tags
      ensures Apart(h', a, b) && Timed(h', a, b)
    {
      assert Apart(h, a, b) && Timed(h, a, b);
    }
    forall b | b in h.regions
      ensures Rooted(l, h', b)
    {
      assert Rooted(l, h, b);
    }
    forall i | 0 <= i < MAXEXP
      ensures Heads(h', i)
    {
      assert Heads(h, i);
    }
  }

  /** Tag a leaves its list; the block is now one that the operation is at work on. */
  lemma TakenOffKeeps(l: Layout, h: Heap, hot: set<int>, a: int)
    requires ValidBut(l, h, hot) && a in h.tags && h.tags[a].Free()
    ensures Listed(h, a) && ValidBut(l, TakenOff(h, a), hot + {a})
  {
    hide Removed, Counted;
    CanRemoveListed(h, a);
    var h' := TakenOff(h, a);
    var r := Removed(h, a);
    RemovedTag(h, a, a);
    RemovedTiled(l, h, a);
    RemovedLists(h, a);
    RemovedCounts(h, a);
    assert Tiled(l, h') && Lists(h') by {
      OtherCounts(l, r, h'.complete);
    }
    forall x | x in h.tags
      ensures x !in hot + {a} ==> Fitting(l, h', x)
      ensures Alone(h', x)
    {
      assert x !in hot ==> Fitting(l, h, x);
      assert Alone(h, x);
      RemovedTag(h, a, x);
      if h.tags[x].splitRight in h.tags { RemovedTag(h, a, h.tags[x].splitRight); }
    }
  }

  lemma TakenOffView(h: Heap, a: int)
    requires CanRemove(h, a) && Listed(h, a) && |h.complete| == MAXEXP
    ensures View(TakenOff(h, a)) == View(h)[a := Used(h.tags[a].size, h.tags[a].realSize)]
  {
    hide Removed;
    var v, v' := View(h)[a := Used(h.tags[a].size, h.tags[a].realSize)], View(TakenOff(h, a));
    RemovedTag(h, a, a);
    assert v'.Keys == v.Keys;
    forall x | x in v
      ensures v'[x] == v[x]
    {
      RemovedTag(h, a, x);
    }
  }

  // Putting a tag on a list.

  ghost predicate CanInsert(h: Heap, a: int, i: int) {
    Lists(h) && a in h.tags && h.tags[a].index == -1 && MINEXP <= i < MAXEXP && Past(h)
  }

  lemma CanInsertHead(h: Heap, a: int, i: int)
    requires CanInsert(h, a, i)
    ensures 0 <= i < |h.free| && (h.free[i] != NULL ==> h.free[i] in h.tags && h.free[i] != a)
    ensures h.tags[a].next == h.tags[a].prev == NULL
  {
    assert Heads(h, i);
    assert Listed(h, a);
  }

  lemma InsertedTag(h: Heap, a: int, i: int, x: int)
    requires CanInsert(h, a, i) && x in h.tags
    requires 0 <= i < |h.free| && (h.free[i] != NULL ==> h.free[i] in h.tags && h.free[i] != a)
    ensures var h' := Inserted(h, a, i);
            && h'.tags.Keys == h.tags.Keys
            && h' == h.(tags := h'.tags, free := h.free[i := a], stamp := h.stamp[a := h.clock], clock := h.clock + 1)
            && var t, t' := h.tags[x], h'.tags[x];
            && t'.(next := t.next, prev := t.prev, index := t.index) == t
            && t'.index == (if x == a then i else t.index)
            && t'.next == (if x == a then h.free[i] else t.next)
            && t'.prev == (if x == h.free[i] then a else t.prev)
  {
    assert Listed(h, x);
    assert Listed(h, a);
  }

  lemma InsertedTiled(l: Layout, h: Heap, a: int, i: int)
    requires CanInsert(h, a, i) && Tiled(l, h)
    requires 0 <= i < |h.free| && (h.free[i] != NULL ==> h.free[i] in h.tags && h.free[i] != a)
    ensures Tiled(l, Inserted(h, a, i))
  {
    hide Inserted;
    var h' := Inserted(h, a, i);
    InsertedTag(h, a, i, a);
    forall x | x in h.tags
      ensures Linked(l, h', x)
    {
      assert Linked(l, h, x);
      InsertedTag(h, a, i, x);
      if h.tags[x].splitLeft != NULL { InsertedTag(h, a, i, h.tags[x].splitLeft); }
      if h.tags[x].splitRight != NULL { InsertedTag(h, a, i, h.tags[x].splitRight); }
    }
    forall x, y | x in h.tags && y in h.tags
      ensures Apart(h', x, y)
    {
      assert Apart(h, x, y);
      InsertedTag(h, a, i, x);
    }
    forall b | b in h.regions
      ensures Rooted(l, h', b)
    {
      assert Rooted(l, h, b);
    }
  }

  lemma InsertedLists(h: Heap, a: int, i: int)
    requires CanInsert(h, a, i)
    requires 0 <= i < |h.free| && (h.free[i] != NULL ==> h.free[i] in h.tags && h.free[i] != a)
    ensures Lists(Inserted(h, a, i))
  {
    hide Inserted;
    var h' := Inserted(h, a, i);
    InsertedTag(h, a, i, a);
    assert Heads(h, i);
    assert Listed(h, a);
    if h.free[i] != NULL { assert Listed(h, h.free[i]); InsertedTag(h, a, i, h.free[i]); }
    forall x | x in h.tags
      ensures Listed(h', x)
    {
      assert Listed(h, x);
      InsertedTag(h, a, i, x);
      if x != a && h.tags[x].Free() {
        if h.tags[x].prev != NULL { InsertedTag(h, a, i, h.tags[x].prev); }
        if h.tags[x].next != NULL { InsertedTag(h, a, i, h.tags[x].next); }
      }
    }
    forall j | 0 <= j < MAXEXP
      ensures Heads(h', j)
    {
      assert Heads(h, j);
      if h'.free[j] != NULL { InsertedTag(h, a, i, h'.free[j]); }
    }
    forall x, y | x in h.tags && y in h.tags
      ensures Timed(h', x, y)
    {
      assert Timed(h, x, y);
      InsertedTag(h, a, i, x);
      InsertedTag(h, a, i, y);
    }
  }

  lemma InsertedCounts(h: Heap, a: int, i: int)
    requires CanInsert(h, a, i) && |h.complete| == MAXEXP
    requires 0 <= i < |h.free| && (h.free[i] != NULL ==> h.free[i] in h.tags && h.free[i] != a)
    requires forall j {:trigger Counted(h, j)} :: 0 <= j < MAXEXP ==> Counted(h, j)
    requires h.tags[a].splitLeft == NULL && h.tags[a].splitRight == NULL ==> h.complete[i] != MAXCOMPLETE
    ensures var h' := PutBack(h, a, i);
            |h'.complete| == MAXEXP && forall j {:trigger Counted(h', j)} :: 0 <= j < MAXEXP ==> Counted(h', j)
  {
    hide Inserted;
    var h' := PutBack(h, a, i);
    InsertedTag(h, a, i, a);
    forall j | 0 <= j < MAXEXP
      ensures Counted(h', j)
    {
      assert Counted(h, j);
      forall x | x in h.tags
        ensures x in WholeOn(h', j) <==> x in WholeOn(h, j) || (x == a && j == i && h'.tags[a].Whole())
      {
        InsertedTag(h, a, i, x);
      }
      assert WholeOn(h', j) == if j == i && h'.tags[a].Whole() then WholeOn(h, j) + {a} else WholeOn(h, j);
    }
  }

  /** Block a, between used neighbours, goes to the list for its bytes. */
  lemma PutBackKeeps(l: Layout, h: Heap, hot: set<int>, a: int, i: int)
    requires ValidBut(l, h, hot) && CanInsert(h, a, i) && i == Bucket(h.tags[a].realSize - l.header)
    requires h.tags[a].splitLeft in h.tags ==> !h.tags[h.tags[a].splitLeft].Free()
    requires h.tags[a].splitRight in h.tags ==> !h.tags[h.tags[a].splitRight].Free()
    requires h.tags[a].splitLeft == NULL && h.tags[a].splitRight == NULL ==> h.complete[i] != MAXCOMPLETE
    ensures 0 <= i < |h.free| && (h.free[i] != NULL ==> h.free[i] in h.tags && h.free[i] != a)
    ensures ValidBut(l, PutBack(h, a, i), hot - {a})
  {
    hide Inserted, Counted, Bucket;
    CanInsertHead(h, a, i);
    InsertedTag(h, a, i, a);
    InsertedTiled(l, h, a, i);
    InsertedLists(h, a, i);
    InsertedCounts(h, a, i);
    var h' := PutBack(h, a, i);
    assert Tiled(l, h') && Lists(h') by {
      OtherCounts(l, Inserted(h, a, i), h'.complete);
    }
    forall x | x in h.tags
      ensures x !in hot - {a} ==> Fitting(l, h', x)
      ensures Alone(h', x)
    {
      assert Linked(l, h, x) && Alone(h, x);
      assert x !in hot ==> Fitting(l, h, x);
      InsertedTag(h, a, i, x);
      if h.tags[x].splitRight in h.tags { InsertedTag(h, a, i, h.tags[x].splitRight); }
    }
  }

  lemma PutBackView(h: Heap, a: int, i: int)
    requires CanInsert(h, a, i) && |h.complete| == MAXEXP
    requires 0 <= i < |h.free| && (h.free[i] != NULL ==> h.free[i] in h.tags && h.free[i] != a)
    ensures View(PutBack(h, a, i)) == View(h)[a := Unused(h.tags[a].realSize)]
  {
    hide Inserted;
    var v, v' := View(h)[a := Unused(h.tags[a].realSize)], View(PutBack(h, a, i));
    InsertedTag(h, a, i, a);
    assert v'.Keys == v.Keys;
    forall x | x in v
      ensures v'[x] == v[x]
    {
      InsertedTag(h, a, i, x);
    }
  }

  lemma BlockBytes(l: Layout, h: Heap, a: int)
    requires Tiled(l, h) && a in h.tags
    ensures 0 <= h.tags[a].realSize - l.header
    ensures h.tags[a].realSize < LIMIT
  {
    assert Linked(l, h, a);
    assert Rooted(l, h, h.home[a]);
  }
}
