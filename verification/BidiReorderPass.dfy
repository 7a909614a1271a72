/** The in-place reordering of a line, on a stretch of the text and level arrays. */
module BidiReorderPass {
  import opened BidiClasses
  import opened BidiReorder

  function Chars(g: seq<Glyph>): (s: seq<char>)
    ensures |s| == |g| && forall i :: 0 <= i < |g| ==> s[i] == g[i].ch
  {
    seq(|g|, i requires 0 <= i < |g| => g[i].ch)
  }

  /** The glyphs g are what stands in the arrays from position start on. */
  ghost predicate Shows(text: array<char>, plevel: array<int>, start: int, g: seq<Glyph>)
    reads text, plevel
  {
    && 0 <= start && start + |g| <= text.Length == plevel.Length
    && (forall j :: start <= j < start + |g| ==> text[j] == g[j - start].ch)
    && (forall j :: start <= j < start + |g| ==> plevel[j] == g[j - start].level)
  }

  /** Reverses count characters from start on. */
  method ReverseText(text: array<char>, start: nat, count: nat)
    requires start + count <= text.Length
    modifies text
    ensures forall j :: start <= j < start + count ==> text[j] == old(text[2 * start + count - 1 - j])
    ensures forall j :: 0 <= j < start ==> text[j] == old(text[j])
    ensures forall j :: start + count <= j < text.Length ==> text[j] == old(text[j])
  {
    var ich, cch := start, start + count - 1;
    while ich < cch
      invariant start <= ich <= start + count && ich + cch == 2 * start + count - 1
      invariant forall j :: start <= j < ich ==> text[j] == old(text[2 * start + count - 1 - j])
      invariant forall j :: cch < j < start + count ==> text[j] == old(text[2 * start + count - 1 - j])
      invariant forall j :: ich <= j <= cch ==> text[j] == old(text[j])
      invariant forall j :: 0 <= j < start ==> text[j] == old(text[j])
      invariant forall j :: start + count <= j < text.Length ==> text[j] == old(text[j])
    {
      var chTemp := text[ich];
      text[ich] := text[cch];
      text[cch] := chTemp;
      ich, cch := ich + 1, cch - 1;
    }
  }

  /** The characters of g stand in the text from position start on. */
  ghost predicate ShowsChars(text: array<char>, start: int, g: seq<Glyph>)
    reads text
  {
    && 0 <= start && start + |g| <= text.Length
    && forall j :: start <= j < start + |g| ==> text[j] == g[j - start].ch
  }

  /** The recursion on the text body has made done of its front and is left with rest. */
  ghost predicate Left(level: int, hi: int, rev: bool, body: seq<Glyph>, done: seq<Glyph>, rest: seq<Glyph>) {
    && AtLeast(level, body) && AtMost(hi, body) && AtLeast(level, rest) && AtMost(hi, rest)
    && ReorderParts(level, hi, rev, body) == done + ReorderParts(level, hi, rev, rest)
  }

  lemma LeftLow(level: int, hi: int, rev: bool, body: seq<Glyph>, done: seq<Glyph>, c: Glyph, tail: seq<Glyph>)
    requires Left(level, hi, rev, body, done, [c] + tail) && c.level == level
    ensures Left(level, hi, rev, body, done + [c], tail)
  {
    BoundsSplit(level, hi, [c], tail);
    assert [c][0].level <= hi;
    PartsLow(level, hi, rev, c, tail);
    Associate(done, [c], ReorderParts(level, hi, rev, tail));
  }

  lemma LeftHigh(level: int, hi: int, rev: bool, body: seq<Glyph>, done: seq<Glyph>, head: seq<Glyph>, tail: seq<Glyph>)
    requires Left(level, hi, rev, body, done, head + tail)
    requires head != [] && AtLeast(level + 1, head) && (tail == [] || tail[0].level <= level)
    ensures AtMost(hi, head) && Left(level, hi, rev, body, done + Reorder(level + 1, hi, rev, head), tail)
  {
    BoundsSplit(level, hi, head, tail);
    PartsHigh(level, hi, rev, head, tail);
    Associate(done, Reorder(level + 1, hi, rev, head), ReorderParts(level, hi, rev, tail));
  }

  lemma LeftStart(level: int, hi: int, rev: bool, body: seq<Glyph>)
    requires AtLeast(level, body) && AtMost(hi, body)
    ensures Left(level, hi, rev, body, [], body)
  {}

  lemma LeftEnd(level: int, hi: int, rev: bool, body: seq<Glyph>, done: seq<Glyph>)
    requires Left(level, hi, rev, body, done, [])
    ensures done == ReorderParts(level, hi, rev, body)
  {}

  lemma LeftNotBelow(level: int, hi: int, rev: bool, body: seq<Glyph>, done: seq<Glyph>, rest: seq<Glyph>)
    requires Left(level, hi, rev, body, done, rest) && rest != []
    ensures rest[0].level >= level
  {}

  /** Behind the loop: the reversal of the whole stretch, if enabled. */
  method FinishLevel(text: array<char>, start: nat, count: nat, rev: bool, ghost done: seq<Glyph>)
    requires count == |done| && ShowsChars(text, start, done)
    modifies text
    ensures ShowsChars(text, start, if rev then Reverse(done) else done)
    ensures forall j :: 0 <= j < start ==> text[j] == old(text[j])
    ensures forall j :: start + count <= j < text.Length ==> text[j] == old(text[j])
  {
    if rev {
      ReverseText(text, start, count);
    }
  }

  lemma ShowsTail(text: array<char>, plevel: array<int>, start: int, head: seq<Glyph>, tail: seq<Glyph>)
    requires 0 <= start && start + |head + tail| <= text.Length == plevel.Length
    requires forall j :: start + |head| <= j < start + |head + tail| ==> text[j] == (head + tail)[j - start].ch
    requires forall j :: start + |head| <= j < start + |head + tail| ==> plevel[j] == (head + tail)[j - start].level
    ensures Shows(text, plevel, start + |head|, tail)
  {
    forall j | start + |head| <= j < start + |head| + |tail|
      ensures text[j] == tail[j - (start + |head|)].ch && plevel[j] == tail[j - (start + |head|)].level
    {
      assert (head + tail)[j - start] == tail[j - start - |head|];
    }
  }

  /** The recursive call, for a run above the level at the head of the rest of the line. */
  method ReorderRun(level: int, text: array<char>, plevel: array<int>, start: nat, cch: nat, rev: bool,
                    ghost hi: int, ghost rest: seq<Glyph>, ghost after: seq<Glyph>)
    returns (n: nat, ghost head: seq<Glyph>, ghost tail: seq<Glyph>)
    requires |rest| + |after| == cch && Shows(text, plevel, start, rest + after) && AtMost(hi, rest)
    requires rest != [] && rest[0].level > level && AtLeast(level, rest) && (after == [] || after[0].level < level)
    modifies text
    ensures rest == head + tail && head != [] && n == |head| && AtLeast(level + 1, head) && AtMost(hi, head)
    ensures tail == [] || tail[0].level <= level
    ensures ShowsChars(text, start, Reorder(level + 1, hi, rev, head))
    ensures Shows(text, plevel, start + n, tail + after)
    ensures forall j :: 0 <= j < start ==> text[j] == old(text[j])
    ensures forall j :: start + n <= j < text.Length ==> text[j] == old(text[j])
    decreases cch, hi - level, 0
  {
    head, tail := FirstRun(level + 1, rest);
    BoundsSplit(level, hi, head, tail);
    Associate(head, tail, after);
    n := ReorderLevel(level + 1, text, plevel, start, cch, rev, hi, head, tail + after);
    ShowsTail(text, plevel, start, head, tail + after);
  }

  lemma ShowsJoin(text: array<char>, start: int, a: seq<Glyph>, b: seq<Glyph>)
    requires ShowsChars(text, start, a) && ShowsChars(text, start + |a|, b)
    ensures ShowsChars(text, start, a + b)
  {}

  /** A character of the level at the head of the rest of the line stays. */
  lemma LowStep(level: int, text: array<char>, plevel: array<int>, at: int, rev: bool,
                hi: int, body: seq<Glyph>, after: seq<Glyph>, done: seq<Glyph>, rest: seq<Glyph>)
    requires rest != [] && rest[0].level == level
    requires Left(level, hi, rev, body, done, rest)
    requires Shows(text, plevel, at, rest + after)
    ensures Left(level, hi, rev, body, done + [rest[0]], rest[1..])
    ensures ShowsChars(text, at, [rest[0]]) && Shows(text, plevel, at + 1, rest[1..] + after)
  {
    var tail := rest[1..];
    assert rest == [rest[0]] + tail;
    LeftLow(level, hi, rev, body, done, rest[0], tail);
    assert rest + after == [rest[0]] + (tail + after);
    ShowsTail(text, plevel, at, [rest[0]], tail + after);
  }

  /** A run above the level at the head of the rest of the line is reordered. */
  method HighStep(level: int, text: array<char>, plevel: array<int>, at: nat, left: nat, rev: bool,
                  ghost hi: int, ghost body: seq<Glyph>, ghost after: seq<Glyph>,
                  ghost done: seq<Glyph>, ghost rest: seq<Glyph>)
    returns (n: nat, ghost added: seq<Glyph>, ghost rest': seq<Glyph>)
    requires rest != [] && |rest| + |after| == left && (after == [] || after[0].level < level)
    requires rest[0].level > level && Left(level, hi, rev, body, done, rest)
    requires Shows(text, plevel, at, rest + after)
    modifies text
    ensures 0 < n == |rest| - |rest'| == |added|
    ensures Left(level, hi, rev, body, done + added, rest')
    ensures ShowsChars(text, at, added) && Shows(text, plevel, at + n, rest' + after)
    ensures forall j :: 0 <= j < at ==> text[j] == old(text[j])
    ensures forall j :: at + n <= j < text.Length ==> text[j] == old(text[j])
    decreases left, hi - level, 1
  {
    ghost var head;
    n, head, rest' := ReorderRun(level, text, plevel, at, left, rev, hi, rest, after);
    LeftHigh(level, hi, rev, body, done, head, rest');
    added := Reorder(level + 1, hi, rev, head);
  }

  /** The loop body, with what has been reordered before. */
  method ReorderNext(level: int, text: array<char>, plevel: array<int>, ghost start: nat, at: nat, end: nat, rev: bool,
                     ghost hi: int, ghost body: seq<Glyph>, ghost after: seq<Glyph>,
                     ghost done: seq<Glyph>, ghost rest: seq<Glyph>)
    returns (next: nat, ghost done': seq<Glyph>, ghost rest': seq<Glyph>)
    requires rest != [] && at + |rest| + |after| == end && (after == [] || after[0].level < level)
    requires Left(level, hi, rev, body, done, rest)
    requires at == start + |done| && ShowsChars(text, start, done) && Shows(text, plevel, at, rest + after)
    modifies text
    ensures at < next == start + |done'| && |done'| + |rest'| == |done| + |rest|
    ensures Left(level, hi, rev, body, done', rest')
    ensures ShowsChars(text, start, done') && Shows(text, plevel, next, rest' + after)
    ensures forall j :: 0 <= j < start ==> text[j] == old(text[j])
    ensures forall j :: next <= j < text.Length ==> text[j] == old(text[j])
    decreases end - at, hi - level, 2
  {
    hide Left, Reorder, ReorderParts, AtLeast, AtMost, Reverse, HighRun;
    ghost var added;
    var n;
    assert plevel[at] == (rest + after)[0].level == rest[0].level;
    LeftNotBelow(level, hi, rev, body, done, rest);
    if plevel[at] > level {
      n, added, rest' := HighStep(level, text, plevel, at, end - at, rev, hi, body, after, done, rest);
    } else {
      n, added, rest' := 1, [rest[0]], rest[1..];
      LowStep(level, text, plevel, at, rev, hi, body, after, done, rest);
    }
    ShowsJoin(text, start, done, added);
    done' := done + added;
    next := at + n;
  }

  /** The recursion: reorders the leading characters that are at the level or above, body, and returns
      their number. */
  method ReorderLevel(level: int, text: array<char>, plevel: array<int>, start: nat, cch: nat, fReverse: bool,
                      ghost hi: int, ghost body: seq<Glyph>, ghost after: seq<Glyph>)
    returns (used: nat)
    requires |body| + |after| == cch && Shows(text, plevel, start, body + after)
    requires AtLeast(level, body) && AtMost(hi, body) && (after == [] || after[0].level < level)
    modifies text
    ensures used == |body| && ShowsChars(text, start, Reorder(level, hi, fReverse, body))
    ensures forall j :: 0 <= j < start ==> text[j] == old(text[j])
    ensures forall j :: start + used <= j < text.Length ==> text[j] == old(text[j])
    decreases cch, hi - level, 3
  {
    var at, end := start, start + cch;
    // true as soon as the first odd level is encountered
    var rev := fReverse || Odd(level);
    ghost var done, rest := [], body;
    LeftStart(level, hi, rev, body);
    while at < end
      invariant start <= at == start + |done| && |done| + |rest| == |body|
      invariant Left(level, hi, rev, body, done, rest)
      invariant ShowsChars(text, start, done) && Shows(text, plevel, at, rest + after)
      invariant forall j :: 0 <= j < start ==> text[j] == old(text[j])
      invariant forall j :: at <= j < text.Length ==> text[j] == old(text[j])
      decreases end - at
    {
      assert plevel[at] == (rest + after)[0].level;
      if plevel[at] < level {
        break;
      }
      at, done, rest := ReorderNext(level, text, plevel, start, at, end, rev, hi, body, after, done, rest);
    }
    assert rest == [];
    LeftEnd(level, hi, rev, body, done);
    FinishLevel(text, start, at - start, rev, done);
    used := at - start;
  }
}
