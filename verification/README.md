# Verification of the ChaiOS text engine, kernel heap, floor and module linker

A Dafny 4.11 model of four parts of ChaiOS and proofs about them.

**Text.** `ChaiOS/bidi.cpp` is an implementation of the Unicode Bidirectional Algorithm, UAX #9 as of Unicode 5.2.
It works on an array of directional classes and an array of levels, in passes that rewrite both in place.
The model has every pass as a method on arrays with the loops, tables and recursion of the code, and every rule of
the algorithm as a small function on sequences. The methods are proved equal to machines on sequences
(`BidiExplicit`, `BidiWeak`, `BidiNeutral`, `BidiImplicit`, `BidiWhitespace`, `BidiReorderPass`, `BidiLines`), and
the machines to the rules (`BidiWeakProof`, `BidiNeutralProof`, `BidiReorder`). The code never removes the formatting
codes, as rule X9 demands, but simulates that; the main results (`BidiPipeline.PassesAreRules`,
`Bidi.DisplayIsRules`) say that for every paragraph the simulation gives every other character the level, and in the
end the place, that the rules give it in the text from which the codes have been removed. `Bidi.BidiInterface` joins
this with the search for the base level and the cleaning.

What the passes and the rules have in common (levels and directions, white space, the codes) is pinned down once more by
modules that state the rules position by position, with their numbers and classes written out: `BidiEmbedding` says
what an embedding or an override does to the text between its code and its PDF, and that matched pairs vanish;
`BidiByPosition` gives W1 to W7, N1, N2 and the level runs, `BidiNeutralLevels` the level of every letter and neutral
between letters; `BidiLineRules` and `BidiOrder` a displayed line: of two characters the one in front is shown first
exactly when the lowest level from the one to the other is even. The modules build on each other in the order Classes,
Alphabet, Explicit, Embedding, WeakTables, WeakRules, Weak, Runs, WeakProof, Neutral, NeutralRules, ByPosition,
NeutralProof, Marking, Implicit, Pipeline, NeutralLevels, Reorder, Order, ReorderPass, Whitespace, Lines, LineRules,
Removal, Paragraph, Bidi.

**Heap.** `ChaiOS/liballoc.cpp` is a boundary-tag allocator. `HeapAllocator.Allocator` has its global state as
fields: the tags in effect, as a map from addresses, the list heads and the counters of whole regions, which are
arrays. A tag that is merged into its neighbour leaves the map: its bytes are payload from then on. The size of a tag
and of a page are parameters. `HeapTags` states the invariants: split chains that tile every region, linked free lists,
lists by size, no two free neighbours, counters that agree with the lists. For the proofs every tag also has its
region and the time at which it was last put on a list; the times fall along every list, which is what makes the lists
acyclic. Malloc and Free are specified by what they do to the blocks (`HeapAllocation.Allocates`,
`HeapCoalescing.Frees`), and `HeapTheorems` and `HeapBytes` prove what a client relies on: blocks in use are disjoint,
an allocation from a list that is freed leaves no trace, and no operation changes the contents of another block.
Requests are met exactly when a block on the list for the size fits or the page layer has pages
(`HeapAllocation.ServedExactly`), and no block handed out is larger than needed by more than a tag and 255 bytes
(`HeapAllocation.GrantIsTight`).

**Floor.** `kcstdlib/math.cpp` computes floor on the two 32-bit words of a double. `Doubles` defines the value of the
encoding as an integer multiple of two to the power -1074 and the operations on words bit by bit; `Floor` proves that
the code returns the encoding of the greatest integer not above the value, for every finite double.

**Linker.** `ChaiOS/moduleload.cpp` links every module that is loaded with all others, in both directions, with the
functions of `ChaiOS/PortableExecutable.cpp`. `Linker` proves what the import slots hold after every run of loads.

`Powers` has powers of two and division. `dafny verify dfyconfig.toml` checks everything.

Where code and documentation differ, the model follows the code:

- `ChaiOS/bidi.cpp:1396` returns true for texts that are not right-to-left (`Bidi.IsRtlInverted`).
- The comparison of names at `ChaiOS/PortableExecutable.cpp:356` looks at characters in upper case but returns the
  difference of the characters as they are; that is zero exactly for names that are equal but for case
  (`CStrings.StrCaseCmp`).
- The legend of the alphabet at `ChaiOS/bidi.cpp:229-251` gives 0x4 and 0x5 two classes; in the table they are L and R
  (`BidiAlphabet.LegendOfText`).
- Of the two searching modes named at `ChaiOS/liballoc.cpp:15-18` the one in use adds nothing to the exponent of a
  request, so that the search looks at the list of its own size, where blocks may be too small.

## Model

| member | source | states |
|---|---|---|
| `BidiClasses.SetDeferredRun` | ChaiOS/bidi.cpp:356-363 | sets exactly the given number of entries in front of a position and no other |
| `BidiExplicit.ResolveExplicit` | ChaiOS/bidi.cpp:508-583 | the recursion with its two nesting counters leaves, on every text, the classes and levels of the stack machine for X1 to X9; it consumes all characters, and its depth is bounded by the number of levels, not by the length |
| `BidiExplicit.ResolveFrom` | ChaiOS/bidi.cpp:517-582 | every recursive call, from any position and nesting: it handles the text up to the matching PDF or the end as the stack machine does |
| `BidiExplicit.ResolveEmbedding` | ChaiOS/bidi.cpp:524-555 | an opening code: a level above the limit is counted but changes nothing, any other one opens a call with that level and direction |
| `BidiExplicit.RunTrace` | ChaiOS/bidi.cpp:508-583 | the stacks that the machine goes through, step by step, one for every position |
| `BidiClasses.KeepPositions` | ChaiOS/bidi.cpp:60-67 | what X9 leaves is what stood at the marked positions, each once and in the order of the text |
| `BidiEmbedding.OpenedOnTrace` | ChaiOS/bidi.cpp:524-555 | on the run of the machine a code opens the least higher even or odd level, with L for LRO, R for RLO and no override otherwise, exactly up to level 61 |
| `BidiEmbedding.Governed` | ChaiOS/bidi.cpp:508-583 | told on the text alone: behind RLO every character up to the next code becomes R on the least higher odd level, behind LRO L on the least higher even one, behind RLE and LRE it keeps its class; a code above level 61 changes nothing |
| `BidiEmbedding.PairVanishes` | ChaiOS/bidi.cpp:557-583 | a code, its matching PDF and all between them, however nested, leave no trace in the rest of the paragraph |
| `BidiEmbedding.OutermostStays` | ChaiOS/bidi.cpp:557-583 | outside all matched pairs a character keeps its class and has the base level, and a PDF that matches nothing does nothing |
| `BidiWeakTables.TablesVerified` | ChaiOS/unicode_bidi.cpp:943-993 | the two tables keep the deferring states and the deferred and resolved classes in step, for every state and class: what the run-time check of the tables asserts |
| `BidiWeak.ResolveWeak` | ChaiOS/bidi.cpp:754-837 | the one-pass table machine in place leaves the classes and levels of the machine on sequences, for every text without codes; all table look-ups are in range |
| `BidiWeak.ResolveAt` | ChaiOS/bidi.cpp:762-828 | one character: BNs in front of a change of level become its direction, others are skipped or counted; the deferred window holds exactly the unresolved characters, everything before it is final |
| `BidiWeak.FixBoundary` | ChaiOS/bidi.cpp:766-801 | the treatment of a BN at the border of two level runs and of the running level |
| `BidiWeak.FlushRun` | ChaiOS/bidi.cpp:830-836 | at the end of the text the last deferred run is resolved and nothing stays pending |
| `BidiWeakProof.OneRunWeak` | ChaiOS/bidi.cpp:616-837 | on BN-free text of one level the table machine gives exactly the classes of rules W1 to W7 applied one after another over the whole text |
| `BidiWeakProof.WeakPassIsRules` | ChaiOS/bidi.cpp:40-67 | for all levels and with BNs left in: the other characters get the classes that W1 to W7 give them on every level run of the text without BNs, and keep their levels |
| `BidiWeakProof.WeakSimulation` | ChaiOS/bidi.cpp:754-837 | the simulation from every state, level and rest of the text: one table step is one step of the context of all seven rules |
| `BidiWeakProof.ContextStep` | ChaiOS/bidi.cpp:616-643 | the state table follows the context that the rules look back at |
| `BidiWeakProof.ActionStep` | ChaiOS/bidi.cpp:648-716 | the action table gives the class of the rules to the current character and to the deferred ones |
| `BidiByPosition.W1At` | ChaiOS/bidi.cpp:616-716 | W1 at every position: the class of the nearest character in front that is no mark |
| `BidiByPosition.W2At` | ChaiOS/bidi.cpp:616-716 | W2 at every position: EN becomes AN exactly when the nearest L, R or AL in front is AL |
| `BidiByPosition.W4At` | ChaiOS/bidi.cpp:616-716 | W4 at every position, by the characters on both sides |
| `BidiByPosition.W5At` | ChaiOS/bidi.cpp:616-716 | W5 at every position: ET becomes EN exactly when only ET stand between it and an EN, on either side |
| `BidiByPosition.W7At` | ChaiOS/bidi.cpp:616-716 | W7 at every position: EN becomes L exactly when the nearest L or R in front is L |
| `BidiByPosition.WeakOfRun` | ChaiOS/bidi.cpp:766-801 | every maximal run of one level is resolved by itself, with sor R exactly when the higher one of its level and the level in front is odd |
| `BidiMarking.WeakPassMarks` | ChaiOS/bidi.cpp:754-837 | what the weak pass leaves behind for the next one: only classes it has a column for, EN only where R governs, and BNs that stand for the borders of level runs or repeat the character before |
| `BidiNeutral.ResolveNeutrals` | ChaiOS/bidi.cpp:940-996 | the table machine in place equals the machine on sequences, for every text without weak classes |
| `BidiNeutral.RunNeutrals` | ChaiOS/bidi.cpp:951-995 | its loop: the deferred run is exactly the unresolved neutrals and the BNs among them |
| `BidiNeutralProof.NeutralPassIsRules` | ChaiOS/bidi.cpp:853-996 | behind the weak pass the machine gives the characters other than BN the classes of N1 and N2 on every level run, with AN and EN counting as R |
| `BidiNeutralProof.NeutralSimulation` | ChaiOS/bidi.cpp:940-996 | the simulation of these rules from every state and context |
| `BidiNeutralRules.NeutralRulesSettle` | ChaiOS/bidi.cpp:853-870 | the rules leave no neutral and change nothing else |
| `BidiByPosition.NeutralRulesAt` | ChaiOS/bidi.cpp:853-870 | N1 and N2 at every position: the direction of the nearest characters on both sides, numbers counting as R, if they agree, otherwise the embedding direction |
| `BidiByPosition.NeutralOfRun` | ChaiOS/bidi.cpp:857-996 | every maximal run of one level by itself: sor and eor by the parity of the higher level at each end, the embedding direction R exactly on an odd level |
| `BidiImplicit.Implicit` | ChaiOS/bidi.cpp:1016-1041 | the table gives the least level from the current one on that has the parity of the class, for numbers a strictly higher one |
| `BidiImplicit.ResolveImplicit` | ChaiOS/bidi.cpp:1025-1041 | rules I1 and I2 in place, past the surviving BNs |
| `BidiPipeline.ExplicitPass` | ChaiOS/bidi.cpp:508-583 | the first pass leaves no codes, BNs exactly in place of codes and BNs, levels from the base level to 61, and changes of level only behind BNs |
| `BidiPipeline.NeutralsSettled` | ChaiOS/bidi.cpp:940-1041 | no neutral and no pending run is left after the third pass, so the last table is never indexed out of range |
| `BidiPipeline.PassesAreRules` | ChaiOS/bidi.cpp:40-67 | on every paragraph the four passes, which leave codes and BNs in the text, give every other character the level of rules X1 to I2 with those removed by X9 |
| `BidiPipeline.LevelsWithin` | ChaiOS/bidi.cpp:508-1041 | all levels, those of BNs too, stay from the base level to 62 |
| `BidiNeutralLevels.NeutralLevel` | ChaiOS/bidi.cpp:853-1041 | the level of a neutral between letters or ends of its level run: its explicit level if the two sides differ, otherwise the least one from there with the parity of both sides |
| `BidiNeutralLevels.LetterLevel` | ChaiOS/bidi.cpp:616-1041 | the level of every L and R: the least one from its explicit level that is even, or odd |
| `BidiNeutralLevels.NeutralsKeepBase` | ChaiOS/bidi.cpp:481-484 | a paragraph of neutrals keeps the base level, by the rules and by the passes |
| `BidiPipeline.ResolveLevels` | ChaiOS/bidi.cpp:1435-1445 | the four passes in sequence on the arrays, each within the preconditions that keep its look-ups in range |
| `BidiReorder.ReorderIsL2` | ChaiOS/bidi.cpp:1158-1195 | the recursive reordering is rule L2: from the highest level down to the lowest odd level on the line every maximal run at that level or above is reversed |
| `BidiOrder.DisplayOrder` | ChaiOS/bidi.cpp:1139-1195 | rule L2 without reversals: every character is shown once, and of two the one in front first exactly when the lowest level from the one to the other is even |
| `BidiReorder.Cancel` | ChaiOS/bidi.cpp:1158-1180 | reversals at two neighbouring levels cancel when no character is at the lower one: why reversing below the lowest odd level does no harm |
| `BidiReorder.RunsTwice` | ChaiOS/bidi.cpp:1158-1180 | reversing the runs of one level twice restores the text |
| `BidiReorder.LowestOddFound` | ChaiOS/bidi.cpp:1139-1142 | the lowest odd level that rule L2 stops at is one that some character has, and there is none below it |
| `BidiReorder.DownPermutes` | ChaiOS/bidi.cpp:1158-1195 | no reversal loses or adds a character |
| `BidiReorderPass.ReverseText` | ChaiOS/bidi.cpp:342-352 | reversal in place |
| `BidiReorderPass.ReorderLevel` | ChaiOS/bidi.cpp:1158-1180 | the nested recursion on sub-arrays equals the recursion on sequences and returns the length of the run |
| `BidiLines.ReorderLine` | ChaiOS/bidi.cpp:1185-1195 | the loop over a line, which makes progress because no level is below the base level, leaves the line as rule L2 orders it |
| `BidiWhitespace.ResolveWhitespace` | ChaiOS/bidi.cpp:1093-1133 | rule L1 on a line: separators and white space in front of a separator or the end get the base level, surviving codes the level of the character before, all else stays |
| `BidiLineRules.L1At` | ChaiOS/bidi.cpp:1076-1133 | L1 at every position: the base level exactly in front of the end or a separator with only WS, BN and codes between; codes and BNs elsewhere as the character in front; all else stays |
| `BidiWhitespace.L1WithoutControls` | ChaiOS/bidi.cpp:1076-1133 | rule L1 gives the other characters the same levels whether codes and BNs are left in the line or removed first |
| `BidiLines.ResolveLines` | ChaiOS/bidi.cpp:1060-1074 | the length of the first line: up to the first line separator or break flag |
| `BidiLines.FirstLine` | ChaiOS/bidi.cpp:1043-1059 | no break inside the line, one at its end unless the text ends; a line of a text that is not empty is not empty |
| `BidiLines.Mirror` | ChaiOS/bidi.cpp:1214-1239 | the four paired characters are exchanged on odd levels, all else stays |
| `BidiLines.MirrorTwice` | ChaiOS/bidi.cpp:1214-1239 | mirroring twice restores a character |
| `BidiLines.ReorderLines` | ChaiOS/bidi.cpp:1306-1335 | the line phase in place shows the lines of the paragraph one after another, each by rules L1, L4 and L2 |
| `BidiLines.NextLine` | ChaiOS/bidi.cpp:1311-1333 | one turn of its loop: it handles the first line that is left and touches nothing else |
| `BidiLineRules.LineShown` | ChaiOS/bidi.cpp:1306-1335 | a displayed line: each character once, mirrored exactly on the odd levels of L1, in the order by the lowest level between |
| `BidiLineRules.LineEnds` | ChaiOS/bidi.cpp:1060-1074 | a line ends behind the first character 0x15 or flag |
| `BidiParagraph.LinesPermute` | ChaiOS/bidi.cpp:1306-1335 | up to every line start the display is a permutation of the mirrored text, so no character is lost or changes its line |
| `BidiRemoval.PlainReorder` | ChaiOS/bidi.cpp:66-67 | removing the controls commutes with the reordering when they split no run |
| `BidiRemoval.L1SplitsNoRun` | ChaiOS/bidi.cpp:60-67 | the levels that rule L1 gives to controls split no run |
| `BidiRemoval.DisplayWithoutControls` | ChaiOS/bidi.cpp:60-67 | removing codes and BNs from a displayed line gives the display of the line from which they were removed |
| `BidiParagraph.ParagraphWithoutControls` | ChaiOS/bidi.cpp:60-67 | the same for all lines of a paragraph |
| `Bidi.ResolveParagraphs` | ChaiOS/bidi.cpp:423-433 | rule P1: cuts behind the first separator, which becomes a BN |
| `Bidi.ResolveBaseLevel` | ChaiOS/bidi.cpp:447-467 | the search for the base level, codes included |
| `Bidi.BaseLevelFound` | ChaiOS/bidi.cpp:436-467 | rules P2 and P3: level 1 exactly when the first strong character is R or AL |
| `Bidi.BaseLevelWithoutControls` | ChaiOS/bidi.cpp:436-467 | the codes and BNs have no part in it |
| `Bidi.Classify` | ChaiOS/bidi.cpp:379-399 | the classes of a text, with or without S and WS |
| `Bidi.CleanText` | ChaiOS/bidi.cpp:1257-1289 | the in-place removal keeps exactly the characters from 0x20 on that are none of the six code characters, in order |
| `Bidi.PassClassesAt` | ChaiOS/bidi.cpp:258-281 | S and WS count as neutral and the paragraph separator as BN, all other classes stay |
| `Bidi.CleanKeeps` | ChaiOS/bidi.cpp:1257-1289 | the cleaned text has every character from 0x20 on that is none of the six code characters, with its multiplicity and in order, and no other |
| `Bidi.ParagraphCut` | ChaiOS/bidi.cpp:1416-1424 | the text is cut behind 256 characters or its first separator, whichever comes first |
| `Bidi.DisplayIsRules` | ChaiOS/bidi.cpp:40-67 | end to end: the display of a paragraph with all controls left in shows the other characters as the rules do that remove the controls first |
| `Bidi.ShownIsRules` | ChaiOS/bidi.cpp:1435-1456 | the cleaned output is the cleaned display by the rules, when the controls of this text are cleaned away |
| `Bidi.ParagraphIsRules` | ChaiOS/bidi.cpp:1428-1456 | the whole way of a paragraph, with the base level that the code finds among codes and BNs, is that of the rules, which find it in the text without them |
| `BidiAlphabet.LegendOfText` | ChaiOS/bidi.cpp:212-251 | exactly the characters that the legend names for letters and marks have these classes in the table |
| `BidiAlphabet.LegendOfNumbers` | ChaiOS/bidi.cpp:212-251 | the same for numbers, separators and terminators |
| `BidiAlphabet.LegendOfCodes` | ChaiOS/bidi.cpp:212-251 | the same for the five codes |
| `BidiAlphabet.LegendOfSpaces` | ChaiOS/bidi.cpp:212-251 | the same for S, WS, B and BN |
| `Bidi.ControlOfTable` | ChaiOS/bidi.cpp:212-287 | a character of the class of a control stays on display exactly when it is beyond the table |
| `Bidi.AlphabetVanishes` | ChaiOS/bidi.cpp:1257-1289 | with the classes of the table all controls of a text are cleaned away exactly when none of its characters beyond the table is taken for one |
| `Bidi.BidiInterface` | ChaiOS/bidi.cpp:1416-1459 | the entry point, within the first 256 characters: first paragraph, base level, passes, second classification, line phase, cleaning; the result is every character of the display that is no code or control character, in order, and is the text that the rules display |
| `Bidi.IsRtlInverted` | ChaiOS/bidi.cpp:1396-1413 | the direction query, within the first 256 characters, holds exactly when the text is not right-to-left, the opposite of its name |
| `HeapTags.GetExp` | ChaiOS/liballoc.cpp:105-135 | the search for the exponent |
| `HeapTags.BucketBounds` | ChaiOS/liballoc.cpp:105-135 | a list holds blocks from a power of two up to the next, the first one also all smaller ones; the index is in range |
| `HeapAllocator.Allocator.InsertTag` | ChaiOS/liballoc.cpp:208-229 | puts a tag in front of the list of its bytes |
| `HeapAllocator.Allocator.RemoveTag` | ChaiOS/liballoc.cpp:231-241 | takes a tag off its list |
| `HeapAllocator.Allocator.MeltLeft` | ChaiOS/liballoc.cpp:244-254 | makes a block part of its left neighbour |
| `HeapAllocator.Allocator.AbsorbRight` | ChaiOS/liballoc.cpp:257-270 | makes the free right neighbour part of a block |
| `HeapAllocator.Allocator.SplitTag` | ChaiOS/liballoc.cpp:272-296 | cuts the rest off a block and puts it on its list |
| `HeapAllocator.Allocator.AllocateNewTag` | ChaiOS/liballoc.cpp:304-344 | asks for the pages of a request, at least 16, and makes them one block |
| `HeapAllocator.Allocator.FindFit` | ChaiOS/liballoc.cpp:372-388 | of the blocks on one list that are large enough, the one put there last; none only if there is none |
| `HeapAllocator.Allocator.CutExcess` | ChaiOS/liballoc.cpp:416-436 | cuts a block exactly when at least 256 bytes are left behind the request and a second tag |
| `HeapAllocator.Allocator.ObtainBlock` | ChaiOS/liballoc.cpp:369-404 | the choice: a fitting block of the list, otherwise a new region |
| `HeapAllocator.Allocator.Malloc` | ChaiOS/liballoc.cpp:348-451 | keeps all invariants from any valid state; grants the chosen block, cut if worth while, puts only the rest on a list, and changes no other block; fails, and then changes nothing, exactly if no block of the list fits and there are no pages; what is left behind the request is less than 256 bytes and a tag, or free again |
| `HeapAllocator.Allocator.MeltLeftwards` | ChaiOS/liballoc.cpp:481-489 | the loop runs once if the left neighbour is free, otherwise not at all |
| `HeapAllocator.Allocator.MeltRightwards` | ChaiOS/liballoc.cpp:491-498 | the same on the right |
| `HeapAllocator.Allocator.ReturnRegion` | ChaiOS/liballoc.cpp:508-528 | the region handed back has the base and the number of pages it was obtained with |
| `HeapAllocator.Allocator.GiveBack` | ChaiOS/liballoc.cpp:500-536 | a whole region goes back exactly when five stand by on its list, anything else goes on its list and is counted |
| `HeapAllocator.Allocator.Free` | ChaiOS/liballoc.cpp:457-544 | keeps all invariants; the space of the block and its free neighbours becomes one free block, the latest on its list, or its region goes back; changes nothing else |
| `HeapSteps.TakenOffKeeps` | ChaiOS/liballoc.cpp:231-241 | taking a tag off its list keeps tiling, lists, counts and coalescing |
| `HeapSteps.PutBackKeeps` | ChaiOS/liballoc.cpp:208-229 | putting a block between used neighbours on its list keeps them |
| `HeapBlocks.MergedKeeps` | ChaiOS/liballoc.cpp:244-270 | merging two neighbours that are not on a list keeps them |
| `HeapBlocks.MeltCommutes` | ChaiOS/liballoc.cpp:481-489 | taking the left neighbour off its list after the merge, as the loop does, is the same as before it |
| `HeapBlocks.SplitKeeps` | ChaiOS/liballoc.cpp:272-296 | cutting a block keeps them |
| `HeapBlocks.ObtainedKeeps` | ChaiOS/liballoc.cpp:304-344 | a new region that overlaps no other keeps them |
| `HeapBlocks.ReturnedKeeps` | ChaiOS/liballoc.cpp:508-528 | giving back a region that is one block keeps them |
| `HeapBlocks.WholeRegion` | ChaiOS/liballoc.cpp:505-528 | a block without neighbours is its whole region: base, size and number of pages agree |
| `HeapCoalescing.MeltLeftKeeps` | ChaiOS/liballoc.cpp:481-489 | after one melt to the left the new left neighbour is not free: the loop ends |
| `HeapCoalescing.AbsorbRightKeeps` | ChaiOS/liballoc.cpp:491-498 | after one absorption the new right neighbour is not free |
| `HeapCoalescing.CoalescedView` | ChaiOS/liballoc.cpp:481-498 | the block after both loops is the space of the block with its free neighbours; all other blocks stay |
| `HeapCoalescing.FreesInSteps` | ChaiOS/liballoc.cpp:457-544 | the steps of free add up to its effect on the blocks |
| `HeapAllocation.PagesFor` | ChaiOS/liballoc.cpp:310-319 | the number of pages is the least that holds the request and a tag, but at least 16 |
| `HeapAllocation.GrantIsTight` | ChaiOS/liballoc.cpp:416-436 | a block handed out is less than 256 bytes and a tag larger than needed; where there was more, the block is cut exactly behind the request and the rest is free |
| `HeapAllocation.ServedExactly` | ChaiOS/liballoc.cpp:369-404 | a request fails exactly when there are no pages and every free block between the same powers of two is too small for it and one more tag |
| `HeapAllocation.ChosenFirst` | ChaiOS/liballoc.cpp:372-388 | of a list the first block that is large enough is taken |
| `HeapAllocation.SixteenPages` | ChaiOS/liballoc.cpp:310-319 | sixteen pages or the least number that will do |
| `HeapAllocation.PagesFit` | ChaiOS/liballoc.cpp:91-102 | the pages of an admitted request make fewer bytes than the bound, so that their product does not wrap |
| `HeapAllocation.ShortenedKeeps` | ChaiOS/liballoc.cpp:272-296 | cutting and listing the rest keeps the invariants and changes the one block only |
| `HeapAllocation.AllocatesLive` | ChaiOS/liballoc.cpp:348-451 | the block handed out was not in use, and exactly that one is in use more than before |
| `HeapLists.FreeListAgrees` | ChaiOS/liballoc.cpp:208-241 | a tag has an index exactly when it is on that list, no tag is on a list twice, and the links in both directions agree |
| `HeapLists.FreeListSizes` | ChaiOS/liballoc.cpp:208-229 | the blocks of a list are those of its sizes |
| `HeapLists.NextOlder` | ChaiOS/liballoc.cpp:372-388 | the lists are in the order of the insertions, latest first |
| `HeapLists.RegionTiled` | ChaiOS/liballoc.cpp:244-296 | the split chain of a region begins at its base, contains exactly its blocks, without gap or overlap, and their sizes add up to its pages |
| `HeapLists.PayloadsApart` | ChaiOS/liballoc.cpp:348-451 | the bytes of a block in use lie within the block, apart from all tags and all other blocks |
| `HeapTheorems.RegionsApart` | ChaiOS/liballoc.cpp:91-102 | two regions have no address in common |
| `HeapTheorems.FreesLive` | ChaiOS/liballoc.cpp:457-544 | exactly the block given back is not in use any more |
| `HeapTheorems.FiveStandBy` | ChaiOS/liballoc.cpp:505-536 | a region goes back exactly when it is empty and five empty regions are on its list |
| `HeapTheorems.FreeUndoesMalloc` | ChaiOS/liballoc.cpp:348-544 | allocating a block from a list and freeing it restores all blocks |
| `HeapTheorems.FreeAfterNewRegion` | ChaiOS/liballoc.cpp:348-544 | allocating a new region and freeing the block leaves it as one free block or gives it back whole |
| `HeapBytes.Memory.MemCpy` | ChaiOS/liballoc.cpp:147-170 | the copy by words and then by bytes is a copy of the bytes |
| `HeapBytes.Memory.MemSet` | ChaiOS/liballoc.cpp:138-145 | sets exactly these bytes |
| `HeapBytes.AllocatesKeeps` | ChaiOS/liballoc.cpp:348-451 | malloc changes no byte of a block in use, although it writes tags |
| `HeapBytes.FreesKeeps` | ChaiOS/liballoc.cpp:457-544 | free changes no byte of another block in use |
| `HeapBytes.Memory.Malloc` | ChaiOS/liballoc.cpp:348-451 | the same for the memory itself; it fails exactly when the request cannot be met |
| `HeapBytes.Memory.Free` | ChaiOS/liballoc.cpp:457-544 | the same for the memory itself |
| `HeapBytes.Memory.Calloc` | ChaiOS/liballoc.cpp:549-561 | the new block is all zeros, all other blocks keep their contents; succeeds exactly when malloc can meet the request, from a list also without pages |
| `HeapBytes.MovedByte` | ChaiOS/liballoc.cpp:578-589 | byte by byte: what fits of a moved block is what it held |
| `HeapBytes.UnmovedByte` | ChaiOS/liballoc.cpp:578-589 | byte by byte: the other blocks stay as they are |
| `HeapBytes.Memory.Realloc` | ChaiOS/liballoc.cpp:565-589 | size 0 frees, a null pointer allocates, otherwise the block is moved; null exactly for size 0 or when the request cannot be met |
| `HeapBytes.Memory.Move` | ChaiOS/liballoc.cpp:578-589 | the new block begins with the first min(old, new) bytes of the old one, which is freed; all other blocks keep their contents |
| `Doubles.AndMask` | kcstdlib/math.cpp:615-641 | a mask of ones keeps the remainder modulo a power of two |
| `Doubles.AndOthers` | kcstdlib/math.cpp:627-651 | the complement of such a mask clears it |
| `Doubles.EncodingUnique` | kcstdlib/math.cpp:609-657 | value and sign determine the two words of a finite double |
| `Floor.Floor` | kcstdlib/math.cpp:609-657 | for every finite double the result is the encoding of the greatest integer not above its value, with the sign of zero kept; infinities and NaNs are added to themselves |
| `Floor.FloorUnique` | kcstdlib/math.cpp:609-657 | there is only one such encoding |
| `Floor.FloorSmall` | kcstdlib/math.cpp:617-625 | below exponent 0: zero, minus zero or minus one |
| `Floor.FloorHigh` | kcstdlib/math.cpp:626-633 | exponents 0 to 19, with the carry out of the fraction |
| `Floor.FloorLow` | kcstdlib/math.cpp:639-653 | exponents 20 to 51, with the carry from the low word into the high one and into the exponent |
| `Floor.LargeIsFloor` | kcstdlib/math.cpp:635-638 | from exponent 52 on the value is an integer already |
| `Floor.WholePart` | kcstdlib/math.cpp:609-657 | clearing the last bits of the encoding gives the next multiple of one below, adding one in the last place that stays the next one above |
| `Floor.DoubledKeeps` | kcstdlib/math.cpp:635-637 | an infinity stays, a NaN becomes the quiet one with the same sign and the same other bits |
| `Floor.HugeHolds` | kcstdlib/math.cpp:618-642 | the guards that raise the inexact flag hold wherever they are evaluated |
| `CStrings.StrCmp` | ChaiOS/PortableExecutable.cpp:349-354 | zero exactly for equal strings |
| `CStrings.StrCaseCmp` | ChaiOS/PortableExecutable.cpp:356-361 | zero exactly for strings that are equal but for case, although the result is the difference of the characters as they are |
| `CStrings.SameLetters` | ChaiOS/PortableExecutable.cpp:356-361 | names are equal but for case exactly when each letter is the same, small or capital |
| `Linker.Module.GetProcAddress` | ChaiOS/PortableExecutable.cpp:398-423 | the address of the first export of that name, 0 exactly if there is none; the bias of the ordinals cancels |
| `Linker.Module.ExportFrom` | ChaiOS/PortableExecutable.cpp:411-422 | an address is found exactly for the names that are exported |
| `Linker.BindThunks` | ChaiOS/PortableExecutable.cpp:496-522 | binds every slot of a descriptor, or fails exactly when one is by ordinal or not exported |
| `Linker.LinkSymbols` | ChaiOS/PortableExecutable.cpp:481-526 | binds the slots of the descriptors that name the other module and no other slots; succeeds exactly when the machines agree and all of them can be bound |
| `Linker.CanLinkExactly` | ChaiOS/PortableExecutable.cpp:481-526 | linking succeeds exactly when the machines agree and each slot of each descriptor that names the other module is by a name that it exports |
| `Linker.LinkPair` | ChaiOS/moduleload.cpp:100-113 | links two modules in both directions |
| `Linker.Loader.LoadModule` | ChaiOS/moduleload.cpp:100-133 | keeps the invariant over every run of successful loads: every ordered pair of different modules has been linked exactly once, no module with itself; succeeds exactly when all pairs can be linked |
| `Linker.SlotResolved` | ChaiOS/moduleload.cpp:100-133 | a slot holds the address of its export exactly when the module that it names is loaded, and is otherwise as in the file |

## Left out

- Bidi.ShownIsRules: is about texts in which every control is a character that the cleaning removes and no line separator is a control; for the table of the code `Bidi.AlphabetVanishes` says exactly which texts these are. For all other texts `Bidi.DisplayIsRules` compares the display in front of the cleaning. The passes themselves take the classes as an arbitrary function of the characters.
- The fixed buffers of 256 entries and the terminator of the result of the entry point; the arrays of the model have the length of the paragraph within the first 256 characters.
- The display of types and levels, and the second version of the engine (`ChaiOS/unicode_bidi.cpp`) apart from its table check.
- Rule L3 (combining marks), which the code does not implement.
- The spinlock, the debugging output and the page manager: every call is atomic, and the page layer is a parameter that answers null or a range of pages that overlaps no region.
- Pointers that were not handed out, or were given back already: Free needs a block in use, so its check of the magic number always succeeds.
- Sizes from two to the power 31 on: Malloc needs that the request, a tag and a page stay within that bound (`HeapAllocation.Requestable`), and every region is smaller. The code keeps sizes and numbers of pages in `int` (`ChaiOS/liballoc.cpp:91-102`, `138-145`, `549-589`), counts with `int`, and compares the rest of a block as a signed word (`ChaiOS/liballoc.cpp:418`); below the bound none of these wraps.
- HeapBytes.Memory.Calloc: needs that the request can be met unless it is for no bytes, and a product that is a size: the code tests neither, and sets the bytes at address 0 when malloc fails.
- HeapBytes.Memory.Realloc: needs that the request can be met when a block with contents moves: the code does not test the result of malloc, and copies to address 0.
- HeapBytes.Memory.Move: the same.
- The layout of a tag in bytes: an operation may change every byte of every tag that is in effect before or after it.
- The size field of a tag that a split creates is not set by the code; it is a parameter of the model.
- Floor.Floor: a NaN becomes a quiet NaN with the same payload; the exact bits that x + x yields for it are up to the processor. The inexact flag is not modelled.
- The other functions of `kcstdlib/math.cpp`, which are approximations without a stated error.
- The bytes of a PE image, its loading and its entry point: a module is a name, a base, a machine, an export table and a list of import descriptors. The 32-bit and the 64-bit version of linking differ only in the table whose end they test and are one method.
- Linker.Loader.LoadModule: needs a name that no loaded module has, even in another case; the code would bind slots again that hold addresses already. After a failed link the system stops, and nothing is said about the slots. Names longer than 63 characters overrun their field in the code and are not modelled.
- Exports: as many names as functions, and indices that do not overflow 16 bits with their bias.
- Real-mode modules, ramdisks, language files, hardware, graphics and the rest of the kernel.
