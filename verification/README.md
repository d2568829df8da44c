# n1k1: the fast paths and the simple definitions they stand for

n1k1 runs SQL++ plans by pushing rows through operators. Much of its code replaces a simple definition (fold the
frame again, evaluate every predicate, compare every pair) with a faster stateful one and promises the same result.
This project models those fast paths, in place where the engine works in place, and proves the promise: what each
loop keeps, and that the end result is the simple definition's. Rows are sequences of values, JSON is a datatype,
bytes are bytes, sort keys are integers within int64.

`dafny verify dfyconfig.toml` verifies everything.

## What is modelled

- **Predicate index.** `Automaton` is the theory of tries, longest suffixes and failure links; `Matcher` builds the
  Aho-Corasick automaton and its match set in place and reports exactly the patterns that occur. `Expr` evaluates
  expression trees on a row, `Prefilter` extracts the necessary literal, `Broadcast` has both fan-outs and their
  equality as bags; `Selection` is the bag algebra of visiting some parts in any order; `Seqs` and `Bytes` are shared
  vocabulary.
- **Context fan-out.** `ContextWindows` defines the windows of matches declaratively; `ContextFanout` is the one-pass
  machine with its buffers, counters and generation stamps.
- **Common sub-expressions.** `Cse` counts, selects, rewrites, and proves that a plan's run gives the plain
  broadcast's results.
- **Merge scan.** `MergeHeaps` is the hand-rolled binary heap, `MergeRows` and `MergeScan` the K-way merge,
  `MergeRegime` concatenation and the zone-map choice, `MergeReorder`, `MergeTrips`, `MergeNear` and `MergeStream` the
  watermarked reorder buffer, K children at a time or one streamed, `MergeWiden` what a widened bound does for later
  rows, and `MergeExec` the operator over all of them.
- **Merge join.** `AsofSpec` is brute force; `AsofIndex` says why a forward cursor finds it; `MergeJoin` joins against
  a materialized right side, `MergeJoinStream` by co-advancing two streams; `MergeJoinExec` runs either.
- **Window frames.** `WindowEdges`, `WindowBounds` and `WindowFrames` are RANGE, ROWS and GROUPS frames and their
  forward cursors; `WindowSteps` navigates a frame past its exclusions; `WindowFolds`, `WindowMinMax`, `WindowDeque`
  and `WindowSums` are the carried fold, the sliding COUNT, the MIN/MAX deque and the sliding SUM and AVG, each against
  a fresh fold; `WindowRuns` puts frames and folds together; `WindowPartition` drains partitions with their ranks.
- **Collation.** `Collation` is the preorder on JSON and its canonical text; `CollationOrder` says which of two values
  comes first, kind by kind; `CanonicalForm` reads the canonical text as the JSON text of a normal form, and
  `CanonicalBuffer` writes it; `NumberText` shows that the finite decimals can be formatted as it demands.
- **Hash join, grouping, ordering.** `ValsCodec` is the row encoding; `HashProbe`, `HashJoin` and `HashKeys` the probe
  map, the six kinds over it, and what they mean for values; `Group` and `Aggregates` the in-place accumulators and
  their byte layouts; `OrderBy` and `TopK` the comparator and the bounded heap.
- **Stage.** `Stage` and `StageRuns` are the transition system of actors, channel, stop signal and consumer over all
  interleavings; `StageCursor` the single-producer stream; `Union` is UNION ALL over the stage.

Two kinds of code outside the model enter as contracts. `Expr.StandardNav` says a label path reads a value nested in
the row's value; `Expr.StandardOps` says what "contains", "eq", "and" and the two regexp functions on plain patterns
answer. `Collation.FormatOk` says formatting gives one text to each of the numbers at hand. Rounding is a function on
reals that leaves integers up to 2^53 alone (`WindowSums.RoundsExactly`). The heap behind ORDER BY holds a maximal item
at its root and promises no more.

## Where the code and its description differ

- `PrefilterLiteral` takes a literal from any operand of "and" (engine/op_broadcast_indexed.go:268-281), but ExprAnd
  evaluates two. A literal from a third operand can be absent from a row whose predicate is truthy. The extractor is
  sound for predicates with at most n operands exactly when n is 2: `Prefilter.ThirdConjunctUnderWakes`,
  `Prefilter.ExtractorSoundIffBinary`.
- `BroadcastCSE` passes only label "." through (engine/op_broadcast_cse.go:108-109). A read of any other scan label is
  lost: `Cse.KeptLabels`.
- The streamed reorder says its output is that of the materialized one (engine/op_merge_scan.go:415-416). That holds
  whenever the stream raises no error and no warning; beyond the declared bound it raises them on inputs that the K-way
  loop accepts:
  `MergeStream.StreamIsKway`, `MergeStream.StreamIsStricter`.
- "widen" is said to grow the bound so that lateness does not recur (engine/op_merge_scan.go:332). For one stream that is
  right: a row within the widened bound of all earlier ones is not late, `MergeWiden.StreamWidens`. Among K children a
  watermark was set under the bound of its time, and such a row can be late again, as with keys 10, 12, 5, 9:
  `MergeWiden.KwayLags`. `MergeWiden.KwayWidens` says which bound counts, `MergeWiden.KwayLateIff` exactly when a row is
  late.
- The "auto" regime compares neighbours' zone maps only (engine/op_merge_scan.go:857-862). A child without rows whose
  map has min > max hides a descending pair: `MergeRegime.EmptyZoneMisleads`. Zone maps are enough exactly when those
  with min <= max follow each other: `MergeRegime.ZonesSufficeIff`.
- A GROUPS frame that begins at or after the current group begins at the last row of its first group, and one that ends
  before the current group ends at the first row of its last (base/agg_window.go:606-657). Each end is
  right exactly when that group has one row at most: `WindowBounds.GroupsBegin`, `WindowBounds.GroupsEnd`.
- A numeric RANGE frame always contains the current row, so it is not the rows in range when it starts after or ends
  before that row: `WindowBounds.RangeFrameIs`.
- The sliding COUNT, SUM and AVG fail on some ROWS and GROUPS bounds. ROWS BETWEEN 2 FOLLOWING AND 5 FOLLOWING loses
  rows beyond the partition, 3 PRECEDING AND 2 PRECEDING reads on from a negative position (engine/op_window.go:597,
  605,616-617), and 1 FOLLOWING AND 1 PRECEDING counts -1: `WindowRuns.StartsTooLate`, `EndsTooEarly`,
  `LeavesUnentered`. They are right on every partition exactly for the bounds of `WindowRuns.FramesFit`:
  `SlidingCountIsRightIff`, `SlidingSumsAreRightIff`. MIN and MAX only need that no frame ends before row 0:
  `WindowRuns.BestOver`, `SlidingBestReadsIff`.
- `Count` of a frame that ends before it begins is negative, unless an exclusion covers the gap: `WindowSteps.Count`.
- `SlideSumLeave` does not look at the 2^53 limit (base/agg_window.go:291-305). Four integers, each below it, make the
  sliding SUM trust -1 where the frame's sum is 0: `WindowSums.LeavingIsNotChecked`.
- INTERSECT and EXCEPT use a row's encoding as its key and test it like a value, by its first byte. A row whose width
  is 110 more than a multiple of 256 starts with the byte of an 'n', passes for NULL and is lost:
  `HashKeys.WideRowsAreLost`.

## Model

| member | source | states |
|---|---|---|
| `Automaton.SpellingsAreDistinct` | base/ahocorasick.go:99-118 | two nodes of the trie never spell the same prefix |
| `Automaton.TrieIsPrefixClosed` | base/ahocorasick.go:99-118 | every prefix of a node's spelling is some node's spelling |
| `Automaton.TrieGrows` | base/ahocorasick.go:105-116 | adding a child under a byte that has none keeps the trie a trie |
| `Automaton.FallingLands` | base/ahocorasick.go:134-145 | a failure walk that stops at a node with the wanted edge has found the longest suffix in the trie |
| `Automaton.FallingFailsAtRoot` | base/ahocorasick.go:134-145 | a failure walk that ends at the root without that edge shows that no suffix is in the trie |
| `Automaton.StateIsUnique` | base/ahocorasick.go:177-189 | the state after some bytes is determined: the node of their longest suffix in the trie |
| `Automaton.FlattenedOutput` | base/ahocorasick.go:147-152 | a node's flattened output is its own patterns and those of every proper suffix in the trie |
| `Automaton.StateReportsEnds` | base/ahocorasick.go:190-194 | the state's output is exactly the patterns that end at this byte |
| `Automaton.RootStateCompletes` | base/ahocorasick.go:170-198 | the empty patterns that only the root reports are added when a scan begins |
| `Automaton.PresentSplits` | base/ahocorasick.go:171-197 | patterns present in a text are the empty ones and those found in its scan |
| `Automaton.ExpandingStep` | base/ahocorasick.go:127-155 | expanding a node of the breadth-first queue keeps every shallower node linked |
| `Automaton.EmptyQueueLinksAll` | base/ahocorasick.go:120-156 | when the queue is empty every node has its failure link and output |
| `Matcher.AhoCorasickMatches.Reset` | base/ahocorasick.go:67-72 | the match set is emptied by clearing the ids it lists |
| `Matcher.AhoCorasickMatches.Add` | base/ahocorasick.go:79-84 | an id in range enters once; others are ignored |
| `Matcher.AhoCorasickMatches.AddAll` | base/ahocorasick.go:190-194 | a whole output list enters the set |
| `Matcher.AhoCorasick.Insert` | base/ahocorasick.go:99-118 | inserting a pattern's path keeps the trie of exactly the patterns so far |
| `Matcher.AhoCorasick.FailureOf` | base/ahocorasick.go:132-145 | the failure walk for a child ends, at the longest proper suffix of its spelling in the trie |
| `Matcher.AhoCorasick.LinkFailures` | base/ahocorasick.go:120-156 | the breadth-first pass ends with a complete automaton |
| `Matcher.AhoCorasick.constructor` | base/ahocorasick.go:89-159 | the built automaton is valid for the given patterns |
| `Matcher.AhoCorasick.Step` | base/ahocorasick.go:178-194 | one byte takes the state of a text to the state of the text and that byte |
| `Matcher.AhoCorasick.Feed` | base/ahocorasick.go:177-197 | one slice adds exactly the patterns that end in it or before |
| `Matcher.AhoCorasick.Advance` | base/ahocorasick.go:170-198 | a state threaded through slices ends where one scan of their concatenation does, with the same matches |
| `Matcher.AhoCorasick.Match` | base/ahocorasick.go:202-206 | the returned ids are exactly those whose pattern is a substring, each once |
| `Json.NestedTextOccurs` | engine/op_broadcast_indexed.go:287-300 | the text of a value nested anywhere in a row's value is a substring of the row's bytes |
| `Expr.FieldStringOccurs` | engine/expr.go:63-102 | a string that a label path reads sits byte for byte in the row |
| `Expr.TruthyUnlessFalsy` | base/base.go:63-99 | everything is truthy but MISSING, NULL, false, the number 0 and the empty string, array and object |
| `Prefilter.BinaryAndsSuffice` | engine/op_broadcast_indexed.go:268-281 | with two operands to every "and" the literal comes from an operand that is evaluated |
| `Prefilter.WhatIsIndexed` | engine/op_broadcast_indexed.go:219-285 | the literal of each shape of predicate that has one, and none for a pattern with metacharacters |
| `Prefilter.LiteralIsNecessary` | engine/op_broadcast_indexed.go:219-285 | the extracted literal is a substring of every row on which the predicate is truthy |
| `Prefilter.ThirdConjunctUnderWakes` | engine/op_broadcast_indexed.go:268-281 | an "and" of two true constants and a third conjunct is true of every row, and its extracted literal is necessary exactly for the rows that contain it |
| `Prefilter.ExtractorSoundIffBinary` | engine/op_broadcast_indexed.go:219-285 | the extractor is sound for all predicates whose "and" has up to n operands exactly when n is two |
| `Selection.VisitedIsChosen` | engine/op_broadcast_indexed.go:149-190 | visiting parts in any order, each once, collects the bag of those chosen |
| `Selection.ChosenIsAll` | engine/op_broadcast_indexed.go:149-190 | parts left out that are empty change nothing |
| `Broadcast.BroadcastExec` | engine/op_broadcast.go:93-152 | row by row and query by query, exactly the pairs whose predicate value is not falsy yield a result, which holds the query's tag and the values of its projections on the row |
| `Broadcast.WokenIsPlain` | engine/op_broadcast_indexed.go:67-205 | when the literals are necessary, leaving unwoken queries out changes no row's bag of results |
| `Broadcast.KeyQueries` | engine/op_broadcast_indexed.go:81-116 | each distinct literal gets one id, each query is under its literal or always awake |
| `Broadcast.VisitsTheAwake` | engine/op_broadcast_indexed.go:149-190 | the queries visited for a row are the woken ones, each once |
| `Broadcast.ScanRow` | engine/op_broadcast_indexed.go:142-147 | one pass over the row's slots finds exactly the literals in its bytes |
| `Broadcast.AskEach` | engine/op_broadcast_indexed.go:173-190 | the listed queries' answers, as a bag |
| `Broadcast.AskWoken` | engine/op_broadcast_indexed.go:149-169 | the answers of every query under a matched literal, as a bag |
| `Broadcast.BroadcastIndexedRow` | engine/op_broadcast_indexed.go:139-191 | a row's results are those of the queries its literals wake and of those always awake |
| `Broadcast.BroadcastIndexedExec` | engine/op_broadcast_indexed.go:67-194 | the sparse fan-out yields the plain fan-out's bag of tagged results whenever the extractor is sound |
| `Collation.LexReverses` | base/compare.go:160 | byte-wise comparison reverses with its operands |
| `Collation.LexTransitive` | base/compare.go:160 | byte-wise comparison is transitive |
| `Collation.SortSorts` | base/compare.go:397-408 | sorting key-values gives an ordered permutation |
| `Collation.SortedIsUnique` | base/compare.go:397-408 | with unique names there is only one sorted order |
| `Collation.SortIsMerge` | base/compare.go:237-270 | the merged and sorted pair list of two objects is the merge of their own sorted lists |
| `Collation.CompareObjects` | base/compare.go:263-308 | walking that list two at a time compares the objects field by field in name order, the longer object greater |
| `Collation.CompareReverses` | base/compare.go:127-317 | comparison is sign-antisymmetric on values with unique field names |
| `Collation.CompareTransitive` | base/compare.go:127-317 | comparison is transitive through nested arrays and objects, strictly where one step is strict |
| `CollationOrder.LexIsBefore` | base/compare.go:160 | below means: the first differing byte is smaller, or a proper prefix |
| `CollationOrder.NumbersInOrder` | base/compare.go:162-178 | numbers compare by value |
| `CollationOrder.BooleansInOrder` | base/compare.go:180-181 | false is below true |
| `CollationOrder.StringsInOrder` | base/compare.go:135-160 | strings compare by their bytes |
| `CollationOrder.KindsInOrder` | base/compare.go:127-131 | NULL, booleans, numbers, strings, arrays and objects follow each other |
| `CollationOrder.ArraysInOrder` | base/compare.go:183-235 | the first pair of elements that differ decides between arrays; a proper prefix is below |
| `CollationOrder.ObjectsInOrder` | base/compare.go:237-308 | the number of fields decides between objects, then, in name order, the first field that differs |
| `Collation.EqualGivesSameText` | base/canonical.go:34-143 | values that compare equal have the same canonical text |
| `Collation.TextIsUnambiguous` | base/canonical.go:34-143 | a canonical text at the head of a longer one can be read in one way only, when numbers have one text each |
| `Collation.FirstByte` | base/canonical.go:34-143 | the first canonical byte tells the type |
| `Collation.CanonicalIffEqual` | base/canonical.go:34-143 | two values compare equal exactly when their canonical texts are equal, over any numbers with one text each |
| `CanonicalForm.CanonicalIsText` | base/canonical.go:34-143 | the canonical form is the compact JSON text of the value in normal form |
| `CanonicalForm.NormalObject` | base/canonical.go:34-143 | an object's normal form has exactly its fields, in normal form, names ascending |
| `NumberText.BinaryIsDecimal` | base/canonical.go:45-52 | every integer over a power of two, so every finite float64, is a finite decimal |
| `NumberText.SameTextSameNumber` | base/canonical.go:45-52 | a scaled integer and its number of places determine the decimal |
| `NumberText.DecimalsHaveTexts` | base/canonical.go:45-52 | the finite decimals do have one text each over digits, minus and point, so the collation's demand on formatting can be met |
| `CanonicalBuffer.CanonicalJSON` | base/canonical.go:34-143 | the canonical text is appended to what the buffer holds, for every kind of value |
| `CanonicalBuffer.CanonicalArray` | base/canonical.go:54-87 | an array's elements in order, commas between them |
| `CanonicalBuffer.CanonicalObject` | base/canonical.go:89-138 | an object's fields in name order, commas between them |
| `MergeHeaps.RootIsLeast` | engine/op_merge_scan.go:787-845 | under heap order no key is below the root's |
| `MergeHeaps.UpStep` | engine/op_merge_scan.go:813-822 | one sift-up swap moves the only violation to the parent |
| `MergeHeaps.DownStep` | engine/op_merge_scan.go:572-589 | one sift-down swap with the smaller child moves the only violation to that child |
| `MergeHeaps.SmallerChild` | engine/op_merge_scan.go:824-841 | the chosen child is not above its sibling |
| `MergeHeaps.MergeHeap.Push` | engine/op_merge_scan.go:541-553 | a pair enters and heap order is kept |
| `MergeHeaps.MergeHeap.PopMin` | engine/op_merge_scan.go:556-565 | a least pair leaves and heap order is kept |
| `MergeHeaps.MergeHeap.Down` | engine/op_merge_scan.go:824-841 | sifting down from the root restores heap order and keeps the contents |
| `MergeHeaps.MergeHeap.MinIsLeast` | engine/op_merge_scan.go:535-538 | the root's key is the least of the contents |
| `MergeRows.KeyedRowsPrefix` | engine/op_merge_scan.go:619-655 | skipping keyless rows keeps the order of the others |
| `MergeRows.SortedPermutationsAgree` | engine/op_merge_scan.go:225-269 | two ascending arrangements of the same rows carry the same key sequence |
| `MergeScan.OpenCursors` | engine/op_merge_scan.go:233-238 | the frontier starts with each non-empty child's head |
| `MergeScan.LeastHead` | engine/op_merge_scan.go:803-811 | the entry popped is a live cursor's head and no live head is below it |
| `MergeScan.Next` | engine/op_merge_scan.go:244-262 | a pop, an advance and a push leave the frontier the heads of the advanced cursors |
| `MergeScan.InterleavesNext` | engine/op_merge_scan.go:244-262 | yielding a head extends the interleaving and keeps each child's order |
| `MergeScan.AllDelivered` | engine/op_merge_scan.go:244-269 | with every cursor exhausted all keyed rows were yielded and all children ascend |
| `MergeScan.MergeScanHeap` | engine/op_merge_scan.go:225-269 | the output ascends whatever the children hold; an error exactly when some child steps backwards; otherwise every keyed row once, each child's in its own order |
| `MergeRegime.TripwireIsRight` | engine/op_merge_scan.go:193-196 | the tripwire fires only when the children's concatenation is not ascending |
| `MergeRegime.ConcatenateChild` | engine/op_merge_scan.go:179-215 | one child's rows pass, keyless ones skipped, none after an error |
| `MergeRegime.MergeScanConcatenate` | engine/op_merge_scan.go:172-218 | an ascending prefix of the concatenation, all of it without error exactly when that ascends |
| `MergeRegime.MergeChooseRegime` | engine/op_merge_scan.go:848-869 | an explicit choice stands; "auto" concatenates exactly when the zone maps of all children follow each other |
| `MergeRegime.FollowingChildrenAscend` | engine/op_merge_scan.go:848-869 | ascending children, each within its zone map, concatenate to an ascending stream when every map that leaves room for a row follows every such map before it |
| `MergeRegime.ConcatenateIsHeap` | engine/op_merge_scan.go:781-869 | over true zone maps of that kind concatenation fails exactly when the heap merge does, and otherwise has its key sequence |
| `MergeRegime.NeighboursSuffice` | engine/op_merge_scan.go:853-866 | where no map is empty, comparing neighbours as "auto" does establishes that |
| `MergeRegime.ZonesSufficeIff` | engine/op_merge_scan.go:845-869 | that is exactly when the maps alone prove, for all ascending children within them, that concatenation ascends |
| `MergeRegime.EmptyZoneMisleads` | engine/op_merge_scan.go:848-869 | "auto" can be misled: maps whose neighbours follow each other, and ascending children within them, with a concatenation that descends |
| `MergeReorder.Watermark` | engine/op_merge_scan.go:502-512 | the int64 subtraction with its guard is subtraction cut off at the least int64 |
| `MergeReorder.LateIsBelowLast` | engine/op_merge_scan.go:374-387 | a row is late exactly when it is below a key that a watermark has passed |
| `MergeReorder.ExplainedDrain` | engine/op_merge_scan.go:338-361 | after draining to a watermark the last key yielded is the greatest one passed |
| `MergeReorder.EmitLeast` | engine/op_merge_scan.go:342-358 | the least buffered row is yielded; in a strict run the tripwire never fires |
| `MergeReorder.EmitSafe` | engine/op_merge_scan.go:338-361 | exactly the held rows that the watermark passed are yielded, ascending, and a warning is raised exactly if the first of them is below what was yielded before; no row is lost |
| `MergeReorder.Ingest` | engine/op_merge_scan.go:374-389 | a late row is refused, or let in with a warning and the greater of the bound in effect and the int64 difference by which it fell behind; any other enters unchanged |
| `MergeNear.MarkIsSafe` | engine/op_merge_scan.go:391-392 | within the bound nothing still to come is below the watermark |
| `MergeTrips.NextIsLate` | engine/op_merge_scan.go:374-387 | while no row of a traversal was late, the next one is exactly when it is below the last key yielded |
| `MergeTrips.Finish` | engine/op_merge_scan.go:363-397 | a traversal cut short by an error can be finished, and a late row stays late |
| `MergeTrips.KwayLogNext` | engine/op_merge_scan.go:363-397 | one turn more of the traversal: the row enters, and the buffer is drained to the mark of the next head under the bound in effect |
| `MergeNear.KwayTurn` | engine/op_merge_scan.go:363-397 | one turn keeps rows conserved, output explained, and children within the bound never late |
| `MergeNear.MergeScanKway` | engine/op_merge_scan.go:301-408 | strict output always ascends; a clean run, and any widening run, yields every keyed row once; children within the bound raise nothing; a run is clean exactly when, in a traversal that takes a least head each time, no row is below one passed; a child alone has one such traversal; bound, output and warnings are those of the traversal turn by turn |
| `MergeStream.MaxKeyIs` | engine/op_merge_scan.go:457-459 | runningMax is the greatest key seen |
| `MergeStream.MarkIsBelow` | engine/op_merge_scan.go:460-465 | within the bound no row is below the watermark it brings |
| `MergeStream.StreamYield` | engine/op_merge_scan.go:448-482 | one row in; the buffer of a child within the bound holds only keys in [runningMax - bound, runningMax] |
| `MergeStream.StreamEnd` | engine/op_merge_scan.go:492-495 | the flush yields what is left, in order |
| `MergeStream.MergeScanStream` | engine/op_merge_scan.go:419-496 | the K-way loop's promises, for one streamed child, with the exact condition of a clean run under either policy; bound, output and warnings are determined row by row |
| `MergeStream.StreamLateMeans` | engine/op_merge_scan.go:448-482 | a streamed row is late exactly when an earlier greater key is at least the bound below the greatest key seen |
| `MergeStream.KwayIsMoreLenient` | engine/op_merge_scan.go:301-496 | a child that streams cleanly merges cleanly in the K-way loop too |
| `MergeStream.StreamIsKway` | engine/op_merge_scan.go:301-496 | under either policy a clean stream has a clean K-way run with its key sequence; a child within the bound always streams cleanly |
| `MergeStream.StreamIsStricter` | engine/op_merge_scan.go:410-418 | beyond the bound the two differ: keys 10, 5, 1 under bound 2 fail the stream, not the K-way loop |
| `MergeWiden.StreamWidens` | engine/op_merge_scan.go:474-480 | streamed under "widen", a row is late only if it falls behind an earlier one by more than the bound in effect, which covers the declared bound and every shortfall admitted before |
| `MergeWiden.WideEnoughIsQuiet` | engine/op_merge_scan.go:474-480 | once the widened bound covers the disorder still to come, no streamed row is late and the bound stays |
| `MergeWiden.KwayWidens` | engine/op_merge_scan.go:374-387 | among K children, a row is late only if it falls behind an earlier one by more than the bound in effect when that one became the least head |
| `MergeWiden.KwayLags` | engine/op_merge_scan.go:332 | keys 10, 12, 5, 9: a row within the widened bound of all earlier ones is late in the K-way loop |
| `MergeWiden.KwayLateIff` | engine/op_merge_scan.go:363-397 | exactly when a row is late in the K-way loop: the last turn that yielded anything yielded a greater key, at least the bound in effect then below the key that had become the least head |
| `MergeExec.MergeHasNear` | engine/op_merge_scan.go:944-951 | true exactly when some child is declared near or none |
| `MergeExec.MergeMaxBound` | engine/op_merge_scan.go:960-975 | the least bound that covers every child's own declaration |
| `MergeExec.CursorsOf` | engine/op_merge_scan.go:626-654 | each cursor holds its child's keyed rows |
| `MergeExec.MergeScanWatermarked` | engine/op_merge_scan.go:135-153 | children that keep their declared bounds merge without error into an ascending permutation, streamed or not |
| `MergeExec.MergeScanStrict` | engine/op_merge_scan.go:135-163 | an error exactly when a child steps backwards, in the heap loop always, and in the concatenating one over true zone maps whose real ones follow each other |
| `AsofSpec.LastPreceding` | engine/op_merge_join.go:66-70 | brute force: the last right row of the partition with key <= k, or none |
| `AsofSpec.FirstFollowing` | engine/op_merge_join.go:72-77 | brute force: the first right row of the partition with key >= k, or none |
| `AsofSpec.AscendingLengthIs` | engine/op_merge_join.go:226-233 | how far the left input ascends |
| `AsofSpec.EquiRowAnswers` | engine/op_merge_join.go:66-77 | a left row's part of the equi join: each right row with its key once, in order, or one row beside MISSINGs when outer and there is none |
| `AsofSpec.AsofRowAnswers` | engine/op_merge_join.go:66-77 | of the ASOF join: the last right row of its partition at or below its key, or following the first at or above it, if the two keys are no more than a soft tolerance apart |
| `AsofSpec.JoinAnswers` | engine/op_merge_join.go:212-256 | a join is its left rows' answers one after the other |
| `AsofIndex.HeldIsNearest` | engine/op_merge_join.go:333-357 | with every right row up to k absorbed, the held row is the nearest preceding |
| `AsofIndex.CursorIsNearest` | engine/op_merge_join.go:377-388 | without partitions the first row not below k is the nearest following |
| `AsofIndex.IndexIsNearest` | engine/op_merge_join.go:389-404 | a partition's cursor past the keys below k finds its nearest following row |
| `MergeJoin.BuildRight` | engine/op_merge_join.go:696-809 | the keyed right rows, or an order error exactly when they do not ascend |
| `MergeJoin.IndexParts` | engine/op_merge_join.go:198-210 | each partition's list of positions, ascending |
| `MergeJoin.MergeJoinState.StepEqui` | engine/op_merge_join.go:300-323 | the left row's part of the nested-loop equijoin, NULL-extended when outer |
| `MergeJoin.MergeJoinState.WithinTolerance` | engine/op_merge_join.go:413-429 | the int64 test: the right key is at most the tolerance above k when following, k at most the tolerance above it otherwise |
| `MergeJoin.MergeJoinState.StepAsof` | engine/op_merge_join.go:329-364 | brute force nearest preceding, gated by the tolerance, NULL-extended when outer |
| `MergeJoin.MergeJoinState.Absorb` | engine/op_merge_join.go:333-349 | every right row up to k becomes the held one |
| `MergeJoin.MergeJoinState.StepAsofFollowing` | engine/op_merge_join.go:373-411 | brute force nearest following, and the row found stays for later left rows |
| `MergeJoin.MergeJoinState.AdvanceCursor` | engine/op_merge_join.go:390-398 | a partition's cursor moves to its nearest following row |
| `MergeJoinStream.FrontIsNearest` | engine/op_merge_join.go:589-593 | a pruned queue's front is the nearest following row; without one that row was not consumed yet |
| `MergeJoinStream.StreamJoin.StepPreceding` | engine/op_merge_join.go:615-629 | streamed: brute force nearest preceding, partitioned or not |
| `MergeJoinStream.StreamJoin.StepFollowing` | engine/op_merge_join.go:597-613 | streamed: brute force nearest following without partitions |
| `MergeJoinStream.StreamJoin.StepQueues` | engine/op_merge_join.go:567-595 | streamed: brute force soft nearest following in partitions, by queues |
| `MergeJoinStream.StreamJoin.EnqueueTo` | engine/op_merge_join.go:571-579 | every right row up to k + tolerance is in its partition's queue |
| `MergeJoinStream.StreamJoin.Prune` | engine/op_merge_join.go:580-588 | every queue's front is at k or later and nothing else was lost |
| `MergeJoinExec.JoinMaterialized` | engine/op_merge_join.go:212-256 | the whole join, left row by left row, up to the first that steps backwards, which is the error |
| `MergeJoinExec.JoinStreamed` | engine/op_merge_join.go:451-647 | the same result and the same error from the two streams |
| `MergeJoinExec.SendRight` | engine/op_merge_join.go:462-480 | the right producer sends the keyed rows up to the first that steps backwards, which is its error |
| `MergeJoinExec.Exec` | engine/op_merge_join.go:113-257 | brute force, whichever way the join runs; of a right side that steps backwards a streamed join joins exactly the rows before that, a materialized one none |
| `WindowPartition.OpWindowPartition` | engine/op_window.go:34-261 | every row comes out once, in order, with its RANK and DENSE_RANK, or 0 without expressions, while its whole partition is in place |
| `WindowPartition.PartitionIs` | engine/op_window.go:34-261 | a row's partition is every row from which to it the partition key stays the same |
| `WindowPartition.RankIs` | engine/op_window.go:34-261 | RANK is one more than the number of the partition's earlier rows with another ORDER BY value |
| `WindowPartition.DenseRankIs` | engine/op_window.go:34-261 | DENSE_RANK is the number of different ORDER BY values that the partition has up to the row |
| `WindowEdges.ScanUp` | base/agg_window.go:665-716 | the outward scan finds the one row up to which all pass and after which none does |
| `WindowEdges.ScanDown` | base/agg_window.go:665-716 | likewise downwards |
| `WindowEdges.UpperEdgeGrows` | base/agg_window.go:766-773 | on a sorted column rows inside the previous upper edge are inside this row's |
| `WindowEdges.LowerEdgeGrows` | base/agg_window.go:823-826 | the row before the previous lower edge is outside this row's |
| `WindowEdges.LowerEdgeIsUpwardClosed` | base/agg_window.go:828-850 | below a row, what is inside its lower edge reaches up to it |
| `WindowEdges.PeersAreEdges` | base/agg_window.go:720-743 | a peer group is the edge pair of each of its rows |
| `WindowBounds.GroupStepIs` | base/agg_window.go:606-657 | the far row of the group n groups away, or the partition's end |
| `WindowBounds.GroupsBegin` | base/agg_window.go:511-522 | a GROUPS frame begins with whole groups exactly when it begins before the current one or the group it begins with has one row at most |
| `WindowBounds.GroupsEnd` | base/agg_window.go:545-556 | a GROUPS frame ends with whole groups exactly when it ends at or after the current one or the group it ends with has one row at most |
| `WindowBounds.RangeFrameIs` | base/agg_window.go:523-563 | a numeric RANGE frame holds exactly the rows in range exactly when its start does not follow and its end does not precede the current row |
| `WindowBounds.FramesSlide` | base/agg_window.go:507-571 | from row to row neither end of any frame moves back |
| `WindowBounds.RowsFrameFits` | base/agg_window.go:507-571 | when a ROWS frame lies within its partition |
| `WindowBounds.RowsFrameIs` | base/agg_window.go:507-571 | a ROWS frame holds the rows from one offset to the other, an unbounded end all |
| `WindowBounds.RangeOfOthers` | base/agg_window.go:745-854 | a RANGE frame of a row without a numeric value is its peer group |
| `WindowBounds.SameGroupIff` | base/agg_window.go:720-743 | two rows are peers exactly when no row from one to the other differs |
| `WindowFrames.WindowFrame.FindGroupEdge` | base/agg_window.go:665-716 | the loop is the outward scan, and how many neighbours it examines |
| `WindowFrames.WindowFrame.CurrentPeerGroup` | base/agg_window.go:727-743 | the cached group is what two outward scans would find |
| `WindowFrames.WindowFrame.StepGroups` | base/agg_window.go:606-657 | the loop steps from group edge to group edge |
| `WindowFrames.WindowFrame.EdgeEnd` | base/agg_window.go:751-803 | the forward cursor returns what the outward scan would |
| `WindowFrames.WindowFrame.EdgeBeg` | base/agg_window.go:810-854 | likewise for the lower edge |
| `WindowFrames.WindowFrame.ExcludeSpans` | base/agg_window.go:573-593 | the excluded spans of each exclusion, in order: none, the current row, its peer group, or its peer group without it |
| `WindowFrames.WindowFrame.CurrentUpdate` | base/agg_window.go:496-596 | the frame at the next row, and what is excluded from it: nothing, the row, the rows of its group, or those but itself; with the caches right for the row after |
| `WindowFrames.ExclusionsAre` | base/agg_window.go:573-593 | the exclusions of each mode, row by row |
| `WindowFrames.WindowFrame.WalkPartition` | base/agg_window.go:496-596 | every frame and every exclusion of a partition, row by row |
| `WindowFrames.WindowFrame.StepsAreLinear` | base/agg_window.go:745-854 | the neighbours examined for each kind of edge are at most two per row over a partition |
| `WindowSteps.Next` | base/agg_window.go:931-949 | the least row of the frame after i, past the exclusions |
| `WindowSteps.Prev` | base/agg_window.go:955-975 | the greatest row of the frame before i |
| `WindowSteps.FrameRowsAre` | base/agg_window.go:906-975 | the frame's rows ascend and are exactly those of [Beg, End) that are not excluded |
| `WindowSteps.NextByRank` | base/agg_window.go:931-949 | stepping on moves one row along the frame's rows |
| `WindowSteps.StepToOffset` | base/agg_window.go:889-904 | the row of the frame with exactly num of the frame's rows from start to it, or none exactly when there are fewer |
| `WindowSteps.OffsetIs` | base/agg_window.go:889-904 | a position among the frame's rows is a count of rows passed |
| `WindowSteps.OffsetsFromTheEnds` | base/agg_window.go:876-904 | FIRST_VALUE and NTH_VALUE count from the first row, LAST_VALUE from the last |
| `WindowSteps.Count` | base/agg_window.go:980-990 | how many rows the frame has without its exclusions, exactly when it does not end before it begins or an exclusion covers the gap; a negative number otherwise |
| `WindowFolds.Refold` | engine/op_window.go:703-735 | the general path folds every row of the frame in order |
| `WindowFolds.PlainRefold` | engine/op_window.go:703-735 | without exclusions that is the fold of [Beg, End) |
| `WindowFolds.GrowTo` | engine/op_window.go:537-578 | a left-anchored frame folds in only the rows that newly entered |
| `WindowFolds.GrowingFold` | engine/op_window.go:537-578 | over a partition the carried accumulator is the fresh fold at every row, for any aggregate and any end, also before row 0 |
| `WindowFolds.SlideCount` | engine/op_window.go:579-620 | entering rows are counted and leaving ones uncounted, on any two frames; a read outside the partition fails |
| `WindowFolds.SlidingCount` | engine/op_window.go:579-620 | at every row of a partition the count of the run so far, on any frames; the fresh count when the frames slide within the partition |
| `WindowFolds.CountIs` | base/agg.go:247-273 | a COUNT is the number of rows that are neither MISSING nor NULL |
| `WindowFolds.RunIsFresh` | engine/op_window.go:579-620 | over frames that slide within the partition the running count is that of the frame |
| `WindowMinMax.FoldIsBest` | base/agg.go:459-481 | the fresh MIN/MAX fold is a value of the frame that no other wins over, or none |
| `WindowMinMax.BestIsExtreme` | base/agg.go:441-481 | such a value is one of the frame's, and compares at or above every other for MAX, at or below for MIN |
| `WindowMinMax.BestsAreEqual` | base/agg.go:459-481 | any two such values compare equal |
| `WindowMinMax.FrontIsBest` | base/agg_window.go:406-412 | the deque's front is such a value; the deque is empty exactly when the frame has none |
| `WindowMinMax.DequeIsFold` | base/agg_window.go:337-412 | front and fresh fold compare equal, and are NULL together |
| `WindowMinMax.EnterKeepsDeque` | base/agg_window.go:363-391 | popping what does not win and appending keeps the deque right for one row more |
| `WindowMinMax.ExpireKeepsDeque` | base/agg_window.go:395-400 | dropping the front left of the frame keeps it right for the later beginning |
| `WindowDeque.SlideMinMax.Reset` | base/agg_window.go:337-345 | an empty deque that is trusted |
| `WindowDeque.SlideMinMax.Enter` | base/agg_window.go:363-391 | NULL and MISSING never enter, a MISSING ends the trust, anything else pops what it beats or ties |
| `WindowDeque.SlideMinMax.Expire` | base/agg_window.go:395-400 | exactly the leading entries left of the frame go |
| `WindowDeque.SlideMinMax.SlideTo` | engine/op_window.go:621-648 | one row's move keeps the deque right for the frame, which may begin beyond its end |
| `WindowDeque.ResultAt` | engine/op_window.go:651-654 | the front while trusted, a fresh fold afterwards: the same winner either way, NULL of a frame without rows |
| `WindowDeque.SlidingBest` | engine/op_window.go:621-654 | at every row MIN/MAX compares equal to the fresh fold, is a value of the frame at or below, or for MAX at or above, every other under the collation, and is NULL exactly when the frame has none; on frames that begin anywhere and do not end before row 0 |
| `WindowSums.FreshFoldIsExact` | base/agg.go:276-297 | the fresh SUM of integers totalling less than 2^53 in absolute value does not round |
| `WindowSums.SumOfOne` | base/agg.go:276-297 | the exact sum of one row is its number, or nothing |
| `WindowSums.AverageIs` | base/agg.go:414-440 | an average that needs no rounding times the count is the sum |
| `WindowSums.SlidIsExact` | base/agg_window.go:259-310 | while the rows of the old and new frame total less than 2^53, sliding never rounds and never latches |
| `WindowSums.ResultsAreExact` | base/agg_window.go:312-331 | then SUM and AVG are the fresh folds' results |
| `WindowSums.SlideSum.SlideTo` | engine/op_window.go:655-691 | the entered rows are added, then the left ones subtracted, on any two frames; a read outside the partition fails |
| `WindowSums.SlidingSums` | engine/op_window.go:655-735 | every row has the results of the run so far; a row folded afresh has the fresh folds; so has every row, and none is folded afresh, when the frames slide within the partition and the operands stay small |
| `WindowSums.LeavingIsNotChecked` | base/agg_window.go:288-310 | integers below 2^53 alone are not enough: a subtraction can leave the exact range unnoticed and a wrong sum is trusted |
| `WindowRuns.FrameFits` | base/agg_window.go:507-571 | every RANGE frame, and every ROWS and GROUPS frame with ordered bounds, lies within its partition |
| `WindowRuns.RowsFramesFitIff` | base/agg_window.go:507-571 | exactly which ROWS bounds give frames within the partition at every row |
| `WindowRuns.PartitionSlides` | engine/op_window.go:579-590 | the frames of such bounds only slide forward over a partition |
| `WindowRuns.PartitionGrows` | engine/op_window.go:537-548 | the frames of UNBOUNDED PRECEDING only grow |
| `WindowRuns.GrowOver` | engine/op_window.go:537-578 | over a partition with its frames: the carried fold of any aggregate is the fresh fold of each row's frame |
| `WindowRuns.RefoldOver` | engine/op_window.go:703-735 | over a partition with its frames and exclusions: each row's aggregate is the fold of exactly the rows of its frame that its mode does not exclude, in order |
| `WindowRuns.CountOver` | engine/op_window.go:579-620 | over a partition with its frames: the sliding COUNT, which is the fresh count whenever the bounds fit |
| `WindowRuns.BestOver` | engine/op_window.go:621-654 | over a partition with its frames: MIN and MAX up to equal values, for every RANGE and GROUPS frame and every ROWS frame that does not end two rows or more before the current one; each the least or greatest of its frame under the collation |
| `WindowRuns.SumsOver` | engine/op_window.go:655-735 | over a partition with its frames: SUM and AVG, fresh where refolded and where the operands stay small |
| `WindowRuns.StartsTooLate` | engine/op_window.go:604-611 | ROWS from 2 FOLLOWING on: the last rows of a partition lose rows beyond it |
| `WindowRuns.EndsTooEarly` | engine/op_window.go:592-603 | ROWS to 2 PRECEDING or less: the second row reads from before row 0 |
| `WindowRuns.LeavesUnentered` | engine/op_window.go:592-611 | ROWS 1 FOLLOWING AND 1 PRECEDING: the count of one row comes to -1 |
| `WindowRuns.GroupsCross` | base/agg_window.go:511-560 | GROUPS bounds out of order: some partition has a frame that ends before it begins |
| `WindowRuns.SlidingCountIsRightIff` | engine/op_window.go:579-620 | of bounds with a numbered start, the sliding COUNT is the fresh one at every row of every partition exactly when they fit |
| `WindowRuns.SlidingSumsAreRightIff` | engine/op_window.go:655-735 | likewise SUM and AVG, of integers that total less than 2^53 in absolute value |
| `WindowRuns.SlidingBestReadsIff` | engine/op_window.go:631-648 | MIN and MAX read inside every partition exactly when no frame can end before row 0 |
| `Cse.CseCount` | engine/op_broadcast_cse.go:211-226 | the tally grows by every expression tree at any depth |
| `Cse.OccurrencesArePaths` | engine/op_broadcast_cse.go:211-226 | a tree is counted as often as there are ways down to it |
| `Cse.IndexOfCse` | engine/op_broadcast_cse.go:99-113 | each synthetic label names its own slot of the precomputed row |
| `Cse.SlotHolds` | engine/op_broadcast_cse.go:105-113 | a candidate's slot holds the candidate's value |
| `Cse.RewriteKeepsMeaning` | engine/op_broadcast_cse.go:234-249 | the rewritten tree on the precomputed row has the value of the tree on the row, nested candidates included, for operators of their arguments |
| `Cse.CseKeepsResults` | engine/op_broadcast_cse.go:72-134 | the rewritten broadcast over precomputed rows yields the broadcast's results, one for one |
| `Cse.SelectCandidates` | engine/op_broadcast_cse.go:83-92 | exactly the non-trivial trees that occur at least twice, each once |
| `Cse.BroadcastCSE` | engine/op_broadcast_cse.go:72-134 | the plan is that of exactly the shared candidates: a projection of the row and the candidates below the rewritten queries, or the plain broadcast when nothing is shared |
| `Cse.PlanKeepsResults` | engine/op_broadcast_cse.go:72-134 | running the plan gives the results of the plain broadcast, for operators of their arguments and reads of kept labels |
| `Cse.SharedIsGone` | engine/op_broadcast_cse.go:228-249 | no candidate is left to be computed in a rewritten tree |
| `Cse.KeptLabels` | engine/op_broadcast_cse.go:105-109 | a read of label l means the same on every row exactly when l is "." or not a label of the scan |
| `ContextWindows.RowMatches` | engine/op_broadcast_context.go:217-226 | a match adds the buffered rows and itself to the windows, and nothing else |
| `ContextWindows.RowIsOwed` | engine/op_broadcast_context.go:228-232 | a row still owed is in the last match's window |
| `ContextWindows.RowWaits` | engine/op_broadcast_context.go:234-244 | any other row is in no window yet, and the buffer keeps every row a later match can reach |
| `ContextWindows.WindowsList` | engine/op_broadcast_context.go:43-47 | the windows' rows in order, none twice and none missed |
| `ContextWindows.SamePartitionIff` | engine/op_broadcast_context.go:180-191 | two rows are in one run exactly when all keys between them are equal |
| `ContextFanout.Extract` | engine/op_broadcast_context.go:209-245 | one extractor's switch on one row yields exactly what its windows gain, with at most "before" rows buffered |
| `ContextFanout.FanRow` | engine/op_broadcast_context.go:209-245 | every extractor, in order |
| `ContextFanout.Stamp` | engine/op_broadcast_context.go:197-207 | exactly the extractors of the matched literals carry this row's generation |
| `ContextFanout.Wake` | engine/op_broadcast_context.go:193-215 | an extractor is awake exactly when its literal is in the row or it has none |
| `ContextFanout.Boundary` | engine/op_broadcast_context.go:180-191 | a changed partition key resets every extractor's window |
| `ContextFanout.BroadcastContextExec` | engine/op_broadcast_context.go:105-249 | every result is some extractor's, and per extractor, in input order, they are exactly the rows i with a match m such that m - before <= i <= m + after and all partition keys from one to the other are equal, each once with its projected values; the matches are all rows on which the predicate is truthy whenever the literals are necessary |
| `ContextFanout.HitsAreMatches` | engine/op_broadcast_context.go:193-215 | where the literals are necessary, skipping unwoken predicates changes no match |
| `ContextFanout.WindowsAreOfMatches` | engine/op_broadcast_context.go:193-215 | then the windows are those of all the matches |
| `ContextFanout.StreamYields` | engine/op_broadcast_context.go:209-245 | windows in runs of equal keys are rows around matches with equal keys between |
| `Stage.TakeKeepsSent` | base/stage.go:187-205 | receiving moves rows to the consumer and loses none |
| `Stage.CallKeepsActor` | base/stage.go:76-156 | a call keeps an actor's rows sent, batched or ignored after an error |
| `Stage.StepKeepsInv` | base/stage.go:67-205 | every step of actors, channel and consumer keeps the invariant |
| `StageRuns.FinishIsLast` | base/stage.go:134-205 | StopCh closes at most once, exactly when there was an error; the consumer finishes only after every nil, with the channel empty |
| `StageRuns.FinishedRows` | base/stage.go:67-205 | at the end the consumer has a prefix of each actor's rows, all of them in order when there was no error |
| `StageRuns.AlwaysPrefix` | base/stage.go:67-205 | at any moment what the consumer has of an actor is a prefix of its rows |
| `StageRuns.FirstErrorStays` | base/stage.go:134-151 | the first error is kept |
| `StageRuns.FinishedError` | base/stage.go:134-205 | at the end there is an error exactly when some actor reported one, and it is one of those |
| `StageRuns.NoDeadlock` | base/stage.go:67-205 | no reachable unfinished state is stuck |
| `StageRuns.StepCounts` | base/stage.go:67-205 | every step uses up some of a bounded amount |
| `StageRuns.RunsAreBounded` | base/stage.go:67-205 | no interleaving goes on for ever |
| `StageCursor.StepKeepsInv` | base/stage_cursor.go:46-108 | every step keeps pulled, buffered and batched rows the producer's, in order |
| `StageCursor.PullsInOrder` | base/stage_cursor.go:46-116 | what was pulled is a prefix of the stream, all of it at the end without a Stop or an error |
| `StageCursor.WaitReturnsFirstError` | base/stage_cursor.go:92-137 | Wait returns the first error the producer reported, and no row after it was pulled |
| `StageCursor.StoppedProducerExits` | base/stage_cursor.go:118-137 | once stopped the producer always has a step and only so many, so Wait returns |
| `Union.RemapInto` | engine/op_union.go:54-77 | the reused buffer holds the child's row in the union's positions, MISSING where the child has no such label |
| `Union.ChildDelivers` | engine/op_union.go:37-91 | every child's remapped rows arrive complete and in order |
| `Union.UnionAll` | engine/op_union.go:37-91 | every interleaving ends without error and with the bag union of the remapped children |
| `ValsCodec.LittleEndianRoundTrip` | base/base.go:253-257 | eight little-endian bytes read back |
| `ValsCodec.DecodeInverts` | base/base.go:198-248 | decoding an encoded row gives the row, so distinct rows encode differently |
| `ValsCodec.FirstByteIsWidth` | base/base.go:198-205 | the first byte of an encoding is the low byte of the row's width |
| `ValsCodec.ValsEncode` | base/base.go:198-206 | the encoding is appended to what the buffer holds |
| `ValsCodec.ValsDecode` | base/base.go:235-248 | the decoded values are appended |
| `HashProbe.ChainStays` | base/chain.go:26-47 | appending chunks does not disturb a chain |
| `HashProbe.YieldChained` | base/chain.go:26-47 | the walk ends and yields exactly the chain |
| `HashProbe.FillRow` | engine/op_join_hash.go:123-218 | after each left row every entry has its key's count and its chain of all that key's rows |
| `HashProbe.Fill` | engine/op_join_hash.go:123-218 | the filled map has one entry per key that enters it |
| `HashProbe.ProbeKeepsMap` | engine/op_join_hash.go:261-280 | counting a match in place keeps every other entry |
| `HashJoin.ChainIsJoined` | engine/op_join_hash.go:296-303 | a key's chain is what the nested loop joins to a right row with that key |
| `HashJoin.VisitOne` | engine/op_join_hash.go:343-353 | visiting one key adds its left rows exactly when nothing joined them |
| `HashJoin.ProbeJoin` | engine/op_join_hash.go:247-306 | probing yields the nested loop's bag of pairs |
| `HashJoin.VisitUnjoined` | engine/op_join_hash.go:308-370 | each left row that nothing joined, once, beside MISSINGs |
| `HashJoin.Join` | engine/op_join_hash.go:123-373 | the output is a permutation of: each pair of a left and a right row with the same valued key, once; left outer: and each left row without such a right row, once, NULL keys among them |
| `HashJoin.JoinSources` | engine/op_join_hash.go:247-370 | the nested loop's bag lists every matching pair of positions once and every unmatched left position once |
| `HashJoin.KeysNext` | engine/op_join_hash.go:261-294 | one right row yields a key exactly when it is owed once more |
| `HashJoin.Intersect` | engine/op_join_hash.go:247-306 | ALL: each valued key as often as in the bag intersection of left and right keys; DISTINCT: once each that both have |
| `HashJoin.Except` | engine/op_join_hash.go:308-370 | ALL: each valued key as often as in the bag difference of left and right keys; DISTINCT: once each that the left has and the right has not |
| `HashKeys.KeysMatch` | engine/op_join_hash.go:123-148 | canonical keys match exactly when the values are not NULL and compare equal |
| `HashKeys.JoinIsBySqlEquality` | engine/op_join_hash.go:123-306 | the hash join is the nested loop under SQL equality of the values |
| `HashKeys.RowKeysMatch` | base/base.go:210-232 | two rows have the same key exactly when they agree slot by slot |
| `HashKeys.WideRowsAreLost` | engine/op_join_hash.go:136-146 | a whole-row key passes for a value exactly when the row's width is not 110 more than a multiple of 256 |
| `HashKeys.SetResult` | engine/op_join_hash.go:247-370 | decoded, each row of INTERSECT and EXCEPT is there as often as in the bag or set operation on the row keys, and no other row is |
| `Group.WholeMore` | engine/op_group.go:184-196 | one more operand is one more update of the aggregate's own fold |
| `Group.OneUpdate` | engine/op_group.go:184-196 | an update consumes exactly its own prefix and leaves the next aggregate's |
| `Group.UpdateAll` | engine/op_group.go:180-196 | all aggregates' new bytes; unchanged exactly only when the bytes are the same |
| `Group.GroupRow` | engine/op_group.go:131-225 | a row folds into its group only, in place or by Set alike |
| `Group.OpGroup` | engine/op_group.go:23-315 | one entry per distinct key holding each aggregate's fold of that key's rows in arrival order; without group expressions one group, initialized when there are no rows |
| `Aggregates.CountBehaves` | base/agg.go:247-273 | COUNT consumes its own eight bytes |
| `Aggregates.CountMeans` | base/agg.go:247-273 | its bytes are the count of valued operands |
| `Aggregates.SumBehaves` | base/agg.go:276-308 | SUM consumes its own eight bytes |
| `Aggregates.SumMeans` | base/agg.go:276-308 | its bytes are the left-to-right fold of the numbers, each addition rounded, or the sentinel |
| `Aggregates.FloatExists` | base/agg.go:276-308 | the demands on the stored float and its rounding can be met together |
| `Aggregates.AvgBehaves` | base/agg.go:414-440 | AVG consumes its own sixteen bytes |
| `Aggregates.AvgMeans` | base/agg.go:414-440 | they are the count of valued operands and the fold of the numbers, side by side |
| `Aggregates.CompareBehaves` | base/agg.go:459-481 | MIN/MAX consume a length and that many bytes |
| `Aggregates.CompareMeans` | base/agg.go:459-481 | they are the winner's, as the window's fresh fold has it |
| `Aggregates.CompareIsExtreme` | base/agg.go:441-481 | MIN and MAX keep the bytes of an operand that compares at or below, or above, every other |
| `Aggregates.AggDistinctWalk` | base/agg.go:164-170 | how far the length-prefixed elements go |
| `Aggregates.ListUpdates` | base/agg.go:162-204 | one update of a list with anything behind it |
| `Aggregates.ListBehaves` | base/agg.go:162-204 | list accumulators consume exactly their elements |
| `Aggregates.ListMeans` | base/agg.go:162-204 | their bytes are the collected list |
| `Aggregates.DistinctOnce` | base/agg.go:174-204 | no canonical form is collected twice |
| `Aggregates.DistinctHolds` | base/agg.go:174-204 | exactly the operands' canonical forms are collected |
| `Aggregates.ArrayMeans` | base/agg.go:499-528 | ARRAY_AGG collects the operands' own bytes in order |
| `OrderBy.LessIsTuple` | engine/op_order.go:244-277 | the comparator's loop is a three-way comparison column by column |
| `OrderBy.LessIsWeakOrder` | engine/op_order.go:215-281 | for any directions and NULLS placement the comparator is a strict weak order |
| `OrderBy.ItemsAreOrdered` | engine/op_order.go:57-66 | rows with their projected keys meet the bounded heap's demand on the comparator |
| `OrderBy.OrderRows` | engine/op_order.go:22-206 | ORDER BY with OFFSET and LIMIT yields that page of the rows sorted by the comparator: NULLs where asked for, the first column ascending or descending in the collation, and each further column among rows that tie before it |
| `OrderBy.SortedIsInOrder` | engine/op_order.go:244-277 | sorted rows are in the order asked for, column by column, in the collation's own terms |
| `OrderBy.KeyTuplesAreDetermined` | engine/op_order.go:151-191 | however ties are broken, the key tuples at each position of the page compare equal column by column |
| `OrderBy.NullsAreApart` | engine/op_order.go:251-265 | in sorted rows NULLS FIRST and LAST put the NULLs and MISSINGs of the first column on one side of all the others |
| `OrderBy.ValsProjectedEncode` | base/heap.go:27-48 | the length written back into the buffer is that of the key tuple |
| `OrderBy.ProjectedRoundTrip` | base/heap.go:27-61 | both decoders give back what was encoded |
| `TopK.MaxHeap.Pop` | engine/op_order.go:125-128 | an item that none comes after leaves |
| `TopK.MaxHeap.Sort` | engine/op_order.go:157-166 | the popped items are in order and none of the others comes after them |
| `TopK.NeedPush` | engine/op_order.go:97-115 | a row not pushed comes before nothing that is kept |
| `TopK.OrderRow` | engine/op_order.go:86-134 | every dropped row is not less than any kept one, and the heap is never too big |
| `TopK.OffsetPlusLimit` | engine/op_order.go:43-46 | the sum, or the greatest int64 when it overflows |
| `TopK.FillHeap` | engine/op_order.go:86-134 | the heap keeps the least offset + limit rows |
| `TopK.OffsetLimit` | engine/op_order.go:135-142 | without ORDER BY, positions offset to offset + limit of the input |
| `TopK.OrderOffsetLimit` | engine/op_order.go:22-206 | positions offset to offset + limit of the input, fully sorted |
| `TopK.PagesTie` | engine/op_order.go:151-191 | however ties are broken, each emitted position has the same place in the order, so the key tuples are determined |
| `TopK.NotBefore` | engine/op_order.go:155-167 | two sorted arrangements of the same rows agree position by position, up to ties |
| `Cse.CountCorpus` | engine/op_broadcast_cse.go:74-81 | the tally over all predicates and projections is each tree's number of occurrences |
| `Group.InitAll` | engine/op_group.go:157-173 | a new group's bytes are all the aggregates' initial bytes, in order |
| `WindowFrames.WindowFrame.FrameBeg` | base/agg_window.go:504-534 | where the frame begins, with the cursor right for the next row |
| `WindowFrames.WindowFrame.FrameEnd` | base/agg_window.go:536-571 | where it ends, likewise |
| `WindowDeque.SlideMinMax.Result` | base/agg_window.go:406-412 | the front, or NULL when the deque is empty |
| `HashJoin.LeftOver` | engine/op_join_hash.go:322-363 | what EXCEPT owes for one key |

## Left out

- WindowSums.SlidingSums: of rows that are trusted, one way only; sums stay exact under the stated bound on the frames' contents, and may also beyond it.
- WindowFrames.WindowFrame.CurrentUpdate: EXCLUDE GROUP and TIES only for GROUPS frames, and a RANGE column sorted ascending; in other frames the peer scan does not find peers.
- WindowDeque.SlidingBest: values with unique field names, which the collation needs to be an order; MISSING operands are covered through the re-fold. What a read before row 0 gives is not followed.
- MergeNear.MergeScanKway: among children with equal heads the traversal is one of several; which, the heap decides.
- MergeJoinExec.Exec: whether a streamed join reports a right side that steps backwards depends on how far its producer had come when the left side ended; both are allowed.
- MergeJoinExec.JoinStreamed: under a tolerance, keys whose differences, or for queues sums with it, fit int64; wrap-around is not followed.
- Broadcast.BroadcastIndexedExec: predicates whose "and" takes two operands, and strings without escapes; literals are decoded, rows are scanned raw.
- Cse.CseKeepsResults: queries that read labels kept by the precomputed row through operators of their arguments; `labelUint64`, `valsEncode`, `valsEncodeCanonical`, `self`, `exprStr` and `exprTree` read the row itself, the comprehensions bind variables and the window operators read the run's own, so a plan over them may not keep results.
- Cse.SelectCandidates: the candidates in any order; the source sorts them by their serialized text.
- HashJoin.Join: LEFT OUTER for valued and NULL join keys; a MISSING key's canonical form is an error in the source.
- Aggregates.CompareMeans: an order on bytes that agrees with the collation on the operands at hand.
- StageCursor.PullsInOrder: an actor whose error is latched stops producing; what an actor does after its own error is not followed.
- Union.UnionAll: children without errors; with errors the stage's prefix theorem is what holds.
- Row bytes are compact JSON; white space between tokens, invalid UTF-8 and the encoder's HTML escapes in field names are not modelled.
- Numbers are reals: no NaN, infinity, negative zero or rounding in the collation.
- Expression trees hold their constants parsed; malformed trees that make the engine panic are not modelled, and regexps are plain patterns.
- MergeHeap and MergeReorderBuffer are one class, and the K streaming cursors deliver materialized sequences; the producer's side of a cursor is `StageCursor`.
- Spilling of the build side, of heaps and of maps to files, and the errors that reading them back can raise.
- The map, chunk store and heap libraries are values with the operations that the engine uses.
- Statistics counters, running aggregates, buffer reuse and recycling, code generation markers.
- The Result functions that format accumulators, vectorized and statistics aggregates, RATIO_TO_REPORT, NTILE and other rank formatting.
- BroadcastRoute, the unary string, math and date functions, query planning, file scanning and rendering: easy members or input and output.
