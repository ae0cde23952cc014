# LeetCode pattern tracker: animation core in Dafny

The tracker lists LeetCode problems grouped by pattern and shows a small
animation for each pattern. An animation is a simulator, `animateX(container,
step)`: it reruns its algorithm on a fixed sample input for `step` ticks, paints
the state and returns `{description}` or `null` (meaning playback is over). This
project models:

- **Simulators.** There are fourteen in `src/utils/animations/` and four in
  the older `js/animations.js`. The canvas is stripped. Each simulator becomes
  a specification function `FrameAt(step)` that maps a step to an abstract frame
  (pointers, arrays, sets and a per-module description datatype). A
  description is rendered to the source's string by `Describe`. Where the
  source loops, a `method Animate(step)` replays its loop and is proved to
  compute `FrameAt(step)`. The algorithms are stated generically, and lemmas
  prove their invariants: bounds, permutation, heap balance and order,
  topological order, memo correctness and selection compatibility. Lemmas
  also prove the sample outcomes the page shows.
- **Drawing-helper rules.** `helpers.js` decides node tags, arrows, labels and
  tree highlighting. These become pure tag functions (`Helpers`).
- **Registries.** The 28-key map in `src/utils/animations/index.js` and the
  4-key map in `js/animations.js` become `Registry`. `Simulation` calls a
  registered simulator.
- **Playback controllers.**
  - `LegacyPlayback` is the global `animationState` of `js/animations.js`.
  - `ContainerPlayback` is the ref-based controller of
    `src/components/AnimationContainer.js`.
  - Both are classes. Timer handles are abstract numbers; `live` is the set
    of intervals not yet cleared. An interval's callback is the explicit
    method `Tick`.
- **Catalogue parser and slug generator.** `parseRawData` becomes `Catalogue`;
  `generateId` and `nameToUrlSlug` become `Slug`. The three functions
  in `js/populate-database.js` have bodies identical to those in
  `src/services/populateService.js`. Only the declaration lines differ
  (`function parseRawData(rawData) {` against `const parseRawData = (rawData) => {`):
  - `parseRawData` is at 55-109 there (57-111 here);
  - `generateId` at 112-117 (114-119);
  - `nameToUrlSlug` at 120-125 (122-127).

  So the same two modules model both copies; the rows below cite the service
  copy.

Supporting modules:

- `Wrappers` has `Option`, used for `null`, `undefined` and `Infinity`.
- `Text` renders numbers, arrays and medians the way template literals do.
- `Sorting` is JavaScript's stable `sort` with a numeric comparator.

Each file under `src/utils/animations/` has one module of the same name.
`Registry` models both registries. The other source files are split by
concern:
- `js/animations.js` becomes `LegacyPlayback` (its controller),
  `LegacyFastSlow` and `VariableWindow` (its own simulators), and the
  older map in `Registry`.
- `src/services/populateService.js` becomes `Catalogue` and `Slug`.
- `src/components/AnimationContainer.js` becomes `ContainerPlayback`.

`Wrappers`, `Text`, `Sorting` and `Simulation` correspond to no single
source file; `Simulation` is the call `animationFunc(container, step)`
shared by both controllers. The two other simulators in `js/animations.js`
(lines 209-316 and 440-524) have function bodies identical to those of
`twoPointers.js` and `slidingWindow.js`, so they reuse the `TwoPointers`
and `SlidingWindow` modules.

## Model

| member | source | states |
|---|---|---|
| Sorting.Insert | src/utils/animations/mergeIntervals.js:53 | inserting a position into a sorted order adds exactly that position and one element |
| Sorting.InsertPermutes | src/utils/animations/mergeIntervals.js:53 | inserting adds the position to the multiset of positions and nothing else |
| Sorting.StableSortBy | src/utils/animations/mergeIntervals.js:53 | the stable sort of the first n positions holds exactly the positions 0 .. n-1 |
| Sorting.AppendSorted | src/utils/animations/mergeIntervals.js:53 | a later position that sorts after every placed one may be appended to a stable order |
| Sorting.InsertSorted | src/utils/animations/mergeIntervals.js:53 | inserting a position later than all placed ones keeps the order stably sorted |
| Sorting.SortIsStable | src/utils/animations/mergeIntervals.js:53 | the sort orders positions by key, equal keys in their original order (JavaScript's sort is stable) |
| Sorting.SortPermutes | src/utils/animations/greedyAlgorithms.js:29 | the sort is a permutation of the positions |
| Sorting.SortOfSortedIsIdentity | src/utils/animations/greedyAlgorithms.js:29 | sorting an already sorted input changes nothing |
| Sorting.InsertDescending | src/utils/animations/twoHeaps.js:33-34 | pushing onto the max heap and re-sorting adds exactly the new number |
| Sorting.InsertDescendingSorted | src/utils/animations/twoHeaps.js:33-34 | push-then-sort-descending keeps the max heap sorted descending and adds the number to its multiset |
| Sorting.InsertDescendingOrdered | src/utils/animations/twoHeaps.js:34 | the max heap stays sorted high to low |
| Sorting.InsertDescendingPermutes | src/utils/animations/twoHeaps.js:33 | the max heap's multiset gains exactly the pushed number |
| Sorting.InsertAscending | src/utils/animations/twoHeaps.js:36-37 | pushing onto the min heap and re-sorting adds exactly the new number |
| Sorting.InsertAscendingSorted | src/utils/animations/twoHeaps.js:36-37 | push-then-sort-ascending keeps the min heap sorted ascending and adds the number to its multiset |
| Sorting.InsertAscendingOrdered | src/utils/animations/twoHeaps.js:37 | the min heap stays sorted low to high |
| Sorting.InsertAscendingPermutes | src/utils/animations/twoHeaps.js:36 | the min heap's multiset gains exactly the pushed number |
| Text.NatToString | src/utils/animations/twoHeaps.js:57 | `${n}` of a count is a non-empty string of decimal digits with no leading zero |
| Text.NatToStringRoundTrip | src/utils/animations/twoHeaps.js:57 | reading the printed digits back gives the number printed |
| Text.IntToString | src/utils/animations/twoHeaps.js:57 | an integer prints with a leading minus sign exactly when it is negative |
| Text.JoinIntsSnoc | src/utils/animations/twoHeaps.js:23 | `join(sep)` of a list with one more number adds the separator and that number |
| Text.JoinStringsSnoc | src/utils/animations/treeDFS.js:101 | the same for a list of strings |
| Text.JoinCons | src/utils/animations/treeDFS.js:98-101 | `join(sep)` of a list with a new first string starts with that string and the separator |
| Text.HalvesToString | src/utils/animations/twoHeaps.js:53-57 | an even count of halves prints as the whole number it is |
| Text.WholeToString | src/utils/animations/twoHeaps.js:53-57 | a median that is a whole number prints as that integer |
| TwoPointers.Converge | src/utils/animations/twoPointers.js:50-62 | the pointers only move inwards, never cross by more than one, and move at most once per tick of the loop |
| TwoPointers.FrameOn | src/utils/animations/twoPointers.js:42-79 | a frame that is shown has both pointers inside the array with left <= right; `null` is the frame where the pointers crossed |
| TwoPointers.Animate | src/utils/animations/twoPointers.js:41-80 | the source's loop with its early breaks computes exactly the frame `FrameAt(step)` |
| TwoPointers.ConvergeMovesOncePerTick | src/utils/animations/twoPointers.js:50-62 | while no pair hits the target every tick moves exactly one pointer |
| TwoPointers.ConvergeStopsOnHit | src/utils/animations/twoPointers.js:52-54 | once the sum equals the target, further ticks change nothing |
| TwoPointers.FoundFrameIsFinal | src/utils/animations/twoPointers.js:52-54 | after the solution is found every later step shows the same frame |
| TwoPointers.ConvergeFindsPair | src/utils/animations/twoPointers.js:50-62 | on a sorted array with a pair summing to the target inside the window, enough ticks end on such a pair |
| TwoPointers.HintFollowsSum | src/utils/animations/twoPointers.js:72-77 | the "too small" hint is appended exactly when the sum is below the target |
| TwoPointers.SampleStepZero | src/utils/animations/twoPointers.js:47-48 | the initial frame on the sample reads "Initialize: left = 0, right = 6" |
| TwoPointers.SampleFindsSolution | src/utils/animations/twoPointers.js:69-70 | from step 5 on the sample shows "Found solution: 4 + 5 = 9" with the pointers at 2 and 3 |
| TwoPointers.SampleNeverFinishes | src/utils/animations/twoPointers.js:64-67 | on the sample input the simulator never returns `null` |
| SlidingWindow.FrameOn | src/utils/animations/slidingWindow.js:41-87 | a window is drawn exactly from step 1 on, always fits inside the array, and "End of array reached" is shown exactly from step n - k + 1 on |
| SlidingWindow.WindowNeverMovesBack | src/utils/animations/slidingWindow.js:49 | the window start never decreases as the step grows |
| SlidingWindow.SumAppend | src/utils/animations/slidingWindow.js:54 | the `reduce` sum of a concatenation is the sum of the parts |
| SlidingWindow.ReportedSumIsWindowTotal | src/utils/animations/slidingWindow.js:51-56 | a reported sum is the total of the k elements of a window that is not the last one |
| SlidingWindow.SlideByOne | src/utils/animations/slidingWindow.js:49-55 | moving the window one place drops the first element from its sum and adds the next one |
| SlidingWindow.SampleLastWindowNotReported | src/utils/animations/slidingWindow.js:51-52 | on the sample the last window (start 6) is never summed, and the end message appears exactly from step 7 |
| SlidingWindow.SampleSumOfThree | src/utils/animations/slidingWindow.js:54-55 | on the sample a reported sum is the sum of three consecutive elements |
| SlidingWindow.SampleStepZero | src/utils/animations/slidingWindow.js:46-47 | the step-0 description is "Initialize: window size = 3" |
| FastSlowPointers.Advance | src/utils/animations/fastSlowPointers.js:66-71 | one tick moves slow by one and fast by two nodes, both staying on the ring |
| FastSlowPointers.RaceFor | src/utils/animations/fastSlowPointers.js:65-78 | the detection loop keeps both pointers on the ring and reports a meeting only when they coincide |
| FastSlowPointers.SeekFor | src/utils/animations/fastSlowPointers.js:87-95 | the cycle-start loop keeps slow and finder on the ring and reports only when they coincide |
| FastSlowPointers.FrameOn | src/utils/animations/fastSlowPointers.js:55-100 | every frame draws both pointers on a node of the list |
| FastSlowPointers.Animate | src/utils/animations/fastSlowPointers.js:55-124 | the simulator on its sample list computes exactly `FrameAt(step)` |
| FastSlowPointers.RingSteps | src/utils/animations/fastSlowPointers.js:55-100 | both loops, with their breaks, compute exactly `FrameOn(nodes, step)` for any non-empty list |
| FastSlowPointers.AdvanceTick | src/utils/animations/fastSlowPointers.js:66-71 | after t ticks fast sits at 2t mod n; a tick from there reaches step t + 1, or both pointers meet at the head at t + 1 = n |
| FastSlowPointers.NoEarlyMeeting | src/utils/animations/fastSlowPointers.js:74-77 | before n ticks the pointers never meet |
| FastSlowPointers.RaceFrom | src/utils/animations/fastSlowPointers.js:65-78 | closed form of the detection loop started after t ticks |
| FastSlowPointers.RaceClosedForm | src/utils/animations/fastSlowPointers.js:65-78 | the detection loop run for `step` ticks sits at (step, 2·step mod n), and from n ticks on has met at the head |
| FastSlowPointers.CycleReportedIff | src/utils/animations/fastSlowPointers.js:80-99 | the positions message is shown exactly for 1 <= step < n, with slow at step and fast at 2·step mod n |
| FastSlowPointers.FinderReportsSecondNode | src/utils/animations/fastSlowPointers.js:84-95 | after step n the finder loop always reports the list's second node, whatever the drawn cycle is |
| FastSlowPointers.SampleTrace | src/utils/animations/fastSlowPointers.js:62-98 | on the sample the texts are the initial one at step 0, "Cycle detected!" at step 6 and "Cycle start found at node with value 2" from step 7 |
| MergeIntervals.Values | src/utils/animations/mergeIntervals.js:45-54 | the merged list's values are the current values of the objects it refers to, in order |
| MergeIntervals.MergeStep | src/utils/animations/mergeIntervals.js:59-71 | one iteration keeps the store's size and the merged positions increasing and below i + 1 |
| MergeIntervals.MergeLoop | src/utils/animations/mergeIntervals.js:58-72 | the loop over positions i .. stop-1 keeps the merged positions increasing and below stop |
| MergeIntervals.SortedOrder | src/utils/animations/mergeIntervals.js:53 | the sorted copy is a list of references to the input objects, one per input pair |
| MergeIntervals.FrameOn | src/utils/animations/mergeIntervals.js:44-77 | every frame redraws all input pairs; step 0 shows the input unchanged as the merged list |
| MergeIntervals.Animate | src/utils/animations/mergeIntervals.js:44-77 | the source's sort and loop, with the merge written into the shared object, compute exactly `FrameAt(step)` |
| MergeIntervals.StepKeepsInv | src/utils/animations/mergeIntervals.js:59-71 | one iteration keeps the loop invariant: merged values sorted and disjoint, unconsumed objects untouched, changed objects merged |
| MergeIntervals.MergeKeepsInv | src/utils/animations/mergeIntervals.js:63-66 | the overlapping case (end written in place) keeps the invariant |
| MergeIntervals.AppendKeepsInv | src/utils/animations/mergeIntervals.js:67-70 | the disjoint case (push) keeps the invariant |
| MergeIntervals.StepCoversMerge | src/utils/animations/mergeIntervals.js:63-66 | after a merge the merged list covers a point iff it did before or the current pair covers it |
| MergeIntervals.StepCoversAppend | src/utils/animations/mergeIntervals.js:67-70 | after an append the merged list covers a point iff it did before or the current pair covers it |
| MergeIntervals.StepCovers | src/utils/animations/mergeIntervals.js:59-71 | every iteration adds exactly the points of the current sorted pair to the covered set |
| MergeIntervals.LoopKeepsInv | src/utils/animations/mergeIntervals.js:58-72 | the whole loop keeps the invariant |
| MergeIntervals.LoopCovers | src/utils/animations/mergeIntervals.js:58-72 | after the loop up to stop the merged list covers exactly the points of the first stop sorted pairs |
| MergeIntervals.PrefixStep | src/utils/animations/mergeIntervals.js:58-59 | the first i + 1 sorted pairs cover a point iff the first i or the (i+1)-th do |
| MergeIntervals.SortedOrderOk | src/utils/animations/mergeIntervals.js:53 | the sort lists every object once, by non-decreasing start |
| MergeIntervals.StartInv | src/utils/animations/mergeIntervals.js:53-54 | the merged list [first sorted pair] satisfies the invariant and covers exactly that pair |
| MergeIntervals.MergedListIsSound | src/utils/animations/mergeIntervals.js:51-77 | at every step >= 1 the merged list is sorted and disjoint and covers exactly the points of the first min(step, n) sorted pairs |
| MergeIntervals.FinalCoversInput | src/utils/animations/mergeIntervals.js:74-76 | the final merged list covers exactly the points covered by the input |
| MergeIntervals.DrawnPairsAlias | src/utils/animations/mergeIntervals.js:65-86 | a drawn input pair keeps its start, and differs from the input only when it is a merged object (the aliasing the source's in-place write causes) |
| MergeIntervals.SampleIsSorted | src/utils/animations/mergeIntervals.js:10-53 | the sample is already sorted by start |
| MergeIntervals.SampleSteps | src/utils/animations/mergeIntervals.js:58-71 | on the sample the three iterations merge [2,6] into [1,3] and then add [8,10] and [15,18] |
| MergeIntervals.SampleFrames | src/utils/animations/mergeIntervals.js:44-77 | the sample's frames: blank at step 1, the merge at step 2, the add at step 3, and the final list from step 4 |
| MergeIntervals.SampleStart | src/utils/animations/mergeIntervals.js:48-54 | step 0 says "Original intervals (sorted by start time)"; step 1 shows [1,3] and an empty description |
| MergeIntervals.SampleMergeStep | src/utils/animations/mergeIntervals.js:63-66 | step 2 says "Merged interval [1, 6] with [2, 6]" and the first drawn pair has become [1, 6] |
| MergeIntervals.SampleAddStep | src/utils/animations/mergeIntervals.js:67-70 | step 3 says "Added new interval [8, 10]" |
| MergeIntervals.SampleFinal | src/utils/animations/mergeIntervals.js:74-76 | from step 4 the merged list is [[1,6],[8,10],[15,18]] in its JSON form and the drawn pairs show the aliased [1, 6] |
| CyclicSort.Tick | src/utils/animations/cyclicSort.js:31-47 | one loop iteration keeps every value in range 0 .. n-1 and the array's length |
| CyclicSort.Run | src/utils/animations/cyclicSort.js:30-48 | any number of iterations keeps the values in range and the index within the array |
| CyclicSort.FrameOn | src/utils/animations/cyclicSort.js:22-49 | every frame's array has the input's length and an index at most n |
| CyclicSort.Animate | src/utils/animations/cyclicSort.js:4-49 | the sample run computes exactly `FrameAt(step)` |
| CyclicSort.SortSteps | src/utils/animations/cyclicSort.js:22-49 | the loop over an array copy, swapping in place, computes exactly `FrameOn(a, step)` |
| CyclicSort.RunUnfold | src/utils/animations/cyclicSort.js:30-31 | an iteration below the array's end proceeds with the rest of the budget |
| CyclicSort.TickInPlace | src/utils/animations/cyclicSort.js:36-47 | the destructuring swap on the array and the index update do what `Tick` describes |
| CyclicSort.Misplaced | src/utils/animations/cyclicSort.js:38 | at most `upto` of the first `upto` cells are out of place |
| CyclicSort.MisplacedUpdate | src/utils/animations/cyclicSort.js:40-41 | writing one cell changes the out-of-place count by that cell's change only |
| CyclicSort.TickProgress | src/utils/animations/cyclicSort.js:36-47 | an iteration keeps the loop invariant (distinct values, cells before the index in place) and lowers the potential; a swap puts the value at its own position and leaves the index alone |
| CyclicSort.RunPermutes | src/utils/animations/cyclicSort.js:40-41 | the array is always a permutation of the input |
| CyclicSort.RunFinishes | src/utils/animations/cyclicSort.js:30-34 | more iterations than the potential reach "Sort complete" with the index at n |
| CyclicSort.CompleteIsSorted | src/utils/animations/cyclicSort.js:31-33 | when the index reaches n every cell holds its own position |
| CyclicSort.FramesAreSound | src/utils/animations/cyclicSort.js:22-49 | for a permutation of 0 .. n-1, every frame is a permutation of the input, and after 2n steps it is sorted and complete |
| CyclicSort.SampleSwaps | src/utils/animations/cyclicSort.js:10-43 | the sample's first four iterations swap 3 and 4, 4 and 2, 2 and 5, 5 and 0 |
| CyclicSort.SampleStart | src/utils/animations/cyclicSort.js:26-43 | step 0 says "Initial array"; step 1 says "Swap 3 and 4" |
| CyclicSort.SampleCompletes | src/utils/animations/cyclicSort.js:31-33 | from step 11 the sample is [0 .. 5], complete |
| CyclicSort.SortedMoves | src/utils/animations/cyclicSort.js:44-46 | on a sorted array the index walks to the end and completes |
| Helpers.ListNodeTag | src/utils/animations/helpers.js:74-83 | a node is coloured as current, else as prev, else as next, else plain, in that priority |
| Helpers.ListTags | src/utils/animations/helpers.js:111-127 | one colour per node, each as `ListNodeTag` decides |
| Helpers.TagsAreUnique | src/utils/animations/helpers.js:118-127 | no two nodes share the current, prev or next colour |
| Helpers.ReversalArrow | src/utils/animations/helpers.js:147-173 | nodes before the processed one point back (except the first), the processed one points at prev from sub-step 1, and the others point forward unless last |
| Helpers.ReversalArrows | src/utils/animations/helpers.js:147-173 | one arrow per node, each as `ReversalArrow` decides |
| Helpers.Labels | src/utils/animations/helpers.js:176-196 | a prev, current or next label is drawn exactly when that pointer is set, at the node it names |
| Helpers.HighlightOf | src/utils/animations/helpers.js:267-282 | a tree node is marked iff visited or queued, and as visited whenever it is visited |
| Helpers.Marks | src/utils/animations/helpers.js:262-306 | one mark per node of the tree |
| Helpers.MarkAt | src/utils/animations/helpers.js:262-306 | the k-th mark is the k-th node in preorder, highlighted as `HighlightOf` says, at a depth at least the root's with the spacing halved once per level |
| LinkedListReversal.Reverse | src/utils/animations/linkedListReversal.js:40 | the reversed list has the same length |
| LinkedListReversal.ReverseAt | src/utils/animations/linkedListReversal.js:40 | the i-th node of the reversal is the (n-1-i)-th of the list |
| LinkedListReversal.ReverseReverse | src/utils/animations/linkedListReversal.js:40 | reversing twice gives the list back |
| LinkedListReversal.StepDecomposes | src/utils/animations/linkedListReversal.js:32-57 | step 3k+s+1 processes node k at sub-step s, with the pointers each sub-step sets |
| LinkedListReversal.PointersInRange | src/utils/animations/linkedListReversal.js:43-56 | every pointer that is set names a node of the list |
| LinkedListReversal.CompleteIff | src/utils/animations/linkedListReversal.js:36-41 | "Reversal complete" is shown iff step >= 3n+1, and then the list is drawn reversed |
| LinkedListReversal.MoveStepArrowTargetsItself | src/utils/animations/linkedListReversal.js:53-60 | at sub-step 2 the processed node's back arrow is drawn to itself, since prev was moved onto it |
| LinkedListReversal.ProcessedNodeIsCurrent | src/utils/animations/linkedListReversal.js:43-60 | at sub-steps 0 and 1 the processed node is coloured as current |
| LinkedListReversal.SampleTrace | src/utils/animations/linkedListReversal.js:47-57 | the sample's steps 1, 2, 3 and 13 are store-next, point-back, move-forward and store-next with no next |
| LinkedListReversal.SampleText | src/utils/animations/linkedListReversal.js:27-53 | the sample's descriptions at steps 0, 1, 2, 3 and 13 |
| LinkedListReversal.SampleComplete | src/utils/animations/linkedListReversal.js:36-41 | from step 16 the sample is drawn as [5, 4, 3, 2, 1] with "Reversal complete" |
| TreeBFS.Consume | src/utils/animations/treeBFS.js:48-58 | the level loop ends at a level within the table and never visits more nodes than the order holds |
| TreeBFS.Animate | src/utils/animations/treeBFS.js:5-72 | the sample run computes exactly `FrameAt(step)` |
| TreeBFS.Traverse | src/utils/animations/treeBFS.js:36-72 | the while loop over levels, the push of each slice, and the queue slice compute exactly `FrameOn(order, sizes, step)` |
| TreeBFS.ConsumeTakesPrefix | src/utils/animations/treeBFS.js:48-58 | the loop visits the order's next min(remaining, nodes left) nodes, in order |
| TreeBFS.VisitedAndQueue | src/utils/animations/treeBFS.js:43-65 | after step s the visited nodes are the first min(s, total) of the BFS order, the queue continues the order, and the queue holds at most the current level's size |
| TreeBFS.VisitedQueueDisjoint | src/utils/animations/treeBFS.js:55-64 | for an order without repeats no node is both visited and queued |
| TreeBFS.CompleteIff | src/utils/animations/treeBFS.js:69-71 | "BFS traversal complete" is shown iff step >= the node count (and step > 0) |
| TreeBFS.SampleConstantsMatchTree | src/utils/animations/treeBFS.js:11-33 | the hard-coded order and level sizes are the drawn tree's levels read left to right |
| TreeBFS.HighlightsFollowFrame | src/utils/animations/treeBFS.js:75-125 | each drawn node is marked exactly when visited or queued, and marked visited exactly when visited |
| TreeBFS.SampleStep2 | src/utils/animations/treeBFS.js:43-67 | step 2 has visited [1, 2] and queue [3, 4] (the partial second level with the next one queued) |
| TreeBFS.SampleStep2Text | src/utils/animations/treeBFS.js:67 | its description is "Visited: [1, 2], Queue: [3, 4]" |
| TreeBFS.SampleComplete | src/utils/animations/treeBFS.js:69-71 | from step 7 every node is visited and the queue is empty |
| TreeBFS.SampleCompleteText | src/utils/animations/treeBFS.js:70 | from step 7 the description is "BFS traversal complete: 1 → 2 → … → 7" |
| TreeDFS.ParentValue | src/utils/animations/treeDFS.js:5-15 | a value that is found is the parent of the node with that value in the tree |
| TreeDFS.FindParent | src/utils/animations/treeDFS.js:20-24 | the search finds a node iff the value occurs in the tree, and the node found carries that value |
| TreeDFS.Siblings | src/utils/animations/treeDFS.js:18-41 | the sibling list holds at most one value |
| TreeDFS.ParentValueComplete | src/utils/animations/treeDFS.js:5-15 | in a tree without the value 0 every node that has a parent gets one |
| TreeDFS.ParentIsNode | src/utils/animations/treeDFS.js:10-14 | in a tree without the value 0 a found parent is never 0, so the truthiness test at line 89 passes |
| TreeDFS.ZeroParentIsLost | src/utils/animations/treeDFS.js:13-14 | a parent whose value is 0 is falsy, so `\|\|` drops it: the node's parent is reported as missing |
| TreeDFS.SiblingsHoldTheNode | src/utils/animations/treeDFS.js:32-38 | for a node with two distinct children, the sibling list of either child is that child itself, not its sibling |
| TreeDFS.SampleParents | src/utils/animations/treeDFS.js:50-62 | the sample's parent of each node 2 .. 7 |
| TreeDFS.SampleOrderIsPreorder | src/utils/animations/treeDFS.js:70-71 | the hard-coded order is the preorder of the drawn tree |
| TreeDFS.FrameShape | src/utils/animations/treeDFS.js:78-103 | steps 1 .. n show the first step values visited; "DFS traversal complete" iff step = n; beyond n the frame is blank; from n on the stack is empty |
| TreeDFS.SampleStack | src/utils/animations/treeDFS.js:84-95 | before the end the stack shows the next node twice |
| TreeDFS.HighlightsFollowFrame | src/utils/animations/treeDFS.js:106-156 | each drawn node is marked exactly when visited or on the stack, and marked visited exactly when visited |
| TreeDFS.SampleStepOne | src/utils/animations/treeDFS.js:81-98 | step 1 has visited [1] and stack [2, 2] |
| TreeDFS.StepOneText | src/utils/animations/treeDFS.js:98 | its description is "Visited: [1], Stack: [2, 2]" |
| TreeDFS.SampleTrace | src/utils/animations/treeDFS.js:78-103 | step 0 shows the root on the stack; step 7 says "DFS traversal complete: 1 → 2 → 4 → 5 → 3 → 6 → 7"; later steps say nothing |
| TwoHeaps.SeqMax | src/utils/animations/twoHeaps.js:32 | `Math.max(...maxHeap)` is an element of the heap and at least every element |
| TwoHeaps.Process | src/utils/animations/twoHeaps.js:27-55 | after k numbers the two heaps hold k numbers between them, the max heap holding as many as the min heap or one more |
| TwoHeaps.Animate | src/utils/animations/twoHeaps.js:4-58 | the loop over the first min(step, n) numbers computes exactly `FrameOn(a, step)` |
| TwoHeaps.Iterate | src/utils/animations/twoHeaps.js:28-54 | one iteration (push onto the processed list, insert, rebalance, median) takes the state after i numbers to the state after i + 1 |
| TwoHeaps.Push | src/utils/animations/twoHeaps.js:32-47 | the insertion with its re-sorts and the rebalancing with its shift and re-sort compute `Rebalance(Add(h, num))` |
| TwoHeaps.DescendingTopIsMax | src/utils/animations/twoHeaps.js:32-51 | the head of a descending heap is its maximum, so `Math.max` and `maxHeap[0]` agree |
| TwoHeaps.AddKeepsInv | src/utils/animations/twoHeaps.js:31-47 | an insertion keeps both heaps sorted, every max-heap element at most every min-heap element, the sizes balanced, and the contents the processed numbers |
| TwoHeaps.AddToMaxKeepsInv | src/utils/animations/twoHeaps.js:32-47 | a number no larger than the max heap's maximum goes to the max heap, keeping the invariant |
| TwoHeaps.AddToMinKeepsInv | src/utils/animations/twoHeaps.js:35-47 | a larger number goes to the min heap, keeping the invariant |
| TwoHeaps.PushToMax | src/utils/animations/twoHeaps.js:33-34 | the pushed and re-sorted max heap stays descending, below the min heap, and gains exactly the number |
| TwoHeaps.PushToMin | src/utils/animations/twoHeaps.js:36-37 | the pushed and re-sorted min heap stays ascending, above the max heap, and gains exactly the number |
| TwoHeaps.RebalanceKeepsInv | src/utils/animations/twoHeaps.js:40-47 | rebalancing restores the size balance and keeps order and contents |
| TwoHeaps.MoveMaxTop | src/utils/animations/twoHeaps.js:41-43 | moving the max heap's top to the min heap keeps both sorted, ordered against each other, and the same numbers between them |
| TwoHeaps.MoveMinTop | src/utils/animations/twoHeaps.js:44-46 | moving the min heap's top to the max heap keeps the same |
| TwoHeaps.ProcessKeepsInv | src/utils/animations/twoHeaps.js:27-55 | after any number of iterations the invariant holds for the numbers processed so far |
| TwoHeaps.Reversed | src/utils/animations/twoHeaps.js:34 | the max heap read backwards |
| TwoHeaps.AscendingUnique | src/utils/animations/twoHeaps.js:50-54 | two ascending sequences with the same numbers are equal |
| TwoHeaps.SameLeast | src/utils/animations/twoHeaps.js:50-54 | two ascending sequences with the same numbers start with the same least number |
| TwoHeaps.LayoutSorted | src/utils/animations/twoHeaps.js:16-17 | under the invariant, the max heap reversed followed by the min heap is the processed numbers in ascending order |
| TwoHeaps.ReversedAscending | src/utils/animations/twoHeaps.js:34 | a descending heap read backwards is ascending |
| TwoHeaps.ConcatAscending | src/utils/animations/twoHeaps.js:16-17 | two ascending runs, the first below the second, join into one ascending run |
| TwoHeaps.LayoutMiddle | src/utils/animations/twoHeaps.js:50-54 | the heaps' median is the middle element (odd count) or the mean of the two middle elements (even count) of that sorted layout |
| TwoHeaps.MedianIsMiddle | src/utils/animations/twoHeaps.js:25-57 | the median shown after k numbers is the true median of the first k numbers |
| TwoHeaps.ReversedPermutes | src/utils/animations/twoHeaps.js:34 | reading backwards keeps the same numbers |
| TwoHeaps.FramesSettle | src/utils/animations/twoHeaps.js:25 | every step at or past n shows the same frame as step n |
| TwoHeaps.SampleMedianOne | src/utils/animations/twoHeaps.js:50-51 | the sample's median after one number is 3 |
| TwoHeaps.SampleMedianFour | src/utils/animations/twoHeaps.js:52-53 | after four numbers it is 3.5 |
| TwoHeaps.FirstFourSorted | src/utils/animations/twoHeaps.js:10 | the sample's first four numbers sorted are [1, 3, 4, 5] |
| TwoHeaps.SampleMedianEight | src/utils/animations/twoHeaps.js:52-53 | after all eight numbers it is 4.5 |
| TwoHeaps.SampleSorted | src/utils/animations/twoHeaps.js:10 | the sample sorted is [1 .. 8] |
| TwoHeaps.SampleFinalText | src/utils/animations/twoHeaps.js:57 | the final median prints as "4.5" |
| TwoHeaps.InitialText | src/utils/animations/twoHeaps.js:22-23 | step 0 says "Initial array: 3, 1, 5, 4, 2, 8, 7, 6" |
| Subsets.Extend | src/utils/animations/subsets.js:18-21 | the new subsets are the old ones, in order, each with the number appended |
| Subsets.Doubling | src/utils/animations/subsets.js:16-23 | after k numbers the list holds 2^k subsets |
| Subsets.Generate | src/utils/animations/subsets.js:16-23 | the nested loops build exactly `PowerSet(a)` |
| Subsets.PathOf | src/utils/animations/subsets.js:140-142 | the decision path turns right at number i exactly when the subset includes it |
| Subsets.Animate | src/utils/animations/subsets.js:16-167 | the generation loops and the frame computation give exactly `FrameOn(a, step)` |
| Subsets.BitAbove | src/utils/animations/subsets.js:16-23 | adding 2^m leaves the bits below m unchanged |
| Subsets.TopBit | src/utils/animations/subsets.js:16-23 | below 2^(m+1), bit m is set exactly from 2^m on |
| Subsets.SelectDropsTop | src/utils/animations/subsets.js:22 | subset i + 2^m chooses the same among the first k <= m numbers as subset i |
| Subsets.DoublingSelects | src/utils/animations/subsets.js:16-23 | subset i of the list contains the numbers whose bits are set in i, in array order |
| Subsets.PowerSetShape | src/utils/animations/subsets.js:16-23 | there are 2^n subsets, the first is empty, and subset i is the one i's bits select |
| Subsets.ZeroSelectsNothing | src/utils/animations/subsets.js:16 | index 0 selects the empty subset |
| Subsets.ZeroHasNoBits | src/utils/animations/subsets.js:16 | zero has no bit set |
| Subsets.DoublingElements | src/utils/animations/subsets.js:20 | every subset contains only numbers of the array |
| Subsets.DoublingAt | src/utils/animations/subsets.js:19-22 | the first half of the doubled list is the old list, the second half the old list each with the number appended |
| Subsets.PrefixHas | src/utils/animations/subsets.js:17 | a number is among the first k iff among the first k-1 or it is the k-th |
| Subsets.DoublingDistinct | src/utils/animations/subsets.js:16-23 | for an array without repeats no subset is listed twice |
| Subsets.PathFollowsBits | src/utils/animations/subsets.js:135-142 | the decision path for subset i follows the bits of i |
| Subsets.SelectHas | src/utils/animations/subsets.js:16-23 | for an array without repeats, number j is in subset i iff j is among the first k and bit j of i is set |
| Subsets.FrameCount | src/utils/animations/subsets.js:58-104 | step s shows the first min(s, 2^n) subsets, says "Generated … of 2^n", and has a current subset only for 0 < s < 2^n |
| Subsets.SamplePowerSet | src/utils/animations/subsets.js:10-23 | the sample's list is [], [1], [2], [1, 2], [3], [1, 3], [2, 3], [1, 2, 3] |
| Subsets.SampleInitialText | src/utils/animations/subsets.js:58-59 | step 0 says "Initial array: [1, 2, 3]" |
| Subsets.SampleFinalText | src/utils/animations/subsets.js:62-63 | from step 8 the description is "Generated 8 of 8 subsets" |
| Subsets.SampleStepThree | src/utils/animations/subsets.js:102-142 | step 3 shows three subsets, the current subset [1, 2], and the path right, right, left |
| BinarySearch.Start | src/utils/animations/binarySearch.js:47-51 | the search starts with left = 0 and right = n - 1, inside the bounds invariant |
| BinarySearch.Mid | src/utils/animations/binarySearch.js:63 | the midpoint lies between left and right |
| BinarySearch.Iteration | src/utils/animations/binarySearch.js:58-93 | one iteration keeps left, right and mid within the array's bounds invariant |
| BinarySearch.Run | src/utils/animations/binarySearch.js:57-94 | any number of iterations keeps the bounds invariant |
| BinarySearch.Animate | src/utils/animations/binarySearch.js:47-95 | the loop over at most step iterations computes exactly `FrameOn(a, target, step)` |
| BinarySearch.Iterate | src/utils/animations/binarySearch.js:58-93 | one loop body computes `Iteration` |
| BinarySearch.Narrow | src/utils/animations/binarySearch.js:71-93 | the rotated-array branch, choosing the sorted half and moving left or right, computes `Iteration` |
| BinarySearch.StopsForGood | src/utils/animations/binarySearch.js:58-69 | once the loop has broken out, further steps give the same state |
| BinarySearch.MidInRange | src/utils/animations/binarySearch.js:63-65 | while left <= right the midpoint indexes the array |
| BinarySearch.FoundIsHit | src/utils/animations/binarySearch.js:58-69 | a reported hit holds the target at mid with "Found target … at index mid"; a stop without a hit has left > right and says "Target … not found" |
| BinarySearch.IterationShrinks | src/utils/animations/binarySearch.js:71-93 | an iteration either stops or narrows the window strictly |
| BinarySearch.IterationKeepsTarget | src/utils/animations/binarySearch.js:71-93 | on a rotated sorted array the window moves toward the half that holds the target |
| BinarySearch.UniqueIndex | src/utils/animations/binarySearch.js:10 | a rotated strictly ascending array has each value at one index only |
| BinarySearch.DistinctRotated | src/utils/animations/binarySearch.js:10 | a rotated strictly ascending array holds distinct values |
| BinarySearch.RunKeepsTarget | src/utils/animations/binarySearch.js:57-94 | after k iterations the target's index is still in the window or has been found, and the window has shrunk by k |
| BinarySearch.FoundStops | src/utils/animations/binarySearch.js:65-68 | a hit always breaks out of the loop |
| BinarySearch.NextNarrows | src/utils/animations/binarySearch.js:57-94 | one more iteration keeps that narrowing invariant |
| BinarySearch.StepKeeps | src/utils/animations/binarySearch.js:63-93 | an iteration keeps the target in reach and either finds it or shrinks the window |
| BinarySearch.FindsPresentTarget | src/utils/animations/binarySearch.js:57-94 | on a rotated sorted array holding the target, n steps find it at its index |
| BinarySearch.AbsentNeverFound | src/utils/animations/binarySearch.js:65-68 | a target absent from the array is never reported found |
| BinarySearch.SampleIsRotated | src/utils/animations/binarySearch.js:10 | the sample is an ascending array rotated at index 4 |
| BinarySearch.SampleTrace | src/utils/animations/binarySearch.js:53-93 | the sample's frames: initialize, narrow right of mid 3, narrow left of mid 5, found at 4 |
| BinarySearch.SampleFound | src/utils/animations/binarySearch.js:65-66 | from step 3 the description is "Found target 0 at index 4" |
| BinarySearch.SampleInitialText | src/utils/animations/binarySearch.js:53-54 | step 0 says "Initialize: left = 0, right = 6, target = 0" |
| TopologicalSort.Nodes | src/utils/animations/topologicalSort.js:47 | `Object.keys(graph)` lists the nodes in their declared order |
| TopologicalSort.DfsCall | src/utils/animations/topologicalSort.js:51-76 | a call spends between zero and the remaining budget, never pushing the step count past maxSteps |
| TopologicalSort.Neighbors | src/utils/animations/topologicalSort.js:64-71 | the neighbour loop likewise stays within the budget |
| TopologicalSort.Outer | src/utils/animations/topologicalSort.js:79-86 | the outer loop over the nodes stays within the step budget |
| TopologicalSort.GraphWellFormed | src/utils/animations/topologicalSort.js:10-19 | every neighbour of the sample graph is one of its nodes |
| TopologicalSort.NamesOf | src/utils/animations/topologicalSort.js:89-93 | the node numbers are printed as their letters |
| TopologicalSort.Search.constructor | src/utils/animations/topologicalSort.js:37-48 | the search starts with nothing visited, an empty stack and path, no current node and no steps spent |
| TopologicalSort.Search.Dfs | src/utils/animations/topologicalSort.js:51-76 | the recursive method, updating the shared state in place, ends in exactly the state and result `DfsCall` gives |
| TopologicalSort.Search.VisitNeighbors | src/utils/animations/topologicalSort.js:64-71 | the neighbour loop, recursing into unvisited neighbours and stopping at the first that runs out, ends as `Neighbors` says |
| TopologicalSort.Animate | src/utils/animations/topologicalSort.js:36-96 | the outer loop and the description choice compute exactly `FrameAt(step)` |
| TopologicalSort.Enter | src/utils/animations/topologicalSort.js:54-62 | entering an unvisited node reached by an edge from the path's end keeps the search invariant |
| TopologicalSort.OrderedCons | src/utils/animations/topologicalSort.js:73 | putting a node in front of a stack that already holds all its neighbours keeps every edge pointing forward in the stack |
| TopologicalSort.Finish | src/utils/animations/topologicalSort.js:73-74 | finishing a node whose neighbours are all visited keeps the search invariant |
| TopologicalSort.DfsKeeps | src/utils/animations/topologicalSort.js:51-76 | a call keeps the invariant (on a graph with a rank rising along edges): visited only grows, a finished call leaves the path as it was and the node visited, an aborted one only extends the path |
| TopologicalSort.DfsEnters | src/utils/animations/topologicalSort.js:54-75 | a call with budget left enters the node, searches its neighbours and finishes it, keeping the invariant, as DfsKeeps states |
| TopologicalSort.NeighborsKeeps | src/utils/animations/topologicalSort.js:64-71 | the neighbour loop keeps the invariant and, when it finishes, has visited every neighbour |
| TopologicalSort.NeighborsCallKeeps | src/utils/animations/topologicalSort.js:65-69 | at an unvisited neighbour the loop searches it and goes on only if that search finished, keeping the invariant |
| TopologicalSort.OuterKeeps | src/utils/animations/topologicalSort.js:79-86 | the outer loop keeps the invariant |
| TopologicalSort.RunKeeps | src/utils/animations/topologicalSort.js:43-86 | the invariant holds after every run |
| TopologicalSort.Range | src/utils/animations/topologicalSort.js:47 | the numbers 0 .. n-1 as a set of n elements |
| TopologicalSort.SetOf | src/utils/animations/topologicalSort.js:37 | the visited list as a set, with as many elements as the list when it has no repeats |
| TopologicalSort.Pigeonhole | src/utils/animations/topologicalSort.js:88-91 | a list without repeats of nodes below n has at most n entries, and all of them when it has n |
| TopologicalSort.RunIsTopological | src/utils/animations/topologicalSort.js:43-91 | at most n nodes are ever entered, and a full stack puts every node before each of its neighbours |
| TopologicalSort.AbortedPath | src/utils/animations/topologicalSort.js:55-74 | the processing path holds exactly the visited nodes not yet on the stack, and each of its nodes is an edge from the one before |
| TopologicalSort.GraphRanked | src/utils/animations/topologicalSort.js:10-19 | the sample graph has no cycle: a rank rising along every edge exists |
| TopologicalSort.SampleIsTopological | src/utils/animations/topologicalSort.js:10-91 | on the sample, a full stack is a topological order |
| TopologicalSort.OuterSkips | src/utils/animations/topologicalSort.js:79-80 | nodes already visited (or an exhausted budget) are skipped by the outer loop |
| TopologicalSort.DfsUnfold | src/utils/animations/topologicalSort.js:51-75 | a call on an unvisited node with budget left enters it, runs the neighbour loop and finishes the node if that loop finishes |
| TopologicalSort.NeighborsVisited | src/utils/animations/topologicalSort.js:64-65 | a neighbour loop over visited neighbours changes nothing |
| TopologicalSort.NeighborsCall | src/utils/animations/topologicalSort.js:64-70 | an unvisited first neighbour is searched, and the loop goes on only if that search finished |
| TopologicalSort.OuterCall | src/utils/animations/topologicalSort.js:79-84 | an unvisited first node with budget left is searched, and the loop goes on only if that search finished |
| TopologicalSort.CallG | src/utils/animations/topologicalSort.js:51-76 | the call on G from the sample's state after entering F |
| TopologicalSort.CallF | src/utils/animations/topologicalSort.js:51-76 | the call on F visits G and finishes with stack [F, G] |
| TopologicalSort.CallH | src/utils/animations/topologicalSort.js:51-76 | the call on H finishes H |
| TopologicalSort.CallE | src/utils/animations/topologicalSort.js:51-76 | the call on E visits F, G and H |
| TopologicalSort.CallC | src/utils/animations/topologicalSort.js:51-76 | the call on C finishes C after E |
| TopologicalSort.CallD | src/utils/animations/topologicalSort.js:51-76 | the call on D, all of whose neighbours are visited, finishes D |
| TopologicalSort.CallA | src/utils/animations/topologicalSort.js:51-76 | the call on A visits A, C, E, F, G, H, D in that order using seven steps |
| TopologicalSort.CallB | src/utils/animations/topologicalSort.js:51-76 | the call on B puts B at the front of the stack |
| TopologicalSort.RunStartsWithA | src/utils/animations/topologicalSort.js:79-86 | with at least seven steps the outer loop first runs A's search to completion |
| TopologicalSort.SkipAfterB | src/utils/animations/topologicalSort.js:79-80 | after B every remaining node is visited and skipped |
| TopologicalSort.OuterAfterA | src/utils/animations/topologicalSort.js:79-86 | after A's search the outer loop only searches B |
| TopologicalSort.RunComplete | src/utils/animations/topologicalSort.js:43-86 | from step 8 the sample's stack is B, A, D, C, E, H, F, G |
| TopologicalSort.RunSeven | src/utils/animations/topologicalSort.js:43-86 | with seven steps only A's search runs |
| TopologicalSort.CallEThree | src/utils/animations/topologicalSort.js:52 | with a budget of three the call on E runs out while entering F |
| TopologicalSort.CallCThree | src/utils/animations/topologicalSort.js:52-68 | so does the call on C, and the failure propagates up |
| TopologicalSort.RunThree | src/utils/animations/topologicalSort.js:43-86 | step 3 stops with A, C, E on the path |
| TopologicalSort.SampleNames | src/utils/animations/topologicalSort.js:89-91 | the final stack and the visited order printed as letters |
| TopologicalSort.SampleStepThree | src/utils/animations/topologicalSort.js:92-93 | step 3 says "Processing node: E" |
| TopologicalSort.FrameSeven | src/utils/animations/topologicalSort.js:88-89 | step 7 ends with an empty path and an incomplete stack |
| TopologicalSort.SampleStepSeven | src/utils/animations/topologicalSort.js:89 | step 7 says "Processed nodes: A, C, E, F, G, H, D", stated as a concatenation of the letters and separators |
| TopologicalSort.FrameEight | src/utils/animations/topologicalSort.js:90-91 | step 8 completes the stack |
| TopologicalSort.SampleComplete | src/utils/animations/topologicalSort.js:91 | step 8 says "Topological sort complete: B → A → D → C → E → H → F → G", stated as a concatenation of the letters and arrows |
| TopologicalSort.SampleAfterEnd | src/utils/animations/topologicalSort.js:88 | steps past 8 leave the budget unspent and say nothing |
| TopologicalSort.SampleTrace | src/utils/animations/topologicalSort.js:43-95 | the sample's descriptions at steps 0, 3, 7, 8 and beyond |
| DynamicProgramming.Start | src/utils/animations/dynamicProgramming.js:23-25 | before the first call no cell of the n + 1 memo cells is filled, no call was made and nothing is current |
| DynamicProgramming.FibCall | src/utils/animations/dynamicProgramming.js:28-53 | a call keeps the memo's size |
| DynamicProgramming.Memoizer.constructor | src/utils/animations/dynamicProgramming.js:23-25 | a fresh memo of n + 1 empty cells with the counters at zero |
| DynamicProgramming.Memoizer.FibStep | src/utils/animations/dynamicProgramming.js:28-53 | the recursive method, writing the memo array and counters in place, ends in exactly the state and result `FibCall` gives |
| DynamicProgramming.Animate | src/utils/animations/dynamicProgramming.js:21-67 | the memoizer run and the description choice compute exactly `FrameAt(step)` |
| DynamicProgramming.FibBudget | src/utils/animations/dynamicProgramming.js:28-53 | calls only grow and never pass the budget; a call gives up only when the budget is spent; a call that ran makes a number no larger than its own current; cells above its own are untouched, and its own too when it gives up |
| DynamicProgramming.FibSound | src/utils/animations/dynamicProgramming.js:28-53 | a memo holding only true Fibonacci numbers stays so, and a value returned is Fib(num) |
| DynamicProgramming.SoundUpdate | src/utils/animations/dynamicProgramming.js:37-51 | storing a true Fibonacci number keeps the memo sound |
| DynamicProgramming.MemoHit | src/utils/animations/dynamicProgramming.js:41-43 | a filled cell above 1 is returned at the cost of one call |
| DynamicProgramming.BaseCase | src/utils/animations/dynamicProgramming.js:36-39 | 0 and 1 are stored and returned at the cost of one call |
| DynamicProgramming.BothAnswer | src/utils/animations/dynamicProgramming.js:45-52 | when both recursive calls answer, their sum is stored and returned |
| DynamicProgramming.FirstGivesUp | src/utils/animations/dynamicProgramming.js:45-46 | a first recursive call that gives up makes the call give up with its state |
| DynamicProgramming.SecondGivesUp | src/utils/animations/dynamicProgramming.js:48-49 | a second recursive call that gives up makes the call give up with its state |
| DynamicProgramming.FreshCall | src/utils/animations/dynamicProgramming.js:28-53 | on a memo empty above 1, fib(m) answers iff the budget covers 2m - 1 calls (1 for m <= 1), and then returns Fib(m) after exactly that many calls with cells 1 .. m filled |
| DynamicProgramming.SecondCall | src/utils/animations/dynamicProgramming.js:48 | after fib(m - 1) filled the cells below m, fib(m - 2) is a memo hit or base case costing one call |
| DynamicProgramming.SampleCompletes | src/utils/animations/dynamicProgramming.js:60-63 | from step 11, fib(6) returns 8 after 11 calls and stores it |
| DynamicProgramming.SampleGivesUp | src/utils/animations/dynamicProgramming.js:60-65 | below 11 steps fib(6) gives up having spent every step, with a current calculation at most 6 |
| DynamicProgramming.CallsWithinStep | src/utils/animations/dynamicProgramming.js:29-33 | a frame never shows more calls than its step |
| DynamicProgramming.SampleTrace | src/utils/animations/dynamicProgramming.js:56-66 | step 0 initializes, steps 1 .. 10 show computing, from 11 the result 8 in 11 calls |
| DynamicProgramming.InitialText | src/utils/animations/dynamicProgramming.js:57 | "Initialize: Calculate Fibonacci(6)" |
| DynamicProgramming.ResultText | src/utils/animations/dynamicProgramming.js:63 | "Fibonacci(6) = 8 (Completed in 11 calls)" |
| GreedyAlgorithms.Finishes | src/utils/animations/greedyAlgorithms.js:29 | the sort key of each activity is its finish time |
| GreedyAlgorithms.SortOrder | src/utils/animations/greedyAlgorithms.js:29 | the sorted order picks one input position per activity |
| GreedyAlgorithms.SortByFinish | src/utils/animations/greedyAlgorithms.js:29 | sorting keeps the number of activities |
| GreedyAlgorithms.SortIsStableByFinish | src/utils/animations/greedyAlgorithms.js:29 | the sorted copy is a permutation of the input, ordered by finish time, with ties in input order |
| GreedyAlgorithms.SortedStaysPut | src/utils/animations/greedyAlgorithms.js:29 | an input already ordered by finish time is left as it is |
| GreedyAlgorithms.Animate | src/utils/animations/greedyAlgorithms.js:39-66 | the sort and the selection loop compute exactly `FrameAt(step)` |
| GreedyAlgorithms.ScanShape | src/utils/animations/greedyAlgorithms.js:48-61 | after k activities the selection lists chosen positions below k in increasing order, the last finish time is that of the last selected (0 before any), and the current activity is the k-th |
| GreedyAlgorithms.ScanExtends | src/utils/animations/greedyAlgorithms.js:50-61 | later iterations only add selections, each at a position at least where the earlier scan stopped |
| GreedyAlgorithms.SelectedIff | src/utils/animations/greedyAlgorithms.js:54-56 | activity j is selected iff its start is at or after the last selected finish when it is examined |
| GreedyAlgorithms.SelectionCompatible | src/utils/animations/greedyAlgorithms.js:48-61 | on activities ordered by finish time, the selected activities do not overlap |
| GreedyAlgorithms.Examined | src/utils/animations/greedyAlgorithms.js:50-52 | step s shows the min(s, n)-th activity of the sorted list as current |
| GreedyAlgorithms.SampleSorted | src/utils/animations/greedyAlgorithms.js:14-29 | the sample is already sorted by finish time |
| GreedyAlgorithms.SampleScan | src/utils/animations/greedyAlgorithms.js:48-61 | the full scan of the sample selects [1,4], [5,7], [8,11], [12,16] |
| GreedyAlgorithms.AfterEnd | src/utils/animations/greedyAlgorithms.js:63-65 | from step n on the frame shows the full scan and "Greedy selection complete" |
| GreedyAlgorithms.SampleFrame | src/utils/animations/greedyAlgorithms.js:63-65 | from step 11 the sample shows its four selected activities |
| GreedyAlgorithms.CompleteText | src/utils/animations/greedyAlgorithms.js:64 | "Greedy selection complete: 4 activities selected" |
| GreedyAlgorithms.SampleComplete | src/utils/animations/greedyAlgorithms.js:63-65 | from step 11 the selected activities and that description |
| GreedyAlgorithms.SampleStepOne | src/utils/animations/greedyAlgorithms.js:54-57 | step 1 selects [1, 4] |
| GreedyAlgorithms.SampleStepTwo | src/utils/animations/greedyAlgorithms.js:58-59 | step 2 skips [3, 5] |
| GreedyAlgorithms.SampleInitial | src/utils/animations/greedyAlgorithms.js:44-45 | step 0 says "Initial activities sorted by finish time" |
| VariableWindow.SumRangeFront | js/animations.js:587 | a window's total is its first element plus the total of the rest |
| VariableWindow.ShrinkNonEmpty | js/animations.js:578-588 | with non-negative values and a positive target, a window whose sum reaches the target holds at least one element |
| VariableWindow.TickGood | js/animations.js:578-597 | an iteration keeps both ends in range and the running sum equal to the window's total |
| VariableWindow.FromNext | js/animations.js:577-598 | one more iteration applies the loop body unless end has passed the array |
| VariableWindow.Next | js/animations.js:577-598 | the same from the initial window |
| VariableWindow.IterateGood | js/animations.js:565-598 | after any number of iterations the running sum is the window's total and the ends are in range |
| VariableWindow.SampleAdmissible | js/animations.js:533-534 | the sample has non-negative values and a positive target |
| VariableWindow.Halted | js/animations.js:594-596 | once end has passed the array the loop has broken off and later steps change nothing |
| VariableWindow.Animate | js/animations.js:564-627 | the loop with its break and the description choice compute exactly `FrameOn(values, targetSum, step)` |
| VariableWindow.InfinityUntilShrink | js/animations.js:569-583 | minLength is still Infinity iff no iteration has shrunk the window, iff start is still 0 |
| VariableWindow.MinimumAttained | js/animations.js:580-583 | a recorded minimum length is the length of a window at which a shrink happened |
| VariableWindow.LeastAppend | js/animations.js:580-581 | a running minimum that is at most the new length and the old minimum bounds the longer list of lengths |
| VariableWindow.MinimumIsLeast | js/animations.js:580-583 | the recorded minimum is at most the length of every window that shrank |
| VariableWindow.MinimumWindow | js/animations.js:580-583 | the recorded window runs from minStart to minEnd, has the recorded length and sums to at least the target |
| VariableWindow.NullIff | js/animations.js:600-603 | the frame is `null` iff the array is exhausted below the target and no window ever reached it |
| VariableWindow.SampleFinal | js/animations.js:600-618 | from step 18 the sample shows "Minimum length subarray" of length 1 at index 4 |
| VariableWindow.MinimumText | js/animations.js:605 | "Minimum length subarray: 1 (from index 4 to 4)" |
| VariableWindow.SampleEarlyFrames | js/animations.js:577-627 | steps 1 .. 9 of the sample yield a frame |
| VariableWindow.SampleLateFrames | js/animations.js:577-627 | steps 10 .. 17 of the sample yield a frame |
| VariableWindow.SampleNeverNull | js/animations.js:600-603 | the sample never returns `null`, so playback never stops on its own |
| LegacyFastSlow.TwoHops | js/animations.js:398 | a jump of two nodes mod n is two hops of one node |
| LegacyFastSlow.RaceApart | js/animations.js:396-404 | a race that ran without meeting leaves the pointers on different nodes |
| LegacyFastSlow.FrameOn | js/animations.js:388-409 | both pointers always name nodes of the list |
| LegacyFastSlow.Animate | js/animations.js:387-409 | the loop with its break and the final description computes exactly `FrameAt(step)` |
| LegacyFastSlow.DetectedIff | js/animations.js:396-408 | a meeting is reported iff step >= n; before that the pointers sit at step and 2·step mod n; from step n both are back at the head |
| LegacyFastSlow.SampleTrace | js/animations.js:393-408 | the ten-node sample initializes at step 0, moves at steps 1 .. 9 and reports the meeting from step 10 |
| LegacyPlayback.Controller.constructor | js/animations.js:16-21 | the initial state: not playing, step 0, no interval and no active animation |
| LegacyPlayback.Controller.NewTimer | js/animations.js:122-166 | `setInterval` hands out a fresh positive handle that becomes live and changes nothing else |
| LegacyPlayback.Controller.Stop | js/animations.js:146-156 | stopping clears the live timer and the playing flag but keeps the stale handle, the step and the active animation |
| LegacyPlayback.Controller.Start | js/animations.js:91-143 | an unknown pattern or a missing container element changes nothing but stopping; otherwise the animation restarts at step 0 on a fresh container with one new live timer |
| LegacyPlayback.Controller.Tick | js/animations.js:122-142 | a timer firing renders the current step; `null` stops playback with the step kept; otherwise a non-empty description replaces the text and the step advances by one |
| LegacyPlayback.Controller.Toggle | js/animations.js:159-195 | while playing it pauses; paused on the same pattern it resumes at the kept step with a new timer; otherwise it does what `Start` does, the whole new state given for both the successful and the failed start |
| LegacyPlayback.Controller.Reset | js/animations.js:198-206 | reset stops, puts the step back at 0 and redraws step 0 only when the pattern is the active one |
| LegacyPlayback.Controller.Play | js/animations.js:122-142 | k timer firings on a simulator that never ends advance the step by k and leave step + k - 1 on the canvas |
| ContainerPlayback.Controller.constructor | src/components/AnimationContainer.js:4-38 | mounting looks the pattern up, starts paused at step 0 with no timer, and the effect's reset shows step 0's description when a simulator exists |
| ContainerPlayback.Controller.NewTimer | src/components/AnimationContainer.js:45 | `setInterval` hands out a fresh positive handle that becomes live and changes nothing else |
| ContainerPlayback.Controller.ClearStored | src/components/AnimationContainer.js:15-18 | clearing the stored interval removes exactly that timer and empties the ref |
| ContainerPlayback.Controller.Reset | src/components/AnimationContainer.js:14-31 | reset stops any timer, pauses, returns the step to 0 and shows step 0's description (empty if it has none) |
| ContainerPlayback.Controller.Start | src/components/AnimationContainer.js:40-66 | without a simulator nothing happens; otherwise playback starts with one new live timer stored, leaving the step alone |
| ContainerPlayback.Controller.Tick | src/components/AnimationContainer.js:45-65 | a firing first advances the step and renders it; `null` stops and clears the timer; otherwise a non-empty description replaces the shown one |
| ContainerPlayback.Controller.Stop | src/components/AnimationContainer.js:68-74 | stopping clears the stored timer and pauses, keeping the step and description |
| ContainerPlayback.Controller.Toggle | src/components/AnimationContainer.js:91-97 | toggling plays exactly when it was paused and a simulator exists, with a fresh timer, and otherwise leaves no timer |
| ContainerPlayback.Controller.Play | src/components/AnimationContainer.js:45-65 | k firings on a simulator that never ends advance the step by k and show the last step's description when it has one |
| Registry.Lookup | src/utils/animations/index.js:19-75 | `registry[id]` is a simulator exactly when the id is a key, and then the one stored under it |
| Registry.Ids | src/utils/animations/index.js:19-75 | two aliases per pattern, the section id and the pattern id |
| Registry.EntriesKeys | src/utils/animations/index.js:19-75 | the registry's keys are exactly the aliases listed |
| Registry.DistinctInit | src/utils/animations/index.js:19-75 | the aliases before the last pattern are distinct and differ from both of its aliases |
| Registry.EntriesResolve | src/utils/animations/index.js:19-75 | with distinct aliases each of a pattern's two aliases resolves to its simulator |
| Registry.EntriesSize | src/utils/animations/index.js:19-75 | with distinct aliases the registry has two keys per pattern |
| Registry.PatternIdsDistinct | src/utils/animations/index.js:21-74 | the 28 aliases of the registry are pairwise distinct |
| Registry.TableSize | src/utils/animations/index.js:19-75 | the alias table has two keys per pattern |
| Registry.TableUnknown | src/utils/animations/index.js:19-75 | an id outside the table finds no simulator |
| Registry.TableResolves | src/utils/animations/index.js:19-75 | both aliases of every pattern find its simulator |
| Registry.KeyOwner | src/utils/animations/index.js:19-75 | every key is an alias of some pattern |
| Registry.TableAliases | src/utils/animations/index.js:19-75 | when the simulators are distinct, an id finds a pattern's simulator iff it is one of that pattern's two aliases |
| Registry.RegistryShape | src/utils/animations/index.js:19-75 | the registry has 28 keys, unknown ids find nothing, and both aliases of each pattern find its simulator |
| Registry.SimulatorsDistinct | src/utils/animations/index.js:3-75 | the 14 patterns use 14 different simulators, none of them the two older-script-only ones |
| Registry.TwoAliasesEach | src/utils/animations/index.js:19-75 | each simulator is reachable by exactly two ids |
| Registry.TwoPointerIds | src/utils/animations/index.js:21-22 | the two two-pointer ids find the converging simulator |
| Registry.LegacyShape | js/animations.js:24-30 | the older registry has four keys, maps each to its simulator, and does not know the new section ids |
| Simulation.NeverEnds | src/utils/animations/index.js:19-75 | no registered simulator returns `null` on its sample, so no playback ends by itself |
| Simulation.Call | src/utils/animations/index.js:19-75 | calling a simulator through its own step-by-step code gives exactly its rendered frame |
| Catalogue.TrimStartShape | src/services/populateService.js:65 | `trim()` first drops exactly the leading white space (one maximal run) |
| Catalogue.TrimEndShape | src/services/populateService.js:65 | and then exactly the trailing white space |
| Catalogue.TrimShape | src/services/populateService.js:65 | the trimmed line is the slice between the leading and trailing white runs, and starts and ends with non-white characters |
| Catalogue.Split | src/services/populateService.js:59 | `split` always yields at least one piece |
| Catalogue.SplitJoin | src/services/populateService.js:59 | joining the pieces with the separator gives the text back |
| Catalogue.SplitJoinAtSep | src/services/populateService.js:59 | the same when the text starts with the separator |
| Catalogue.SplitJoinInPiece | src/services/populateService.js:59 | the same when the text starts inside a piece |
| Catalogue.JoinInPiece | src/services/populateService.js:90 | a character in front of the first piece ends up in front of the joined text |
| Catalogue.SplitPieces | src/services/populateService.js:90 | no piece contains the separator |
| Catalogue.PrefixLen | src/services/populateService.js:71 | the run a `+` quantifier takes never exceeds the text |
| Catalogue.PrefixLenShape | src/services/populateService.js:71 | the run is maximal: every character in it qualifies and the next one does not |
| Catalogue.PrefixLenOf | src/services/populateService.js:94 | a qualifying run followed by a non-qualifying character is the whole maximal run |
| Catalogue.CapturesFields | src/services/populateService.js:94-97 | a match captures a non-empty digit id and a name that starts with a non-white character and contains no line break |
| Catalogue.CapturesSplit | src/services/populateService.js:94 | a matched piece is the id, a dot, a white gap and the name |
| Catalogue.LeadingGap | src/services/populateService.js:94 | the maximal white run of a text that starts white is a gap |
| Catalogue.CutAround | src/services/populateService.js:94 | a text is its part before a dot, the dot, and the rest cut at any point |
| Catalogue.CapturesComplete | src/services/populateService.js:94-97 | every piece of that shape matches, capturing exactly its id and name |
| Catalogue.Step | src/services/populateService.js:64-103 | one line keeps the state coherent: an attached sub-pattern is always the last of the last pattern |
| Catalogue.Run | src/services/populateService.js:59-104 | the state after any lines is coherent |
| Catalogue.CollectProblems | src/services/populateService.js:92-102 | the loop over the comma pieces collects exactly `Problems(pieces)` |
| Catalogue.Parse | src/services/populateService.js:57-111 | the trim/skip/header/sub-header/problem loop computes exactly `ParseRawData(rawData)`; a value that is not a string gives `null` |
| Catalogue.ProblemsGood | src/services/populateService.js:94-100 | every problem collected has a digit id, a name, and the URL made from its slug |
| Catalogue.ProblemsSound | src/services/populateService.js:92-101 | every problem collected comes from a matching piece of the line |
| Catalogue.ProblemsComplete | src/services/populateService.js:92-101 | every matching piece of the line yields a collected problem |
| Catalogue.AppendGood | src/services/populateService.js:74-75 | pushing a well-formed pattern keeps the outline well formed |
| Catalogue.AddSubGood | src/services/populateService.js:82-85 | attaching a well-formed sub-pattern keeps the outline well formed |
| Catalogue.AllGoodAppend | src/services/populateService.js:100 | well-formed problem lists concatenate to a well-formed list |
| Catalogue.AddProblemsGood | src/services/populateService.js:92-101 | adding well-formed problems to the current sub-pattern keeps the outline well formed |
| Catalogue.StepWellFormed | src/services/populateService.js:64-103 | every line keeps the outline well formed: ids are the slugs of the names, names are header lines, problems are well formed |
| Catalogue.RunWellFormed | src/services/populateService.js:57-106 | the parsed outline is well formed |
| Catalogue.NamesAddSub | src/services/populateService.js:82-85 | attaching a sub-pattern leaves the pattern names alone |
| Catalogue.NamesAddProblems | src/services/populateService.js:100 | adding problems leaves the pattern names alone |
| Catalogue.NamesAppend | src/services/populateService.js:75 | pushing a pattern appends its name |
| Catalogue.RunHeaders | src/services/populateService.js:64-77 | the pattern names are exactly the section-header lines, trimmed, in order |
| Catalogue.SubNamesAddSub | src/services/populateService.js:84 | attaching a sub-pattern appends its name to the sub-pattern names |
| Catalogue.SubNamesAddProblems | src/services/populateService.js:100 | adding problems leaves the sub-pattern names alone |
| Catalogue.SubNamesNewPattern | src/services/populateService.js:74-75 | a new pattern without sub-patterns adds no sub-pattern name |
| Catalogue.RunSubHeaders | src/services/populateService.js:64-86 | the sub-pattern names are exactly the sub-pattern header lines that follow some section header, in order |
| Catalogue.BlankLinesIgnored | src/services/populateService.js:67-68 | dropping blank lines changes nothing |
| Catalogue.PlainKeeps | src/services/populateService.js:86-88 | a problem line with no current sub-pattern, or only a detached one, changes nothing |
| Catalogue.ProblemLineAppends | src/services/populateService.js:88-101 | a problem line appends its problems to the last sub-pattern of the last pattern and changes nothing else |
| Catalogue.HeaderClearsSub | src/services/populateService.js:71-77 | after a section header, problem lines are ignored until the next sub-pattern header |
| Slug.RunLen | src/services/populateService.js:117 | a run of `[a-z0-9]` characters lies within the text |
| Slug.SepLen | src/services/populateService.js:117 | a run of other characters lies within the text |
| Slug.RunLenShape | src/services/populateService.js:117 | the alphanumeric run is maximal and non-empty when the text starts with one |
| Slug.SepLenShape | src/services/populateService.js:117 | the separator run is maximal and non-empty when the text starts with one |
| Slug.WordsShape | src/services/populateService.js:117 | every word is a non-empty alphanumeric run; no words means no alphanumeric character |
| Slug.CollapseRun | src/services/populateService.js:117 | `replace` copies an alphanumeric run unchanged |
| Slug.CollapseHead | src/services/populateService.js:117 | an alphanumeric first character is kept |
| Slug.CollapseSep | src/services/populateService.js:117 | a whole separator run becomes one "-" |
| Slug.CollapseFromWord | src/services/populateService.js:117 | from a word, the replaced text is the words joined by "-" plus one "-" if the text ends in a separator |
| Slug.RunLenLast | src/services/populateService.js:117 | a text that is all one run ends in an alphanumeric character |
| Slug.RunLenStop | src/services/populateService.js:117 | a run that stops early stops at a separator character |
| Slug.NoWordsTrail | src/services/populateService.js:117 | a non-empty text without alphanumeric words ends in a separator, so its trail is "-" |
| Slug.WordsCons | src/services/populateService.js:117 | the words of a text that starts with a word are that word and the words after it |
| Slug.TrailSuffix | src/services/populateService.js:117 | dropping a prefix keeps whether the text ends in a separator |
| Slug.CollapseFromSep | src/services/populateService.js:117 | from a separator, the replaced text is "-", then the words joined by "-" and a trailing "-" if any |
| Slug.JoinIsSlug | src/services/populateService.js:117-118 | words joined by "-" form a slug that starts and ends alphanumeric |
| Slug.TrimAround | src/services/populateService.js:118 | dropping one leading and one trailing "-" around such a join gives the join |
| Slug.GenerateIdIsJoinedWords | src/services/populateService.js:114-119 | `generateId` gives the lower-cased name's alphanumeric words joined by "-" |
| Slug.GenerateIdIsSlug | src/services/populateService.js:114-119 | `generateId` gives only `[a-z0-9-]`, never "--", and no "-" at either end |
| Slug.RunLenOfWord | src/services/populateService.js:117 | a word followed by a separator or nothing is the whole first run |
| Slug.WordsOfJoin | src/services/populateService.js:117 | the words of words joined by "-" are those words |
| Slug.GenerateIdIdempotent | src/services/populateService.js:114-119 | applying `generateId` to an id changes nothing |
| Slug.LowerConcat | src/services/populateService.js:116 | `toLowerCase` works character by character |
| Slug.CollapseWord | src/services/populateService.js:117 | a word is left unchanged by `replace` |
| Slug.FirstSectionLower | src/services/populateService.js:116 | "I. Two Pointer Patterns" lower-cases to "i. two pointer patterns" |
| Slug.CollapseAppend | src/services/populateService.js:117 | `replace` distributes over a concatenation whose seam touches an alphanumeric character |
| Slug.CollapseSeparator | src/services/populateService.js:117 | a separator run alone becomes "-" |
| Slug.CollapseInterleave | src/services/populateService.js:117 | words interleaved with separator runs collapse to the words joined by "-" |
| Slug.FirstSectionCollapse | src/services/populateService.js:117 | "i. two pointer patterns" becomes "i-two-pointer-patterns" |
| Slug.FirstSectionId | src/services/populateService.js:114-119 | the first section's id is "i-two-pointer-patterns", the registry's key for it |

## Left out

- Canvas drawing: coordinates, colours, fonts, the `atan2`/`cos`/`sin` arrow heads of `drawArrow` and `drawCurvedArrow`, tree-node positions and the edge drawing in `topologicalSort.js`. Only the state tags that decide what is drawn are modelled. The `./config` module holds colours only and is not part of this model.
- Real time: `setInterval`/`setTimeout` delays, the speed formula `1000 / value` (floating point), and the 50 ms restart in `handleSpeedChange` (`AnimationContainer.js:99-107`). Timers are abstract handles, and a tick is an explicit method call.
- The DOM: `initializeAnimationContainer` (`js/animations.js:33-88`), the canvas element and `createPopulateUI`. Whether the container element exists is the `hasElement` parameter of `LegacyPlayback.Controller.Start` and `Toggle`.
- The second `resetAnimation` in `AnimationContainer.js:76-89`. It redeclares a `const` and calls an undefined `setCurrentStep`, so the file as written does not compile. The model uses the `useCallback` version at lines 14-31.
- React semantics: state updates (`setIsPlaying`, `setDescription`) are treated as immediate; re-renders, stale closures and the unmount cleanup effect (`AnimationContainer.js:110-116`) are not modelled.
- The Firestore batch writers `populateDatabase` (service lines 5-54, script lines 4-53), authentication, storage and every other UI component, including `StatsContainer` (its percentage uses floating-point `Math.round`). All of these are remote I/O or foreign SDK calls.
- Console logging in the parser's error path.
- Catalogue.Parse: the only failure modelled is a `rawData` that is not a string (`split` throws, `null` is returned). It is given as `None`. No other line of the parser can throw.
- Catalogue.Run: the parser's objects are aliased (`currentSubPattern` is pushed into the current pattern and then mutated through the alias). This is modelled on values. The outline is a value; `Current` records whether the current sub-pattern is the last one of the last pattern (`Attached`), exists without a pattern (`Detached`, its problems are then lost), or is absent.
- Slug.LowerChar: `toLowerCase` is modelled on ASCII letters only. Other characters are left as they are, so Unicode case mapping (for example of accented capitals) is not modelled. White space for `trim` and `\s` is the full ECMAScript set (`Catalogue.IsWhiteSpace`), including U+00A0, U+1680, U+2000-U+200A, U+202F, U+205F, U+3000, U+FEFF and the line terminators.
- VariableWindow.Animate: requires an admissible input: a non-empty array of non-negative values and a positive target. The sample is proved admissible by `SampleAdmissible`. With a target of 0 or less, or a negative value, the shrink branch can move `start` past `end` and read past the array (`undefined`, then `NaN`). The model does not follow the source there.
- TopologicalSort.DfsKeeps: the invariant lemmas assume the graph has a rank function (no cycle), as the sample graph has (`GraphRanked`). On a cyclic graph the source's `dfs` still terminates through `visited`, but its stack is then not topological.
- ContainerPlayback.Controller.Tick: a leaked timer's ticks are not modelled. `Start` stores a new handle without clearing an older one, and its contract records the older handle staying in `live`. But `Tick` requires `Valid()`, which allows exactly the one stored live timer. So the callbacks of such a leaked interval (each incrementing the step again) are outside the model. In `LegacyPlayback` no timer leaks, because `startAnimation` always stops first.
- The running median is an exact `real` and is rendered as a whole number or a number plus ".5". JavaScript's floating-point formatting of other fractions never arises, because the median of integers is a multiple of one half.
- Sample-string lemmas state several descriptions as concatenations of literals ("Found solution: " + "4" + ...). Their meaning is the same as one literal.
