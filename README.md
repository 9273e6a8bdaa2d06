# Verified model of a virtualised list

This project models, in Dafny, the core of a list-virtualisation library for
SolidJS. The library renders only the items of a long list that fall inside
the scrolled viewport, plus a buffer. It measures the rendered DOM nodes after
each frame and corrects the scroll position so that content above the
viewport does not jump. The model covers:

- `ArrayDiff` (array.ts): keyed reconciliation of two item arrays driven by a
  longest increasing subsequence, `compareArrays` and `compareArraysById`.
- `Layout` (layout.ts) and `Height` (height.ts): the two layout walkers that
  decide, item by item, which items are rendered, and how a measurement
  corrects the scroll position.
- `Measure` (measure.ts): the queue of rendered nodes waiting to be measured,
  and the margin-aware height measurement that flushes it.
- `Render` (render.ts): the cache of rendered items keyed by item id and reused
  between renders.
- `Scroll` (scroll.ts): the scroll tracker with its frame-coalescing flags,
  and the programmatic scroll adjustment.
- `VirtualList` (create-virtual.tsx): the component's state. It covers the
  render pass (`itemsMemo`), the measurement frame (`measure`), scroll
  adjustment, and the scroll-event and frame scheduling (`onScroll`,
  `scheduleMesure`).
- `Common`: sums over height sequences, the overlap test `shouldRender`, and
  an insertion-ordered map (`OMap`) standing for the JavaScript `Map`.

Heights and positions are integers (pixels). DOM reads such as
the height from `getBoundingClientRect()`, `scrollTop` and computed margins are parameters of the
operations that read them. A DOM node is modelled by the item it renders and
the height it reports.

## Model

| member | source | states |
|---|---|---|
| ArrayDiff.LongestIncreasingSubsequence | src/array.ts:70-110 | the result is an increasing subsequence of the input (as indices), no increasing subsequence is longer, and it is empty exactly when the input is empty |
| ArrayDiff.TailsStep | src/array.ts:78-99 | one iteration of the patience loop (push when larger than the last tail, binary search and replace otherwise) keeps the tails optimal and every tail linked through the predecessor array |
| ArrayDiff.Backtrack | src/array.ts:101-107 | following predecessors from the last tail yields an increasing subsequence as long as the tails |
| ArrayDiff.OptimalStep | src/array.ts:80-98 | after processing element i, each tail ends the increasing subsequence of its length with the smallest possible last value |
| ArrayDiff.PushKeeps | src/array.ts:80-83 | appending index i to the tails when its value exceeds the last tail keeps the tails invariant |
| ArrayDiff.ReplaceKeeps | src/array.ts:86-98 | replacing the first tail whose value exceeds arr[i] keeps the tails invariant |
| ArrayDiff.EqualKeeps | src/array.ts:86-98 | when arr[i] equals the value at the searched tail, nothing changes and the invariant still holds |
| ArrayDiff.IncreasingIsSorted | src/array.ts:70-110 | the indices of an increasing subsequence are strictly increasing |
| ArrayDiff.SortedSetSize | src/array.ts:42-44 | a strictly increasing index sequence has as many distinct members as elements, so the set built from the subsequence loses nothing |
| ArrayDiff.NewIndexMap | src/array.ts:20-21 | the map from new ids to their (last) position in the new array |
| ArrayDiff.IndexMap | src/array.ts:20-21 | every id of the new array maps to a position holding that id, and no later position holds it |
| ArrayDiff.SplitOld | src/array.ts:31-39 | old items split into removed ones (id absent from the new array) and survivors, in order, with each survivor's new position |
| ArrayDiff.KeepByIds | src/array.ts:31-39 | an item is kept exactly when its id's membership matches the requested side |
| ArrayDiff.KeepPartition | src/array.ts:31-39 | removed items and survivors together account for every old item |
| ArrayDiff.KeepDisjoint | src/array.ts:31-39 | when no id is shared, every old item is removed and none survives |
| ArrayDiff.CollectMoves | src/array.ts:47-54 | moves are the survivors outside the longest increasing subsequence, each with its new position |
| ArrayDiff.MovesOf | src/array.ts:47-54 | the moves are exactly the survivors outside the subsequence, each with its target position: every move is one, and every such survivor has one |
| ArrayDiff.MovesOfCount | src/array.ts:47-54 | moves plus kept positions equal the number of survivors |
| ArrayDiff.MovesCount | src/array.ts:42-54 | the number of moves is the number of survivors minus the subsequence length, and no increasing subsequence would give fewer moves |
| ArrayDiff.MovesTargets | src/array.ts:47-54 | every move moves an old item to a position of the new array that holds an item with the same id |
| ArrayDiff.CollectInserts | src/array.ts:57-62 | inserts are the new items whose id is absent from the old array, in new order |
| ArrayDiff.Reconcile | src/array.ts:16-65 | the patch removes exactly the vanished items, inserts exactly the new ones, keeps a longest increasing subsequence of survivors in place and moves the rest (a minimal number of moves) to positions that hold their id |
| ArrayDiff.DisjointPatch | src/array.ts:16-65 | reconciling arrays with no common id removes everything old, inserts everything new and moves nothing |
| ArrayDiff.NotInMembers | src/array.ts:151-159 | filtering one array by non-membership in the other keeps exactly the elements absent from the other |
| ArrayDiff.NotInConcat | src/array.ts:151-159 | the filter distributes over concatenation |
| ArrayDiff.CompareArrays | src/array.ts:151-159 | added holds exactly the new elements missing from the old array, removed exactly the old elements missing from the new one |
| ArrayDiff.CompareArraysExample | src/array.ts:139-149 | the documented example: comparing [1,2,3,4] with [3,4,5,6] gives added [5,6] and removed [1,2] |
| ArrayDiff.AddedExample | src/array.ts:139-149 | the added half of the documented example |
| ArrayDiff.RemovedExample | src/array.ts:139-149 | the removed half of the documented example |
| ArrayDiff.LastByKey | src/array.ts:170 | the map from key to item has exactly the keys of the array, each mapping to an item of the array with that key |
| ArrayDiff.KeepByKey | src/array.ts:171-173 | an item is kept exactly when its key's membership matches the requested side |
| ArrayDiff.ChangedIn | src/array.ts:175-186 | an item is changed exactly when the old array has an item with its key that differs from it |
| ArrayDiff.CompareArraysById | src/array.ts:168-199 | removed items have keys absent from the new array, added items keys absent from the old one, changed items differ from the old item with the same key, and every new item is added, changed or unchanged |
| Layout.Initial | src/layout.ts:13-20 | a fresh layout (nothing rendered, no delta) satisfies the layout invariant |
| Layout.WithRendered | src/layout.ts:121-137 | adding a rendered item keeps the invariant: the first rendered item is set once, the last one is the added item, its height is recorded |
| Layout.ProcessAllTotals | src/layout.ts:32-40 | processing a run of items adds their heights to the compounded height, advances the index by their count and leaves the scroll delta alone |
| Layout.RenderedContiguous | src/layout.ts:106-114 | with non-negative heights, an item between two rendered items is rendered too: the rendered items form one window |
| Layout.ProcessWindow | src/layout.ts:32-40 | when the items that pass the overlap test are those in [lo, hi), processing the list records exactly those items, in order, with their heights, and the first and last rendered items are lo and hi-1 |
| Layout.WindowStep | src/layout.ts:32-40 | one processed item extends that window fact by one |
| Layout.WindowGrows | src/layout.ts:121-137 | adding the next rendered item appends it to the recorded window |
| Layout.WindowFresh | src/layout.ts:121-137 | with distinct ids, the next item is not yet among the recorded heights |
| Layout.Heights | src/layout.ts:76 | the heights of the rendered items in insertion order |
| Layout.Adjusted | src/layout.ts:83-91 | each rendered height is increased by its measured delta, if it has one; the set of ids is unchanged |
| Layout.IndexOf | src/layout.ts:92-93 | the position of the first occurrence of an id, or the length when absent |
| Layout.IndexOfDistinct | src/layout.ts:92-93 | with distinct ids, the position of the i-th id is i |
| Layout.UpdatedHeights | src/layout.ts:72-99 | a measurement adds its delta to the height of every measured rendered item, leaves every other height and the rendered ids alone, and adds the compound delta to the compounded height |
| Layout.NothingAboveNoCorrection | src/layout.ts:83-87 | when the first rendered item starts at or below the viewport top, the measurement does not change the scroll delta |
| Layout.AllAboveFullCorrection | src/layout.ts:83-87 | when even the last rendered item starts above the viewport top, the scroll delta grows by the sum of all measured deltas |
| Layout.SingleMeasuredCorrection | src/layout.ts:76-95 | with one measured item, the correction is its delta exactly when that item starts above the viewport, and zero otherwise |
| Layout.ItemInViewportSomePosition | src/layout.ts:56-70 | an item is in the viewport exactly when some pixel of it is in the viewport (the isInViewport test) |
| Layout.PartlyAdjusted | src/layout.ts:76-91 | after visiting a prefix of the rendered ids, the heights map keeps its ids |
| Layout.PartlyAdjustedAt | src/layout.ts:83-91 | after visiting a prefix, exactly the visited measured items have been adjusted |
| Layout.PartlyAdjustedAll | src/layout.ts:76-91 | after visiting every rendered id, all measured items have been adjusted |
| Layout.Visit | src/layout.ts:77-95 | one loop iteration: adjusts the height and correction of a measured item, moves the last rendered item's top, and advances the position |
| Layout.WalkingWalked | src/layout.ts:76-96 | the step-by-step walk ends in the same heights, correction and last item as the closed-form definition |
| Layout.WalkingClosed | src/layout.ts:76-96 | after i steps the walk equals the closed form for the first i items |
| Layout.WalkLoop | src/layout.ts:76-96 | the loop over the rendered heights computes the full walk |
| Layout.LayoutData.constructor | src/layout.ts:27-30 | a new layout starts from the initial state with the given buffer size |
| Layout.LayoutData.Process | src/layout.ts:32-40 | returns whether the item overlaps the buffered viewport at the current compounded height, and moves to the next state accordingly |
| Layout.LayoutData.AddNonRendered | src/layout.ts:116-119 | adds the height and advances the index |
| Layout.LayoutData.AddRendered | src/layout.ts:121-137 | records the item as rendered at the current position |
| Layout.LayoutData.UpdateWithMeasurement | src/layout.ts:72-99 | applies a measurement as the walk defines it, and keeps the invariant |
| Layout.LayoutData.IsItemInViewport | src/layout.ts:56-70 | answers whether the rendered item overlaps the corrected viewport, and false for an item that is not rendered |
| LayoutScenarios.RendersNthHundred | specs/layout.spec.ts:19-23 | with twenty items of height 100, item k is rendered exactly when [100k, 100k+100) overlaps the buffered viewport |
| LayoutScenarios.FilledWindow | specs/layout.spec.ts:19-35 | filling twenty 100px items gives a compounded height of 2000 and a first and last rendered item at the window's edges |
| LayoutScenarios.WalkedBumped | src/layout.ts:76-96 | measuring one item of a uniform window corrects the scroll by its delta only when it starts above the viewport, and moves the last item's top by the delta when it lies before it |
| LayoutScenarios.MeasureOne | src/layout.ts:72-99 | the same for a whole layout filled with twenty 100px items |
| LayoutScenarios.MeasureRendered | src/layout.ts:72-99 | measuring one rendered item of a uniform layout shifts the scroll delta and the last item's top as above |
| LayoutScenarios.MeasureHeight | src/layout.ts:83-98 | measuring an item of height 100 by d gives it height 100 + d and adds d to the compounded height |
| LayoutScenarios.BaseChecking | specs/layout.spec.ts:27-52 | the first test: twenty 100px items at scroll 0 render items 0 to 4; measuring item 4 at -50 leaves the scroll delta at 0, its height 50, the total 1950, and pixels 400 and 499 in the viewport but not 500 |
| LayoutScenarios.AdjustedViewport | specs/layout.spec.ts:54-77 | the second test: at scroll 500 with buffer 100, measuring item 4 at -50 gives a delta of -50, scroll top 450, the viewport [450, 950), and last rendered item 10 at top 950 |
| LayoutScenarios.ContentOffset | specs/layout.spec.ts:79-123 | the third test: with a content offset of 100, measuring item 3 at -50 gives the same corrected viewport and last rendered item 9 at top 950 |
| Height.Initial | src/height.ts:7-18 | a fresh state has no rendered item and no first top |
| Height.WithRendered | src/height.ts:96-100 | adding a rendered item keeps the invariant |
| Height.ProcessStepFacts | src/height.ts:20-28 | one processed item adds its height; it is recorded with its height exactly when it overlaps the buffered viewport; the first top is set only by the first rendered item; nothing else changes |
| Height.PassRendered | src/height.ts:20-28 | after processing a list with distinct ids, the recorded ids are exactly the rendered ones, in order, each with its height |
| Height.PassStep | src/height.ts:20-28 | the previous fact carries over one more processed item |
| Height.PassStepState | src/height.ts:20-28 | the processing state after one more item matches the pass's closed form |
| Height.RenderedIdsFrom | src/height.ts:20-28 | every recorded id comes from the processed prefix |
| Height.FirstRendered | src/height.ts:97 | the index of the first rendered item in a prefix: every earlier item is not rendered |
| Height.PassFirstTop | src/height.ts:97 | after processing, the first top is the sum of the heights before the first rendered item, or -1 when nothing rendered |
| Height.FirstTopStep | src/height.ts:97 | that fact carries over one more processed item |
| Height.InViewportSomePosition | src/height.ts:38-52 | an item is in the viewport exactly when some pixel of it is |
| Height.LeadingAbove | src/height.ts:64-79 | the number of leading rendered items that start above the viewport, where the loop breaks |
| Height.Corrected | src/height.ts:54-80 | a measurement changes only the scroll delta: heights, total and first top are unchanged |
| Height.StopLosesNothing | src/height.ts:64-79 | with non-negative heights, stopping at the first item not above the viewport sums the same deltas as visiting every item and testing each one |
| Height.StopPrefix | src/height.ts:64-79 | the same for every prefix of the walk |
| Height.StopSkipsLaterItems | src/height.ts:76 | with a negative height, the break skips a later item that does start above the viewport: the two walks differ (7 against 0) |
| Height.RangesData.constructor | src/height.ts:14-18 | a new instance starts from the initial state with the given buffer and default height |
| Height.RangesData.Process | src/height.ts:20-28 | returns whether the item overlaps the buffered viewport and moves to the next state accordingly |
| Height.RangesData.AddNonRendered | src/height.ts:92-94 | adds the height to the total |
| Height.RangesData.AddRendered | src/height.ts:96-100 | sets the first top once, adds the height, records the item |
| Height.RangesData.IsInViewport | src/height.ts:38-52 | answers whether the rendered item overlaps the viewport, false when it is not rendered |
| Height.RangesData.UpdateWithMeasurement | src/height.ts:54-80 | adds to the scroll delta the deltas of the leading rendered items above the viewport, changing nothing else |
| Measure.Expected | src/measure.ts:42 | the expected height is the stored height, unless it is missing or zero, in which case it is the configured expected height |
| Measure.FirstMarginIndex | src/measure.ts:44-53 | the first queued element with a non-zero top margin: every element before it has none |
| Measure.DiscoverPrefix | src/measure.ts:44-53 | scanning a prefix of the queue for the margin gives the closed-form scan result |
| Measure.ScanStep | src/measure.ts:44-53 | the closed-form scan advances by one element as the loop body does |
| Measure.FlushPassKeys | src/measure.ts:41-60 | after the pass every queued model has a stored height and a delta |
| Measure.PassAtStep | src/measure.ts:41-60 | the pass over i items is the pass over i-1 items followed by one step |
| Measure.PassScan | src/measure.ts:44-53 | the margin state after i items is the closed-form scan |
| Measure.PassAtNext | src/measure.ts:55-58 | one step stores margin plus height and records actual minus expected as the delta |
| Measure.PassHeightsOthers | src/measure.ts:57 | heights of models not yet visited are unchanged |
| Measure.PassHeightsAt | src/measure.ts:55-57 | with distinct ids, a visited model's height is the margin in use at its turn plus its measured height |
| Measure.PassHeights | src/measure.ts:41-60 | with distinct ids, both facts above, for a whole prefix |
| Measure.PassDeltaKeys | src/measure.ts:58 | the deltas are recorded for exactly the visited models |
| Measure.PassDeltas | src/measure.ts:55-58 | with distinct ids, each visited model's delta is its actual height minus the height expected before the pass |
| Measure.PassInvalid | src/measure.ts:59 | visiting a model removes it from the invalid set and touches nothing else |
| Measure.PassCompound | src/measure.ts:56 | with distinct ids, the compound delta is the sum of the recorded deltas |
| Measure.DeltaSumFrame | src/measure.ts:56 | changing a delta outside the models leaves their sum unchanged |
| Measure.IndexOfNode | src/measure.ts:66-67 | the position of the element the patch loop stops at: all earlier elements are different nodes |
| Measure.IndexOfDistinctNode | src/measure.ts:67 | with distinct nodes, the stop position of the k-th element is k |
| Measure.PrefixIdsDistinct | src/measure.ts:66-73 | with distinct ids, the k-th id is among the first i exactly when k < i |
| Measure.PatchClosed | src/measure.ts:66-73 | with distinct ids, the patch loop adds the margin to exactly the ids queued before the first element with a margin, and leaves the keys alone |
| Measure.DeltaSumShift | src/measure.ts:66-73 | adding the margin to the first stop deltas raises their sum by stop times the margin |
| Measure.UsedMarginClosed | src/measure.ts:55 | the margin used for an item is zero for items before the first element with a margin when no margin was known, and the final margin otherwise |
| Measure.FlushShape | src/measure.ts:34-80 | a flush is the pass followed by the margin patch when the margin was first discovered in this flush, and the pass alone otherwise |
| Measure.FlushHeightAt | src/measure.ts:34-80 | with distinct ids and distinct elements, after a flush every queued model's height is the final margin plus its measured height |
| Measure.FlushHeightOther | src/measure.ts:34-80 | with distinct ids and distinct elements, heights of models that were not queued are unchanged |
| Measure.FlushHeights | src/measure.ts:34-80 | with distinct ids and distinct elements, both facts above, for the whole queue |
| Measure.FlushDeltaAt | src/measure.ts:34-80 | with distinct ids and distinct elements, every queued model's delta is final margin plus measured height minus the height expected before the flush |
| Measure.FlushDeltas | src/measure.ts:34-80 | with distinct ids and distinct elements, the deltas cover exactly the queued models, each as above |
| Measure.FlushInvalid | src/measure.ts:59-61 | queued models are no longer invalid, and the stored margin becomes the final margin |
| Measure.FlushCompound | src/measure.ts:56-73 | with distinct ids and distinct elements, the compound delta equals the sum of the reported deltas minus the margin added by the patch loop to each patched item: the patch is not reflected in the compound delta |
| Measure.StepIgnoresMargin | src/measure.ts:44 | once a margin is known, the margin read from an element does not affect a step |
| Measure.PassIgnoresMargins | src/measure.ts:44 | once a margin is known, a pass depends only on the measured heights |
| Measure.FlushIgnoresMargins | src/measure.ts:44-61 | once a margin is known, a flush depends only on the measured heights and keeps that margin |
| Measure.SharedIdFlush | src/measure.ts:30-61 | two queued model objects with one id: the id's delta reflects only the later entry, measured against the earlier one's height, while the compound counts both entries, so the compound differs from the sum of the reported deltas |
| Measure.ItemsMeasurer.constructor | src/measure.ts:24-32 | a new measurer has no heights, no invalid ids, an empty queue, no margin and no pending frame |
| Measure.ItemsMeasurer.Delete | src/measure.ts:99-102 | returns whether a height was stored; afterwards the id has no height, is not invalid and needs measuring; other ids are untouched |
| Measure.ItemsMeasurer.Invalidate | src/measure.ts:103-104 | the id needs measuring again while its old height stays readable |
| Measure.ItemsMeasurer.ScheduleMesure | src/measure.ts:82-89 | the element is queued under its model (replacing an earlier entry, keeping its place) and a frame is pending |
| Measure.ItemsMeasurer.Measure | src/measure.ts:34-80 | the frame callback performs a flush: heights, invalid set, margin and the reported measurement are those of the flush; the queue is empty and no frame is pending |
| Measure.ItemsMeasurer.MeasureEach | src/measure.ts:41-60 | the forEach loop computes the pass |
| Measure.ItemsMeasurer.MeasureOne | src/measure.ts:42-59 | the loop body computes one step |
| Measure.ItemsMeasurer.AddMarginBefore | src/measure.ts:66-73 | the patch loop adds the margin to the heights and deltas of the items before the first element with a margin |
| Render.RenderedItem.constructor | src/render.ts:89-95 | a new rendered item holds its model and element, shows that model and has not been disposed |
| Render.RenderedItem.Dispose | src/render.ts:74-97 | disposing the item's reactive root counts one disposal and changes nothing else |
| Render.Render.constructor | src/render.ts:15-25 | a new cache is alive and holds no items |
| Render.Render.Delete | src/render.ts:35-37 | returns whether the id was cached; afterwards it is not, other ids are untouched, the element list is unchanged |
| Render.Render.IsModelChanged | src/render.ts:39-44 | true exactly when an item is cached under the model's id and its model is a different object |
| Render.Render.UpdateModel | src/render.ts:46-48 | the cached item under the model's id shows the new model; other items are untouched and no item's disposal count changes; the cache entry's original model (and so IsModelChanged) is not affected |
| Render.Render.TakeItemFrom | src/render.ts:50-56 | moves the item cached under the id from the source to this cache and appends its element; with nothing cached in the source, nothing changes |
| Render.Render.RenderItem | src/render.ts:72-102 | creates a fresh undisposed item for the model, caches it under the model's id and appends its element |
| Render.Render.Dispose | src/render.ts:64-70 | disposes every cached item exactly once, leaves what each item shows as it was, and leaves the cache unusable |
| Scroll.StateOf | src/scroll.ts:49-53 | the direction is down exactly for a positive delta, up exactly for a negative one, idle exactly for zero |
| Scroll.AjustSwallowsNextScroll | src/scroll.ts:57-80 | the scroll event caused by an adjustment only clears the adjustment flag; the next event is handled normally |
| Scroll.ScrollEventsCoalesce | src/scroll.ts:57-63 | any number of scroll events schedule at most one frame while one is pending |
| Scroll.FrameReArms | src/scroll.ts:54-62 | after a frame has run, the next scroll event schedules a new frame |
| Scroll.HostElement.constructor | src/scroll.ts:31 | a host element holds the given scroll top, client height and offset top |
| Scroll.HostElement.ScrollTo | src/scroll.ts:79 | scrolling sets the scroll top and nothing else |
| Scroll.Tracker.constructor | src/scroll.ts:28-36 | the signals start at zero, the state is idle, no flag is set and no element is bound |
| Scroll.Tracker.SetRootElement | src/scroll.ts:38-41 | binds the scroll element and changes nothing else |
| Scroll.Tracker.MeasureContainer | src/scroll.ts:43-55 | reads scroll top, viewport height and content offset from the elements, sets the direction from the change in scroll top, and clears the ticking flag |
| Scroll.Tracker.OnScroll | src/scroll.ts:57-63 | a scroll event clears a pending adjustment flag, or else schedules a frame unless one is already ticking |
| Scroll.Tracker.RunFrame | src/scroll.ts:43-63 | running the scheduled frame consumes it and measures the container |
| Scroll.Tracker.AjustScroll | src/scroll.ts:77-80 | sets the adjustment flag and scrolls the element to the current scroll top plus the delta |
| Scroll.Tracker.SetContentElement | src/scroll.ts:84-87 | binds the content element and measures the container at once |
| Common.ShouldRenderOverlap | src/create-virtual.tsx:335-337 | for non-empty intervals, the strict comparison test holds exactly when some position lies in both the item and the buffered viewport |
| Common.OMap.Set | src/measure.ts:84 | setting a key gives it the value, leaves other keys alone, keeps an existing key in its place and appends a new key at the end, as a JavaScript Map does |
| Common.OMap.Delete | src/render.ts:35-37 | deleting a key removes it and only it, preserving the order of the others |
| VirtualList.ExpectedOr35 | src/create-virtual.tsx:126 | the expected item height is the given one unless it is missing or zero, in which case it is 35; it is never zero |
| VirtualList.TotalHeightUniform | src/create-virtual.tsx:253-313 | with a fixed item height, or before any measurement, the list's height is the number of models times that height |
| VirtualList.Positions | src/create-virtual.tsx:257-302 | the indices the loop renders, increasing, each one rendered exactly when its interval overlaps the buffered viewport |
| VirtualList.RenderedContiguous | src/create-virtual.tsx:257-302 | with non-negative heights the rendered indices are consecutive: one window |
| VirtualList.WindowStep | src/create-virtual.tsx:259-275 | one loop iteration adds the item's height to the running top, adds the index when rendered, and sets the wrapper top only at the first rendered item |
| VirtualList.WrapperTopFirst | src/create-virtual.tsx:255-314 | the wrapper top is the top of the first rendered item, or -1 when nothing is rendered |
| VirtualList.RenderedDistinct | src/create-virtual.tsx:279-300 | distinct models render to distinct cache keys |
| VirtualList.CachedItem.constructor | src/create-virtual.tsx:284-299 | a new cache entry holds its model and node and has not been disposed |
| VirtualList.CachedItem.Dispose | src/create-virtual.tsx:306 | disposing counts one disposal |
| VirtualList.DisposeAll | src/create-virtual.tsx:305-308 | every entry left in the old cache is disposed exactly once |
| VirtualList.DisposeLeftover | src/create-virtual.tsx:305-308 | of the old cache, entries of models not rendered again are disposed exactly once and the entries taken over not at all |
| VirtualList.NextRendered | src/create-virtual.tsx:262-271 | between two rendered items with non-negative heights, the item after the first is rendered too |
| VirtualList.SteadyCycle | src/create-virtual.tsx:279-300 | re-rendering exactly the cached models reuses every cache entry and queues nothing for measurement |
| VirtualList.SnocFacts | src/create-virtual.tsx:279-301 | rendering one more model reuses its entry exactly when it was cached and not rendered yet, and queues it exactly when it is new and unmeasured |
| VirtualList.RenderStep | src/create-virtual.tsx:276-301 | one rendered model extends the cycle facts: node list, new cache, leftover old cache and measurement queue |
| VirtualList.CycleStep | src/create-virtual.tsx:276-301 | the same for the whole cycle state, including the pending measurement frame; new entries are the only values not seen before |
| VirtualList.EntriesStep | src/create-virtual.tsx:279-300 | a rendered entry is either already in the new cache, taken from the old cache, or newly created |
| VirtualList.CycleStart | src/create-virtual.tsx:246-255 | an empty new cache and the whole old cache left over start the cycle |
| VirtualList.SteadyRecompute | src/create-virtual.tsx:244-318 | when the window renders exactly the cached models, the new cache equals the old one, every node is reused, no measurement is queued, and no old entry is left over to be disposed |
| VirtualList.PatchStop | src/create-virtual.tsx:171-177 | how many leading items the margin patch reaches |
| VirtualList.FlushedHeights | src/create-virtual.tsx:154-178 | one height per queued model after the measurement and the margin patch |
| VirtualList.FlushedClosed | src/create-virtual.tsx:154-178 | with distinct nodes, every queued model ends with its measured height plus the final margin |
| VirtualList.FlushedTotal | src/create-virtual.tsx:167-177 | the stored heights sum to the compounded measurement plus the margin added by the patch, so the scroll correction's compounded height leaves out the patched margin |
| VirtualList.PatchedSum | src/create-virtual.tsx:174-177 | patching the first n heights raises their sum by min(n, count) times the margin |
| VirtualList.StoresAt | src/create-virtual.tsx:168 | after storing a run of heights under distinct models, each model holds its height |
| VirtualList.StoresOther | src/create-virtual.tsx:168 | models outside the run keep their heights |
| VirtualList.StoresUpdate | src/create-virtual.tsx:176 | overwriting one stored height is storing the updated run |
| VirtualList.PatchStep | src/create-virtual.tsx:174-177 | one patch iteration extends the patched prefix by one |
| VirtualList.CorrectionIsTotalExcess | src/create-virtual.tsx:193-202 | the scroll correction equals the total excess of the measured heights over the expected height |
| VirtualList.VirtualList.constructor | src/create-virtual.tsx:121-146 | the component starts with empty caches, zero signals, an idle scroll state and no pending frame; expected height defaults to 35 and the buffer to 0 |
| VirtualList.VirtualList.ScheduleMesure | src/create-virtual.tsx:204-211 | a measurement frame is pending afterwards exactly when one was pending or the queue is non-empty; nothing else changes |
| VirtualList.VirtualList.Ref | src/create-virtual.tsx:291-296 | an element of an unmeasured model is queued and a frame is scheduled; a measured model changes nothing |
| VirtualList.VirtualList.TakeOrCreate | src/create-virtual.tsx:279-300 | a cached model's entry and node move from the old cache to the new one; an uncached model gets a fresh entry, and its element is queued for measurement when its height is unknown |
| VirtualList.VirtualList.RenderOne | src/create-virtual.tsx:276-301 | rendering one model extends the cycle facts and changes only the cache, queue and pending flag |
| VirtualList.VirtualList.PassStep | src/create-virtual.tsx:257-302 | one loop iteration keeps the loop invariant: running top, wrapper top, rendered indices and cycle facts |
| VirtualList.VirtualList.RenderPass | src/create-virtual.tsx:246-302 | the loop computes the total height, the wrapper top and the rendered nodes, reusing cached entries and queueing new unmeasured ones |
| VirtualList.VirtualList.ReplaceCache | src/create-virtual.tsx:246-314 | the render pass and the switch to the new cache: height, wrapper top and rendered nodes as above, and what is left of the old cache is exactly the entries of the models not rendered |
| VirtualList.VirtualList.Recompute | src/create-virtual.tsx:244-318 | the memo sets the height to the sum of item heights and the wrapper top to the first rendered item's top, renders exactly the overlapping models with reused or fresh nodes, disposes exactly the old entries that were not rendered, and leaves them out of the new cache |
| VirtualList.VirtualList.MeasureEach | src/create-virtual.tsx:154-169 | the forEach loop stores the margin-plus-height of each queued model and sums them |
| VirtualList.VirtualList.AddMarginBefore | src/create-virtual.tsx:174-177 | the patch loop adds the margin to the stored heights of the models queued before the first element with a margin |
| VirtualList.VirtualList.AjustAfterRenderingNonMeasuredItemsAbove | src/create-virtual.tsx:193-202 | scrolls to the current scroll top plus the measured excess over the expected heights and grows the list's height by the same amount; the element's client height and offset top stay |
| VirtualList.VirtualList.FlushQueue | src/create-virtual.tsx:148-181 | stores every queued model's final height and the final margin, empties the queue, clears the pending frame, and returns the queue size and the compounded measurement |
| VirtualList.VirtualList.MeasureFrame | src/create-virtual.tsx:148-184 | performs the flush, and when no item height is fixed, the last scroll went up and something was queued, shifts scroll top and height by the measured excess; otherwise scroll top and height stay; the scroll element's client height and offset top never change |
| VirtualList.VirtualList.SetScrollElem | src/create-virtual.tsx:214-217 | binds the scroll element and changes nothing else |
| VirtualList.VirtualList.MeasureContainer | src/create-virtual.tsx:223-233 | reads scroll top and viewport height from the element, sets the direction from the change in scroll top, clears the ticking flag |
| VirtualList.VirtualList.OnScroll | src/create-virtual.tsx:235-240 | a scroll event schedules a container measurement unless one is already ticking |
| VirtualList.VirtualList.RunScrollFrame | src/create-virtual.tsx:223-240 | the scheduled frame runs the container measurement and is consumed |

## Left out

- `onScrollEnd` in create-virtual.tsx is not part of this model.
- The DOM is not modelled. Element heights, computed top margins, `scrollTop`, `clientHeight` and `offsetTop` are inputs. In the render pass, the element that `getElement` would create for the item at index i is the i-th entry of an input sequence. Its `node` number stands for the JSX node's identity.
- Solid's reactivity is not modelled: signals are fields, the memo is a method run on demand, and `createRoot` and disposal are a counter on the cache entry.
- Animation frames and microtasks are reduced to pending flags and counters. A scheduled frame runs when its method is called. The microtask in `scheduleMesure` runs synchronously, which is equivalent here because nothing between it and its scheduling can empty the queue.
- `cancelAnimationFrame` in the cleanup callbacks and `addEventListener` are left out because they only release or register callbacks.
- Numbers are integers (pixels). NaN, fractional pixels and JavaScript's `||` on NaN are not modelled. A falsy `||` operand (zero or missing) is modelled with `Option` and an explicit zero test.
- `console.log` calls are left out.
- The application files under app/ are left out because they are callers, not core.
- `Render.markForDisposal` (render.ts:59-62) is deprecated and unused, and is left out.
- `triggerTrackableAsDependency` (render.ts:117-125) only serves Solid's dependency tracking and is left out.
- The one-line queries `isAboveViewport`, `isInViewport(pos)` and `isToRender` in layout.ts and height.ts, and `has`, `get` and `isRequiredMesure` in measure.ts and render.ts, are predicates and functions whose bodies are the comparisons themselves. They carry no contract of their own and appear in the contracts of the lemmas and methods above.
- `Render.Render.RenderItem`: does not model the effect at render.ts:78-87 that re-queues an element for measurement whenever the model's store changes. That needs Solid's reactive graph.
- `VirtualList.VirtualList.Recompute`: the old cache is a map without insertion order, so the order in which leftover entries are disposed is not modelled. That each one is disposed exactly once is modelled.
- `VirtualList.VirtualList.MeasureFrame`: the `WeakMap` of heights is a map keyed by model, so garbage collection of forgotten models is not modelled.
- `Scroll.HostElement.ScrollTo`: the browser's clamping of the scroll position to the scrollable range is not modelled. The requested position is taken as the new one.
- `Scroll.Tracker.MeasureContainer`, `Scroll.Tracker.RunFrame`, `Scroll.Tracker.AjustScroll`, `Scroll.Tracker.SetContentElement`, `VirtualList.VirtualList.MeasureContainer` and `VirtualList.VirtualList.AjustAfterRenderingNonMeasuredItemsAbove` require their elements to be bound. The source reads a property of an unbound variable there and throws a TypeError, so the model states this as a precondition and has no error path.
- `Measure.FlushDeltas`: assumes the queued models have distinct ids (and their elements distinct nodes). The queue is keyed by model object and the tables by id, so two objects sharing one id, such as an item replaced by a new object before the frame runs, can both be queued. The id's delta then reflects only the later entry; `Measure.SharedIdFlush` shows such a flush.
- `Measure.FlushCompound`: assumes the same distinctness. With two queued objects sharing one id, the compound counts every entry while the per-id delta holds only the later one, so the stated identity does not hold (`Measure.SharedIdFlush`).
- `Layout.LayoutData.UpdateWithMeasurement`: requires a first rendered item. The source dereferences `firstRenderedItem!` and throws when nothing was rendered.
- The specification tests call `isInVieport`, which layout.ts does not define. The scenario lemmas use `isInViewport`, at layout.ts:48-53, which they evidently mean.
