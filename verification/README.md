# dynamic-list windowing core, in Dafny

This project models the two stateful parts of `DynamicList`, a React list that mounts only the rows near the viewport of a scrollable container.

- **The visibility tracker** (`src/useObserver.ts`, module `Visibility`, class `Visibility.Tracker`):
  - It keeps the contiguous range `{min, max}` of child positions that the IntersectionObserver reports near the viewport.
  - The range starts as `{+∞, -∞}`, and then the tracker answers every query with "visible".
  - `isVisible(start, end)` gives the caller's `checkVisibility` answer verbatim when there is one.
  - Otherwise it is true iff `start <= max + 1 && end >= min - 1`.
  - A query exactly one leaf group (`branch`) wide also registers the existing children in `[start, end)` for observation.
  - An observation batch records each entry's visibility per element, or unobserves it if the element is disconnected or the container is absent.
  - The batch then copies the known visibilities into a persistent table indexed by child position.
  - Children not seen yet are queued for a deferred registration tick.
  - Finally the batch folds `min`/`max` over the marked positions and replaces the state only if it changed.
- **The pagination controller** (`src/DynamicList.tsx`, module `Pagination`, class `Pagination.Controller`):
  - The root partition size is `branch^(branch-1)`, an `Ext` so that `branch = 0` gives `Math.pow(0, -1) = Infinity`.
  - The tree length is `length + (done ? 0 : pageSize)`, and the empty placeholder shows iff `done && length == 0`.
  - The pagination effect reruns when the rows' identity or `visibility.max` changes. Each run cleans up the previous run's `valid` flag and recomputes `done = !load?.hasMore()`.
  - A run starts a load only if `!done && !loadingMore && max + 1 >= length`. It sets the single-flight guard `loadingMore` first.
  - Settling, on success or failure, releases the guard. A failure is stored in `err` only while the starting run's `valid` flag is still set.
  - The visibility effect forwards `(min, max)` to `onVisibilityChange` only for a finite `min`.
  - A render throws once a truthy error is stored, and then no effect runs.

Infinities are modelled by `Extended.Ext = NegInf | Fin(n) | PosInf`, with JavaScript's `+`, `<`, `Math.min` and `Math.max` on them.

Single flight is stated twice.
- `Controller.Commit` ensures that no load starts while `loadingMore` was set.
- The class invariant `Controller.Valid` states that at most one load is outstanding, that `loadingMore` is set exactly while one is, and that only the latest effect run can still be valid.
- A new load is appended to the outstanding ones, so the invariant holds only because the guard is checked.

Asynchronous events are explicit method calls:
- `Tracker.OnBatch`: an observation batch arrives;
- `Tracker.Tick`: the deferred `setTimeout` runs;
- `Controller.LoadSucceeded` and `Controller.LoadFailed`: the outstanding load settles;
- `Controller.Unmount`: the component unmounts;
- `Controller.Commit`: one render together with the effects it triggers (`PaginationEffect`, then `VisibilityEffect`).

`VisibilityScenario` and `PaginationScenario` are client modules.
- They drive the classes through one run: ten rows, pages of 5, fan-out 3, and a cooperator that runs out of data after one load.
- They prove that the contracts are strong enough to derive the expected observations.

Where the behaviour described for the library and its code disagree, the model follows the code:
- A detached element is only unobserved. Its entry in the per-element visibility map is never removed.
- The pagination effect reruns on a change of the rows' identity or of `visibility.max`, not on the rows alone.
- A rejection carrying a falsy value (`undefined`, `null`, `0`, `""`) is stored but does not make the render throw.
- Without IntersectionObserver, the code of `isVisible` does not degrade quietly to "always visible": it throws. `Visibility.LeafGroupAsWritten` models that throw as written. `Visibility.Tracker.IsVisible` models the intended degradation, where nothing is registered and every query is visible (see Findings).

## Model

| member | source | states |
|---|---|---|
| Extended.Plus | src/useObserver.ts:54 | definition of `e + k` on the extended line; its properties are stated by `Extended.PlusShift`, `Visibility.NearViewport` and `Pagination.ShouldLoad` |
| Extended.PlusShift | src/useObserver.ts:54 | shifting by `k` is undone by shifting by `-k`, and it preserves `<` in both directions, so `max + 1` and `min - 1` compare as the integer bounds do |
| Extended.Min | src/useObserver.ts:32 | `Math.min` returns one of its arguments and is no greater than either |
| Extended.Max | src/useObserver.ts:33 | `Math.max` returns one of its arguments and is no less than either |
| Visibility.NearViewport | src/useObserver.ts:54 | before any observation (`min = +∞`) every range is visible; for a finite range, visible iff `start <= max+1` and `end >= min-1` |
| Visibility.NearViewportExample | src/useObserver.ts:54 | with `{3, 7}`, `isVisible(2, 8)` is true and `isVisible(10, 12)` is false |
| Visibility.NearViewportMonotone | src/useObserver.ts:54 | a range containing a visible range is visible too |
| Visibility.VisibleRange | src/useObserver.ts:21-35 | the folded range is `{+∞, -∞}` iff no position below the child count is marked; otherwise `0 <= min <= max < childCount`, both ends are marked, and every marked position lies between them |
| Visibility.FoldRange | src/useObserver.ts:30-35 | the `min`/`max` loop over the children computes exactly `VisibleRange` |
| Visibility.RecordAll | src/useObserver.ts:12-18 | the entries of a batch are applied in delivery order; a batch only unobserves (never registers) and never removes an element from the visibility map |
| Visibility.RecordAllLast | src/useObserver.ts:17 | with the container present, an element's recorded visibility is the `intersecting` flag of its last connected entry |
| Visibility.RecordAllEffect | src/useObserver.ts:12-18 | after a batch an element is still observed iff it was and none of its entries was dropped (disconnected, or container absent); it has a recorded visibility iff it had one or one of its entries was connected with the container present; without such an entry its recorded value is unchanged |
| Visibility.RecordAllWithoutContainer | src/useObserver.ts:14-16 | with the container absent a batch records nothing and unobserves exactly its targets |
| Visibility.CopyKnown | src/useObserver.ts:23-29 | the index table after the copy keeps every slot it had, and gains slots only at positions of existing children |
| Visibility.CopyKnownAt | src/useObserver.ts:23-29 | slot `i` of the index table is overwritten with the element's visibility exactly when the child at position `i` has been seen; every other slot keeps its previous value |
| Visibility.Unseen | src/useObserver.ts:22-29 | the queue is no longer than the child list and holds no element already in the visibility map |
| Visibility.UnseenDistinct | src/useObserver.ts:22-29 | when each child is listed once, each is queued at most once |
| Visibility.UnseenMembers | src/useObserver.ts:22-29 | an element is queued exactly when it is a child of the container that has not been seen |
| Visibility.CopyKnownChildren | src/useObserver.ts:23-29 | the children loop produces the copied index table and the queue of unseen children |
| Visibility.ChildrenInMembers | src/useObserver.ts:49-52 | an element is registered by the loop over `[lo, hi)` iff it is an existing child at some position in that range |
| Visibility.ChildrenInWithin | src/useObserver.ts:49-52 | the loop registers only children of the container |
| Visibility.ChildrenInSize | src/useObserver.ts:49-52 | the loop registers at most `hi - lo` elements |
| Visibility.LeafGroup | src/useObserver.ts:48-53 | registration is empty unless the container is attached and `end - start == branch`; it holds only children of the container, never more than `branch` |
| Visibility.LeafGroupAsWritten | src/useObserver.ts:48-53 | as written: with no observer, a leaf-group query that reaches an existing child throws; otherwise it registers the leaf group |
| Visibility.LeafGroupAsWrittenThrows | src/useObserver.ts:48-53 | a leaf-group query over three attached children without IntersectionObserver throws a TypeError |
| Visibility.Tracker.constructor | src/useObserver.ts:4-10 | the state starts as `{+∞, -∞}` with empty visibility map, index table, observed set and queue |
| Visibility.Tracker.IsVisible | src/useObserver.ts:41-55 | an override's answer is returned verbatim and registers nothing; otherwise the answer is `NearViewport`. Registration adds exactly the leaf group and never removes anything. Without an observer the answer is always true and nothing is registered |
| Visibility.Tracker.Register | src/useObserver.ts:49-52 | for a tracker with an observer, the registration loop adds exactly the existing children at positions in `[start, end)` to the observed set and keeps the tracker valid |
| Visibility.Tracker.OnBatch | src/useObserver.ts:11-37 | entries are recorded or unobserved in order. With the container absent nothing else changes. Otherwise the table is copied by position, unseen children are queued (not registered), and the range becomes `VisibleRange` over the children, replaced only when it differs |
| Visibility.Tracker.RecordEntries | src/useObserver.ts:12-18 | for a tracker with an observer, the entries loop applies each entry in delivery order and keeps the tracker valid |
| Visibility.Tracker.Tick | src/useObserver.ts:36 | the deferred tick registers every queued element and empties the queue |
| Pagination.RootSize | src/DynamicList.tsx:26 | `Math.pow(branch, branch - 1)`: infinite exactly for branch 0, never `-∞`, and 1 for branch 1 |
| Pagination.RootSizeBounds | src/DynamicList.tsx:26 | beyond branch 1 the root size `branch^(branch-1)` is at least `branch`, one full group of leaves |
| Pagination.RootSizeExamples | src/DynamicList.tsx:26 | the default fan-out 5 gives 625 slots and fan-out 3 gives 9 |
| Pagination.DoneFrom | src/DynamicList.tsx:38 | definition of `!load?.hasMore()`; its use is stated by `Pagination.Controller.constructor` and `Pagination.Controller.PaginationEffect` |
| Pagination.RenderedLength | src/DynamicList.tsx:63 | definition of `(done ? 0 : pageSize) + length`: never below the row count, and above it only while not done; further properties are stated by `Pagination.FrontierTriggersLoad`, `Pagination.EmptyStateExclusive` and `Pagination.Controller.Commit` |
| Pagination.ShowEmpty | src/DynamicList.tsx:71 | definition of `done && length === 0`; its properties are stated by `Pagination.EmptyStateExclusive` and `Pagination.Controller.Commit` |
| Pagination.EmptyStateExclusive | src/DynamicList.tsx:63-71 | while the empty placeholder shows, the tree has no slot and no load can start. When done with rows, the tree has slots |
| Pagination.ShouldLoad | src/DynamicList.tsx:41 | a load starts only when not done and not already loading. With `max = -∞` none starts. With a finite `max` one starts iff `max + 1 >= length` |
| Pagination.FrontierTriggersLoad | src/DynamicList.tsx:41 | while more may come and nothing is loading, a visible maximum from the last known row through the loading slots starts a load |
| Pagination.Notification | src/DynamicList.tsx:50-54 | definition of the guarded `onVisibilityChange(min, max)` call; its properties are stated by `Pagination.NotificationFinite` and `Pagination.Controller.VisibilityEffect` |
| Pagination.NotificationFinite | src/DynamicList.tsx:50-54 | for a tracker range a notification carries a finite, ordered pair `0 <= min <= max`, and none is made before the first observation |
| Pagination.CleanedUp | src/DynamicList.tsx:47 | a cleanup turns off the latest effect run's `valid` flag and leaves the earlier ones |
| Pagination.Controller.constructor | src/DynamicList.tsx:28-32 | mounting starts with `done = !load?.hasMore()`, no load in flight, no error and no effect run |
| Pagination.Controller.Commit | src/DynamicList.tsx:34-71 | a stored truthy error fails the render, and only the new row count is recorded. Otherwise the view carries the root size, tree length and empty flag. The pagination effect reruns iff the deps changed. A load fires iff the guard admits it, never while one is outstanding. The notification goes out iff the visibility changed, a listener exists and `min` is finite |
| Pagination.Controller.PaginationEffect | src/DynamicList.tsx:37-48 | the effect reruns iff the rows or `max` changed; a rerun cleans up the previous run, recomputes `done` and opens a new valid run; a load fires iff the guard admits it, never while one is outstanding, and it becomes the one outstanding load |
| Pagination.Controller.VisibilityEffect | src/DynamicList.tsx:50-54 | the effect runs iff the visibility changed, and notifies a listening cooperator with exactly `Notification` of the new range |
| Pagination.Controller.LoadSucceeded | src/DynamicList.tsx:43-45 | a resolved load releases the guard and changes nothing else |
| Pagination.Controller.LoadFailed | src/DynamicList.tsx:44-45 | a rejected load releases the guard and stores its reason only if the starting effect run is still valid |
| Pagination.Controller.Unmount | src/DynamicList.tsx:47 | unmounting invalidates the latest effect run, so an outstanding failure is later ignored |

## Left out

- `TreeNode` (imported at `src/DynamicList.tsx:3`) is not part of this model. The window tree's splitting and leaf rules are absent; the controller only hands it the root size, fan-out, length and `isVisible`.
- React's scheduling (`useState`, `useEffect`, `useMemo`, `useRef`, `useCallback`) is replaced by explicit calls. `Commit` is a render plus its effects, and a state update's re-render is the next `Commit`.
- Effect dependencies are compared by value. For the rows this uses an identity number passed in. For the visibility object it is exact, because the tracker replaces the object only when `{min, max}` changes.
- `Visibility.Tracker.IsVisible` reads the current range, not the copy `visibilityRef` holds from the last render. The lag of one render is not modelled.
- The IntersectionObserver itself is replaced by inputs: the `padding`/`rootMargin` geometry, the `threshold` values and intersection computation. A batch is a sequence of `(target, connected, intersecting)` entries, and the container is an optional sequence of element handles.
- Each batch schedules its own `setTimeout`. The model merges these queues into one queue drained by `Tracker.Tick`.
- The observer is not recreated when `padding` or `checkVisibility` change. The tracker's configuration is fixed at construction.
- The defaults `DEFAULT_PAGE = 20` and `DEFAULT_BRANCH = 5` (`src/DynamicList.tsx:7-8`, `:24`) are not modelled: the controller takes `branch` and `pageSize` as given. They are fixed at construction, so a change of these props between renders is not modelled either; in the source `rootSize` is recomputed when `branch` changes and `pageSize` is read on every render.
- `WeakMap` garbage collection: the per-element map is never pruned, as in the source.
- Promise machinery is replaced by the events `LoadSucceeded` and `LoadFailed`. A `loadMore()` that throws synchronously is rejected by the `new Promise` wrapper, so it is the `LoadFailed` event.
- `Seq.Indexed` and the row values themselves: the controller sees only the rows' identity and count.
- JSX rendering of the rows, `loading`, `empty` and `dummy` nodes is left out. The render result is the `View` it hands on.
- Floating point: `branch` and `pageSize` are natural numbers, so negative or fractional values and `Math.pow` on them are not modelled. `Pagination.RootSize` is an exact power, whereas `Math.pow` gives a double that stops being exact once the result passes 2^53 (already at branch 15, since 15^14 > 2^53), so for such branches the model's root size differs from the source's. `DEFAULT_PAD` only feeds the observer geometry, so it is not modelled either.

## Findings

| source | as written | input that shows it | evidently intended | confidence | as-written member | corrected member |
|---|---|---|---|---|---|---|
| src/useObserver.ts:48-53 | with no `checkVisibility` and no IntersectionObserver on the platform, `observer` is `undefined`, yet `isVisible` still calls `observer.observe(child)` for the existing children of a leaf-group query, which throws a TypeError | no IntersectionObserver, container children `[7, 8, 9]`, `branch = 3`, `isVisible(0, 3)` | without an observer nothing is registered and the tracker degrades to "always visible" | medium, not executed | Visibility.LeafGroupAsWritten | Visibility.Tracker.IsVisible |
