# Box selection engine, modelled in Dafny

This project models the drag-box ("marquee") selection engine of the
`useBoxSelection` React hook. The user presses the pointer inside a
container and drags. On release, every registered cell whose cached box
meets the drag rectangle becomes the new selection. `onChange(new, old)`
is called only when the selection really changed.

The model has five modules:

- `Wrappers` (wrappers.dfy): `Option`, standing in for `null` and `undefined`.
- `Geometry` (geometry.dfy): `Point` and `Rect` values and `Point.formEvent`
  (`FromEvent`). It also holds the clamping and spanning steps of
  `getBound`, `GetBound` itself (a method that updates its locals step by
  step, as the source does) and `isInBound` (`InBound`).
- `Selection` (selection.dfy): `isSelectionChange` (`IsSelectionChange`),
  the cell Set built from a query result (`Dedup`: insertion order, no
  repeats) and the filter `mouseup` runs over the cells (`Hits`).
- `Debounce` (debounce.dfy): `debounce` as a `Debouncer` class. It holds
  one pending-run slot over a logical clock supplied by the caller.
  `Replay` describes a sequence of calls as a function. `Feed` delivers
  such a sequence to a `Debouncer` object and is proved to agree with
  `Replay`, so the burst lemmas about `Replay` hold for the class.
- `BoxSelection` (engine.dfy): the hook's `Status` record as the `Engine`
  class. Its fields are `downPoint`, `selections`, `cellMap`, `cells` and
  `mark`, plus a ghost log of `onChange` calls. The attach-time container
  corner `origin` is a constant, and so is the debounced rebuild `resize`
  (wait 500). The methods are `Rebuild` (`initialCellMap`), `Resized` and
  `Elapse` (resize signal and timer), `MouseDown`, `MouseMove` and `MouseUp`.
  `Valid()` holds three facts. A drag is open exactly when an overlay
  exists. The cells have no repeats and each has a cached box. The
  remembered selection has no repeats.

Inputs from the browser are parameters:

- A pointer event is its client point plus the container's current
  top-left corner, which `formEvent` reads on every event.
- `scrollWidth` and `scrollHeight` are `nat` values.
- A rebuild receives the query result (`found`) and a measuring function
  (`measure`).
- The `onChange` option is a `Callback`: absent, returning, or throwing.

Coordinates are `real`. The code only compares, adds, subtracts, takes
minima and takes absolute values.

Four behaviours of the code are easy to miss. The model follows the code:

- The container corner used by every rebuild is read once, at attach
  (src/useBoxSelection.ts:89), not at the start of each rebuild. A rebuild
  that runs after the page has scrolled stores boxes shifted by the scroll
  distance. Boxes cached before the scroll stay container-local, and so do
  event points, which read the corner on every event.
- `mouseup` has no `try`/`finally` (src/useBoxSelection.ts:101-121). If
  `onChange` throws, the drag stays open, the overlay stays and the
  selection is not updated. `MouseUp` returns `threw` for that case.
- `isSelectionChange` reports a change when a list with a repeated item is
  compared with itself (`RepeatedItemAlwaysChanged`), so "same items in any
  order" holds only for lists without repeats. Selections are drawn from
  the cell Set, so in the model they never repeat. `Valid()` keeps this,
  and the set-equality lemmas use it.
- The cache is never cleared. A rebuild overwrites the entries of the
  cells it finds, and entries of cells that have gone stay behind. They
  are never looked up, because only current cells are tested.

## Model

| member | source | states |
|---|---|---|
| `Geometry.FromEvent` | src/useBoxSelection.ts:22-25 | The result plus the container's corner gives back the client point: the event is expressed relative to the container's top-left corner. |
| `Geometry.ClampAxis` | src/useBoxSelection.ts:49-58 | The clamped coordinate lies in `[0, limit]`, and no point of that interval is nearer to the input coordinate. |
| `Geometry.Span` | src/useBoxSelection.ts:60-63 | The rectangle has non-negative width and height, and the two points are its opposite corners on each axis. |
| `Geometry.GetBound` | src/useBoxSelection.ts:45-65 | The rectangle is spanned by the clamped event point and the unclamped anchor. Its sizes are non-negative. When the anchor is inside the content area, the whole rectangle is too. |
| `Geometry.InBound` | src/useBoxSelection.ts:66-77 | An item without a cached box is never in the bound. |
| `Geometry.InBoundIffCommonPoint` | src/useBoxSelection.ts:66-77 | For rectangles with non-negative sizes, the test holds exactly when they share a point, edges included. |
| `Geometry.InBoundSymmetric` | src/useBoxSelection.ts:66-77 | For all rectangles, swapping the drag rectangle and the item box gives the same answer. |
| `Geometry.InBoundReflexive` | src/useBoxSelection.ts:66-77 | A rectangle with non-negative sizes meets itself. |
| `Geometry.TouchingEdgeSelected` | src/useBoxSelection.ts:72-75 | Two boxes with non-negative sizes that share part of an edge meet, in either role. This covers a shared vertical edge with overlapping vertical extents and a shared horizontal edge with overlapping horizontal extents. |
| `Geometry.ZeroMovementDrag` | src/useBoxSelection.ts:60-77 | Press and release at the same in-range point `p` give the zero-size rectangle at `p`. It selects exactly the boxes whose closed extent contains `p`. |
| `Selection.IsSelectionChange` | src/useBoxSelection.ts:78-80 | Lists of different lengths always count as a change. |
| `Selection.SelectionChangeIffSameItems` | src/useBoxSelection.ts:78-80 | For lists without repeats, no change is reported exactly when both hold the same items, in any order. |
| `Selection.PermutationUnchanged` | src/useBoxSelection.ts:78-80 | A list without repeats compared with any permutation of itself reports no change. |
| `Selection.RepeatedItemAlwaysChanged` | src/useBoxSelection.ts:79 | A list with a repeated item reports a change even when compared with itself. |
| `Selection.ElemsCard` | src/useBoxSelection.ts:79 | A list has at most as many distinct items as entries, and exactly as many when it has no repeats. |
| `Selection.Dedup` | src/useBoxSelection.ts:91 | The cell Set has no repeats and holds exactly the items of the query result. |
| `Selection.DedupOfDistinct` | src/useBoxSelection.ts:91 | A query result without repeats becomes the cell Set unchanged, in the same order. |
| `Selection.Hits` | src/useBoxSelection.ts:104-110 | The collected list holds exactly the cells whose cached box meets the bound. It is no longer than the cells and has no repeats when the cells have none. |
| `Selection.HitsAppend` | src/useBoxSelection.ts:106-110 | The filter keeps order: filtering two lists joined end to end gives the two filtered lists joined end to end. |
| `Debounce.Debouncer.constructor` | src/useBoxSelection.ts:36-37 | A fresh debouncer has the given wait and nothing pending. |
| `Debounce.Debouncer.Call` | src/useBoxSelection.ts:38-43 | A call replaces whatever was pending with one run, due `wait` later, carrying this call's arguments. |
| `Debounce.Debouncer.Elapse` | src/useBoxSelection.ts:42 | When the clock reaches the pending run's due time, that run fires with its arguments and the slot empties. Otherwise nothing fires and the slot is kept. |
| `Debounce.Feed` | src/useBoxSelection.ts:36-44 | Delivering calls to a debouncer object, letting the clock reach each call's time first, leaves the slot and the fired runs that `Replay` gives. When the slot starts empty and the calls form a burst, nothing fires and the last call's run is pending. |
| `Debounce.BurstLeavesOnePending` | src/useBoxSelection.ts:36-44 | During a burst of calls, each arriving before the previous one is due, nothing runs. Exactly one run is left pending, for the last call's time and arguments. |
| `Debounce.BurstRunsOnce` | src/useBoxSelection.ts:36-44 | After a burst, exactly one run fires, with the last call's arguments, once the quiet period after the last call has passed. Before that, none fires. |
| `BoxSelection.RebuildIdempotent` | src/useBoxSelection.ts:90-97 | Rebuilding twice from the same measurements leaves the same cache as rebuilding once. |
| `BoxSelection.Engine.constructor` | src/useBoxSelection.ts:83-99 | Attach records the container corner once and creates a 500-unit debounced rebuild with nothing pending. The engine starts idle, with no overlay, no cells, no selection and no notifications. |
| `BoxSelection.Engine.Rebuild` | src/useBoxSelection.ts:90-97 | The cells become the Set of the query result. Each gets its measured box, taken relative to the attach-time corner. Other cache entries, the drag, the overlay and the selection are unchanged. |
| `BoxSelection.Engine.Resized` | src/useBoxSelection.ts:98 | A resize signal reschedules the rebuild one wait period after the signal. |
| `BoxSelection.Engine.Elapse` | src/useBoxSelection.ts:98 | A rebuild runs exactly when the pending one is due. It then uses the cells and boxes measured at that moment. Otherwise the registry is untouched. Drag state and selection never change. |
| `BoxSelection.Engine.Collect` | src/useBoxSelection.ts:104-110 | The loop collects, in cell order, exactly the cells whose cached box meets the bound, without repeats. |
| `BoxSelection.Engine.MouseDown` | src/useBoxSelection.ts:133-147 | The anchor becomes the event point relative to the container's current corner, and a fresh, unpositioned overlay replaces any old one. Selection, cells and cache are unchanged. |
| `BoxSelection.Engine.MouseMove` | src/useBoxSelection.ts:123-132 | The overlay is moved onto the clamped drag rectangle only while both the anchor and the overlay exist. The anchor, selection, cells and cache never change. |
| `BoxSelection.Engine.MouseUp` | src/useBoxSelection.ts:101-122 | When idle, nothing changes and nothing is notified. When dragging, it collects the cells that meet the final rectangle. If `isSelectionChange` holds, it calls `onChange(new, old)` and remembers the new list; otherwise the selection stays. The drag and overlay are then cleared, unless the callback threw. The selection changes only together with a notification. |
| `BoxSelection.NearDragSelection` | src/useBoxSelection.ts:104-110 | With cells at (0,0,10,10), (20,0,10,10), (0,20,10,10) and (40,40,10,10), the rectangle (5,5,20,20) selects the first three. |
| `BoxSelection.FarDragSelection` | src/useBoxSelection.ts:104-110 | With the same cells, the rectangle (100,100,10,10) selects none. |
| `BoxSelection.ScenarioAttach` | src/useBoxSelection.ts:83-97 | Attaching at the screen origin and rebuilding registers the four cells, in order, with their boxes. |
| `BoxSelection.Scenario` | src/useBoxSelection.ts:83-147 | Attaching at the origin, rebuilding with the four cells and making the two drags leaves the engine idle with an empty selection. Its notification log is exactly (first three cells, nothing) and then (nothing, those cells). |
| `BoxSelection.ScenarioDrags` | src/useBoxSelection.ts:101-147 | Dragging from (5,5) to (25,25) notifies (three cells, nothing). Dragging from (100,100) to (110,110) then notifies (nothing, those cells). The selection ends empty. |

## Left out

- React glue is not modelled: `useRef`, the `useEffect` dependencies that
  re-attach the hook, `changeFunc` being refreshed on each render, and the
  returned `{ ref, cellClassName }`. The current `onChange` is instead a
  parameter of `MouseUp`.
- DOM and browser calls are not modelled. These are `getBoundingClientRect`,
  `querySelectorAll`, `ResizeObserver`, adding and removing listeners,
  creating, appending and removing the overlay element, its style strings
  and `removeAllRanges`. Measurements, query results and event points are
  parameters. The overlay is an `Option<Overlay>` that records the rectangle
  last written to its style.
- The ResizeObserver's first notification after `observe` comes from the
  browser. The model has no rebuild until `Resized` and a due `Elapse`.
- Real timers (`setTimeout` and `clearTimeout`) are not modelled. The
  caller supplies a logical clock.
- The source keeps a stale timer id after the run fires. The model empties
  the slot instead, because clearing a timer that has already fired does
  nothing.
- BoxSelection.Engine.MouseUp: the callback is assumed not to mutate the
  arrays it receives and not to re-enter the handlers. The source passes
  the collected array to `onChange` and then stores that same array as the
  selection (src/useBoxSelection.ts:112-113). A callback that pushes into
  or splices it changes the remembered selection and can put repeats into
  it. A callback that dispatches a `mouseup` runs the handler again before
  the first call finishes.
- `WeakMap` garbage collection is not modelled. The cache is a plain `map`.
- Teardown (src/useBoxSelection.ts:152-156) is not modelled. It disconnects
  the observer and removes two document listeners. It does not remove the
  `mousedown` listener, cancel a pending rebuild or remove a live overlay.
- JavaScript number behaviour (floating point, NaN) is not modelled.
  Coordinates are exact reals.
