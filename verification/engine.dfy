/**
 * The state behind `useBoxSelection`: the anchor of the current drag, the
 * remembered selection, the registry of cells with their cached boxes, the
 * marquee overlay and the debounced registry rebuild, with the handlers the
 * hook attaches to the container and the document.
 */
module BoxSelection {
  import opened Wrappers
  import opened Geometry
  import opened Selection
  import opened Debounce

  /** Quiet period of the debounced rebuild after a container resize. */
  const ResizeWait: nat := 500

  /**
   * The marquee element; `box` is the geometry last written to its style,
   * `None` while it has just been created and not yet positioned.
   */
  datatype Overlay = Overlay(box: Option<Rect>)

  /** The `onChange` option as `mouseup` finds it: missing, returning, or throwing. */
  datatype Callback = Absent | Returns | Throws

  /** A cell's measured screen box moved into coordinates relative to `corner`. */
  function ToLocal(box: Rect, corner: Point): Rect {
    Rect(box.x - corner.x, box.y - corner.y, box.width, box.height)
  }

  /** The registry entries a rebuild writes: each cell's measured box, relative to `corner`. */
  function Measured<Item>(cells: seq<Item>, measure: Item -> Rect, corner: Point): map<Item, Rect> {
    map c | c in cells :: ToLocal(measure(c), corner)
  }

  lemma MeasuredSnoc<Item>(m: map<Item, Rect>, cells: seq<Item>, c: Item, measure: Item -> Rect, corner: Point)
    ensures (m + Measured(cells, measure, corner))[c := ToLocal(measure(c), corner)]
         == m + Measured(cells + [c], measure, corner)
  {
  }

  lemma MeasuredKeys<Item>(cells: seq<Item>, measure: Item -> Rect, corner: Point)
    ensures forall c :: c in cells ==> c in Measured(cells, measure, corner)
  {
  }

  /** A second rebuild from the same measurements leaves the registry as the first one left it. */
  lemma RebuildIdempotent<Item>(cellMap: map<Item, Rect>, cells: seq<Item>, measure: Item -> Rect, corner: Point)
    ensures (cellMap + Measured(cells, measure, corner)) + Measured(cells, measure, corner)
         == cellMap + Measured(cells, measure, corner)
  {
  }

  class Engine<Item(==)> {
    /** Top-left corner of the container, read once when the hook attaches. */
    const origin: Point
    /** The debounced `initialCellMap` wired to the container's resize observer. */
    const resize: Debouncer<()>

    var downPoint: Option<Point>
    var selections: seq<Item>
    var cellMap: map<Item, Rect>
    var cells: seq<Item>
    var mark: Option<Overlay>
    /** Every `onChange(selection, previous)` call made so far, oldest first. */
    ghost var notified: seq<(seq<Item>, seq<Item>)>

    /**
     * A drag is open exactly when an overlay exists; the cell Set has no
     * repeats and every cell has a cached box; the remembered selection has
     * no repeats.
     */
    ghost predicate Valid()
      reads this
    {
      (downPoint.None? <==> mark.None?) &&
      Distinct(cells) && (forall c :: c in cells ==> c in cellMap) &&
      Distinct(selections)
    }

    /** Attaching to a container whose top-left corner is `corner`. */
    constructor (corner: Point)
      ensures Valid() && fresh(resize)
      ensures origin == corner && resize.wait == ResizeWait && resize.timer == None
      ensures downPoint == None && selections == [] && cellMap == map[] && cells == []
      ensures mark == None && notified == []
    {
      origin := corner;
      resize := new Debouncer(ResizeWait);
      downPoint := None;
      selections := [];
      cellMap := map[];
      cells := [];
      mark := None;
      notified := [];
    }

    /**
     * `initialCellMap`: the cells the query `found` returns become the cell
     * Set, and each one's measured box, taken relative to the attach-time
     * corner, is written into the cache. Entries of earlier cells stay.
     */
    method Rebuild(found: seq<Item>, measure: Item -> Rect)
      requires Valid()
      modifies this
      ensures Valid()
      ensures cells == Dedup(found)
      ensures cellMap == old(cellMap) + Measured(cells, measure, origin)
      ensures downPoint == old(downPoint) && selections == old(selections)
      ensures mark == old(mark) && notified == old(notified)
    {
      var newCells := Dedup(found);
      var i := 0;
      while i < |newCells|
        modifies this`cellMap
        invariant 0 <= i <= |newCells|
        invariant cellMap == old(cellMap) + Measured(newCells[..i], measure, origin)
      {
        assert newCells[..i + 1] == newCells[..i] + [newCells[i]];
        MeasuredSnoc(old(cellMap), newCells[..i], newCells[i], measure, origin);
        cellMap := cellMap[newCells[i] := ToLocal(measure(newCells[i]), origin)];
        i := i + 1;
      }
      assert newCells[..i] == newCells;
      MeasuredKeys(newCells, measure, origin);
      cells := newCells;
    }

    /** The container reports a new size at time `now`: the debounced rebuild is (re)scheduled. */
    method Resized(now: int)
      modifies resize
      ensures resize.timer == Some(Timer(now + resize.wait, ()))
    {
      resize.Call(now, ());
    }

    /**
     * The clock reaches `now`. If the pending rebuild is due it runs, with
     * the cells and boxes the page holds at that moment.
     */
    method Elapse(now: int, found: seq<Item>, measure: Item -> Rect) returns (rebuilt: bool)
      requires Valid()
      modifies this, resize
      ensures Valid()
      ensures rebuilt <==> old(resize.timer).Some? && old(resize.timer).value.due <= now
      ensures resize.timer == if rebuilt then None else old(resize.timer)
      ensures rebuilt ==> cells == Dedup(found) && cellMap == old(cellMap) + Measured(cells, measure, origin)
      ensures !rebuilt ==> cells == old(cells) && cellMap == old(cellMap)
      ensures downPoint == old(downPoint) && selections == old(selections)
      ensures mark == old(mark) && notified == old(notified)
    {
      var run := resize.Elapse(now);
      rebuilt := run.Some?;
      if rebuilt {
        Rebuild(found, measure);
      }
    }

    /**
     * The `forEach` of `mouseup`: the cells, in Set order, whose cached box
     * meets `bound`.
     */
    method Collect(bound: Rect) returns (boundSelections: seq<Item>)
      requires Valid()
      ensures boundSelections == Hits(cells, cellMap, bound)
      ensures Distinct(boundSelections)
      ensures forall c :: c in boundSelections ==> c in cells && InBound(bound, Some(cellMap[c]))
      ensures forall c :: c in cells && InBound(bound, Some(cellMap[c])) ==> c in boundSelections
    {
      boundSelections := [];
      var i := 0;
      while i < |cells|
        invariant 0 <= i <= |cells|
        invariant boundSelections == Hits(cells[..i], cellMap, bound)
      {
        assert cells[..i + 1] == cells[..i] + [cells[i]];
        if InBound(bound, Lookup(cellMap, cells[i])) {
          boundSelections := boundSelections + [cells[i]];
        }
        i := i + 1;
      }
      assert cells[..i] == cells;
    }

    /**
     * `mousedown` on the container: any previous overlay is dropped, the
     * anchor is the event point relative to the container's current corner,
     * and a fresh, unpositioned overlay is installed.
     */
    method MouseDown(client: Point, corner: Point)
      requires Valid()
      modifies this
      ensures Valid()
      ensures downPoint == Some(FromEvent(client, corner)) && mark == Some(Overlay(None))
      ensures selections == old(selections) && cells == old(cells) && cellMap == old(cellMap)
      ensures notified == old(notified)
    {
      downPoint := Some(FromEvent(client, corner));
      mark := Some(Overlay(None));
    }

    /**
     * `mousemove` anywhere in the document: while a drag is open and its
     * overlay exists, the overlay is moved onto the clamped drag rectangle.
     */
    method MouseMove(client: Point, corner: Point, scrollWidth: nat, scrollHeight: nat)
      requires Valid()
      modifies this
      ensures Valid()
      ensures old(downPoint).Some? && old(mark).Some? ==>
        mark == Some(Overlay(Some(Span(Clamp(FromEvent(client, corner), scrollWidth, scrollHeight), old(downPoint).value))))
      ensures !(old(downPoint).Some? && old(mark).Some?) ==> mark == old(mark)
      ensures downPoint == old(downPoint)
      ensures selections == old(selections) && cells == old(cells) && cellMap == old(cellMap)
      ensures notified == old(notified)
    {
      if downPoint.Some? && mark.Some? {
        var bounds := GetBound(client, corner, scrollWidth, scrollHeight, downPoint.value);
        mark := Some(Overlay(Some(bounds)));
      }
    }

    /**
     * `mouseup` anywhere in the document. Without an open drag it does
     * nothing. Otherwise it collects the cells meeting the final drag
     * rectangle, and when `isSelectionChange` holds calls `onChange(new, old)`
     * and then remembers the new selection; finally it removes the overlay
     * and closes the drag. Nothing guards the callback: if it throws,
     * `threw` is set and the steps after the call do not happen.
     */
    method MouseUp(client: Point, corner: Point, scrollWidth: nat, scrollHeight: nat, onChange: Callback)
      returns (threw: bool)
      requires Valid()
      modifies this
      ensures Valid()
      ensures cells == old(cells) && cellMap == old(cellMap)
      ensures old(downPoint).None? ==>
        !threw && downPoint == old(downPoint) && mark == old(mark) &&
        selections == old(selections) && notified == old(notified)
      ensures old(downPoint).Some? ==>
        var bound := Span(Clamp(FromEvent(client, corner), scrollWidth, scrollHeight), old(downPoint).value);
        var hits := Hits(old(cells), old(cellMap), bound);
        var changed := IsSelectionChange(old(selections), hits);
        && threw == (changed && onChange == Throws)
        && notified == (if changed && onChange != Absent then old(notified) + [(hits, old(selections))] else old(notified))
        && selections == (if changed && !threw then hits else old(selections))
        && (threw ==> downPoint == old(downPoint) && mark == old(mark))
        && (!threw ==> downPoint == None && mark == None)
      ensures selections != old(selections) ==>
        IsSelectionChange(old(selections), selections) &&
        (onChange != Absent ==> notified == old(notified) + [(selections, old(selections))])
    {
      threw := false;
      if downPoint.Some? {
        var bounds := GetBound(client, corner, scrollWidth, scrollHeight, downPoint.value);
        var boundSelections := Collect(bounds);
        if IsSelectionChange(selections, boundSelections) {
          if onChange != Absent {
            notified := notified + [(boundSelections, selections)];
          }
          if onChange == Throws {
            threw := true;
            return;
          }
          selections := boundSelections;
        }
        if mark.Some? {
          mark := None;
        }
        downPoint := None;
      }
    }
  }

  /** Boxes of four cells laid out in a container whose corner is at the screen origin. */
  function Layout(c: int): Rect {
    if c == 1 then Rect(0.0, 0.0, 10.0, 10.0)
    else if c == 2 then Rect(20.0, 0.0, 10.0, 10.0)
    else if c == 3 then Rect(0.0, 20.0, 10.0, 10.0)
    else Rect(40.0, 40.0, 10.0, 10.0)
  }

  /** A single cell whose cached box `r` meets the bound is kept. */
  lemma CellKept<T>(c: T, cellMap: map<T, Rect>, bound: Rect, r: Rect)
    requires Lookup(cellMap, c) == Some(r) && InBound(bound, Some(r))
    ensures Hits([c], cellMap, bound) == [c]
  {
  }

  /** A single cell whose cached box `r` misses the bound is dropped. */
  lemma CellDropped<T>(c: T, cellMap: map<T, Rect>, bound: Rect, r: Rect)
    requires Lookup(cellMap, c) == Some(r) && !InBound(bound, Some(r))
    ensures Hits([c], cellMap, bound) == []
  {
  }

  /** The filter over the four cells, cell by cell. */
  lemma HitsOfFour<T>(a: T, b: T, c: T, d: T, cellMap: map<T, Rect>, bound: Rect)
    ensures Hits([a, b, c, d], cellMap, bound)
         == Hits([a], cellMap, bound) + Hits([b], cellMap, bound) + Hits([c], cellMap, bound) + Hits([d], cellMap, bound)
  {
    assert [a, b, c, d] == [a] + [b] + [c] + [d];
    HitsAppend([a] + [b] + [c], [d], cellMap, bound);
    HitsAppend([a] + [b], [c], cellMap, bound);
    HitsAppend([a], [b], cellMap, bound);
  }

  /** A registry holding the four cells of the scenario with their boxes. */
  predicate LaidOut<T>(m: map<T, Rect>, a: T, b: T, c: T, d: T) {
    Lookup(m, a) == Some(Layout(1)) && Lookup(m, b) == Some(Layout(2)) &&
    Lookup(m, c) == Some(Layout(3)) && Lookup(m, d) == Some(Layout(4))
  }

  /** A rebuild of the four cells, attached at the screen origin, caches each cell's own box. */
  lemma LayoutRegistry(m: map<int, Rect>)
    ensures LaidOut(m + Measured([1, 2, 3, 4], Layout, Point(0.0, 0.0)), 1, 2, 3, 4)
  {
    var r := m + Measured([1, 2, 3, 4], Layout, Point(0.0, 0.0));
    assert r[1] == ToLocal(Layout(1), Point(0.0, 0.0));
  }

  /** The drag from (5, 5) to (25, 25) meets the first three cells only. */
  lemma NearDragSelection<T>(m: map<T, Rect>, a: T, b: T, c: T, d: T)
    requires LaidOut(m, a, b, c, d)
    ensures Hits([a, b, c, d], m, Rect(5.0, 5.0, 20.0, 20.0)) == [a, b, c]
  {
    var near := Rect(5.0, 5.0, 20.0, 20.0);
    CellKept(a, m, near, Layout(1));
    CellKept(b, m, near, Layout(2));
    CellKept(c, m, near, Layout(3));
    CellDropped(d, m, near, Layout(4));
    HitsOfFour(a, b, c, d, m, near);
    assert [a] + [b] + [c] + [] == [a, b, c];
  }

  /** The drag from (100, 100) to (110, 110) meets no cell. */
  lemma FarDragSelection<T>(m: map<T, Rect>, a: T, b: T, c: T, d: T)
    requires LaidOut(m, a, b, c, d)
    ensures Hits([a, b, c, d], m, Rect(100.0, 100.0, 10.0, 10.0)) == []
  {
    var far := Rect(100.0, 100.0, 10.0, 10.0);
    CellDropped(a, m, far, Layout(1));
    CellDropped(b, m, far, Layout(2));
    CellDropped(c, m, far, Layout(3));
    CellDropped(d, m, far, Layout(4));
    HitsOfFour(a, b, c, d, m, far);
  }

  /** Attaching at the screen origin and rebuilding registers the four cells with their boxes. */
  method ScenarioAttach() returns (e: Engine<int>)
    ensures fresh(e) && e.Valid() && e.cells == [1, 2, 3, 4] && LaidOut(e.cellMap, 1, 2, 3, 4)
    ensures e.downPoint == None && e.selections == [] && e.notified == []
  {
    e := new Engine<int>(Point(0.0, 0.0));
    e.Rebuild([1, 2, 3, 4], Layout);
    assert e.cells == [1, 2, 3, 4] by { DedupOfDistinct([1, 2, 3, 4]); }
    LayoutRegistry(map[]);
  }

  /**
   * Two drags on an engine attached at the screen origin: the first, from
   * (5, 5) to (25, 25), changes the selection from nothing to `near`; the
   * second, from (100, 100) to (110, 110), changes it back to nothing.
   */
  method ScenarioDrags<T(==)>(e: Engine<T>, near: seq<T>)
    requires e.Valid() && e.downPoint == None && e.selections == [] && e.notified == []
    requires Hits(e.cells, e.cellMap, Rect(5.0, 5.0, 20.0, 20.0)) == near && |near| == 3
    requires Hits(e.cells, e.cellMap, Rect(100.0, 100.0, 10.0, 10.0)) == []
    modifies e
    ensures e.selections == [] && e.notified == [(near, []), ([], near)]
    ensures e.downPoint == None && e.cells == old(e.cells)
  {
    e.MouseDown(Point(5.0, 5.0), Point(0.0, 0.0));
    assert Span(Clamp(FromEvent(Point(25.0, 25.0), Point(0.0, 0.0)), 200, 200), Point(5.0, 5.0)) == Rect(5.0, 5.0, 20.0, 20.0);
    var threw := e.MouseUp(Point(25.0, 25.0), Point(0.0, 0.0), 200, 200, Returns);
    assert e.selections == near && e.notified == [(near, [])];

    e.MouseDown(Point(100.0, 100.0), Point(0.0, 0.0));
    assert Span(Clamp(FromEvent(Point(110.0, 110.0), Point(0.0, 0.0)), 200, 200), Point(100.0, 100.0)) == Rect(100.0, 100.0, 10.0, 10.0);
    threw := e.MouseUp(Point(110.0, 110.0), Point(0.0, 0.0), 200, 200, Returns);
  }

  /**
   * The drag scenario on four cells: the first drag selects and reports
   * the first three cells, the second drag deselects and reports them.
   */
  method Scenario() returns (e: Engine<int>)
    ensures e.cells == [1, 2, 3, 4] && e.downPoint == None && e.selections == []
    ensures e.notified == [([1, 2, 3], []), ([], [1, 2, 3])]
  {
    e := ScenarioAttach();
    NearDragSelection(e.cellMap, 1, 2, 3, 4);
    FarDragSelection(e.cellMap, 1, 2, 3, 4);
    ScenarioDrags(e, [1, 2, 3]);
  }
}
