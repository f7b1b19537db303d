/**
 * Points and rectangles in container-local coordinates, the drag rectangle
 * built from the anchor and the (clamped) pointer, and the inclusive
 * rectangle-overlap test used to decide which items a drag selects.
 */
module Geometry {
  import opened Wrappers

  /** A position; `x` grows to the right and `y` downwards. */
  datatype Point = Point(x: real, y: real)

  /** An axis-aligned box: top-left corner (`x`, `y`) and its extent. */
  datatype Rect = Rect(x: real, y: real, width: real, height: real)

  function Min(a: real, b: real): real { if a <= b then a else b }

  function Abs(a: real): real { if a < 0.0 then -a else a }

  /** Distance between two coordinates on one axis. */
  function Dist(a: real, b: real): real { Abs(a - b) }

  /** Both extents are non-negative, as every measured box and every drag rectangle is. */
  predicate Proper(r: Rect) { r.width >= 0.0 && r.height >= 0.0 }

  /** The closed extent of `r` contains `p` (edges included). */
  predicate Covers(r: Rect, p: Point) {
    r.x <= p.x <= r.x + r.width && r.y <= p.y <= r.y + r.height
  }

  /** `r` lies within the container's scrollable content area. */
  predicate Inside(r: Rect, scrollWidth: nat, scrollHeight: nat) {
    0.0 <= r.x && r.x + r.width <= scrollWidth as real &&
    0.0 <= r.y && r.y + r.height <= scrollHeight as real
  }

  /**
   * `Point.formEvent`: the pointer's client position expressed relative to
   * the container's current top-left corner `corner`.
   */
  function FromEvent(client: Point, corner: Point): (p: Point)
    ensures p.x + corner.x == client.x && p.y + corner.y == client.y
  {
    Point(client.x - corner.x, client.y - corner.y)
  }

  /**
   * One axis of the clamping in `getBound`: the coordinate moved to the
   * nearest point of `[0, limit]`.
   */
  function ClampAxis(v: real, limit: nat): (c: real)
    ensures 0.0 <= c <= limit as real
    ensures forall u :: 0.0 <= u <= limit as real ==> Dist(c, v) <= Dist(u, v)
  {
    if v < 0.0 then 0.0 else if v > limit as real then limit as real else v
  }

  /** The pointer clamped into `[0, scrollWidth] x [0, scrollHeight]`. */
  function Clamp(p: Point, scrollWidth: nat, scrollHeight: nat): Point {
    Point(ClampAxis(p.x, scrollWidth), ClampAxis(p.y, scrollHeight))
  }

  /** The rectangle that has `a` and `b` as opposite corners. */
  function Span(a: Point, b: Point): (r: Rect)
    ensures Proper(r)
    ensures (r.x == a.x && r.x + r.width == b.x) || (r.x == b.x && r.x + r.width == a.x)
    ensures (r.y == a.y && r.y + r.height == b.y) || (r.y == b.y && r.y + r.height == a.y)
  {
    Rect(Min(a.x, b.x), Min(a.y, b.y), Abs(a.x - b.x), Abs(a.y - b.y))
  }

  /**
   * `getBound`: translate the event into container coordinates, clamp it
   * field by field into the content area, then fill in the rectangle it
   * spans with the anchor `start`. The anchor itself is not clamped.
   */
  method GetBound(client: Point, corner: Point, scrollWidth: nat, scrollHeight: nat, start: Point)
    returns (bounds: Rect)
    ensures bounds == Span(Clamp(FromEvent(client, corner), scrollWidth, scrollHeight), start)
    ensures Proper(bounds)
    ensures 0.0 <= start.x <= scrollWidth as real && 0.0 <= start.y <= scrollHeight as real
      ==> Inside(bounds, scrollWidth, scrollHeight)
  {
    bounds := Rect(0.0, 0.0, 0.0, 0.0);
    var mousePoint := FromEvent(client, corner);
    if mousePoint.x < 0.0 {
      mousePoint := mousePoint.(x := 0.0);
    } else if mousePoint.x > scrollWidth as real {
      mousePoint := mousePoint.(x := scrollWidth as real);
    }
    if mousePoint.y < 0.0 {
      mousePoint := mousePoint.(y := 0.0);
    } else if mousePoint.y > scrollHeight as real {
      mousePoint := mousePoint.(y := scrollHeight as real);
    }
    bounds := bounds.(x := Min(mousePoint.x, start.x));
    bounds := bounds.(y := Min(mousePoint.y, start.y));
    bounds := bounds.(width := Abs(mousePoint.x - start.x));
    bounds := bounds.(height := Abs(mousePoint.y - start.y));
  }

  /**
   * `isInBound`: does the item box `rect` meet the drag rectangle `bound`?
   * An absent box never does; boxes that only touch count as meeting.
   */
  function InBound(bound: Rect, rect: Option<Rect>): (hit: bool)
    ensures rect.None? ==> !hit
  {
    if rect.None? then false
    else
      var r := rect.value;
      var left := bound.x;
      var right := bound.x + bound.width;
      var top := bound.y;
      var bottom := bound.y + bound.height;
      if r.x > right then false
      else if r.y > bottom then false
      else if r.x + r.width < left then false
      else if r.y + r.height < top then false
      else true
  }

  /** Two proper rectangles meet in the sense of `InBound` exactly when they share a point. */
  lemma InBoundIffCommonPoint(bound: Rect, r: Rect)
    requires Proper(bound) && Proper(r)
    ensures InBound(bound, Some(r)) <==> exists p :: Covers(bound, p) && Covers(r, p)
  {
    if InBound(bound, Some(r)) {
      var w := Point(if bound.x <= r.x then r.x else bound.x, if bound.y <= r.y then r.y else bound.y);
      assert Covers(bound, w) && Covers(r, w);
    }
  }

  /** The test does not depend on which rectangle is the drag rectangle. */
  lemma InBoundSymmetric(a: Rect, b: Rect)
    ensures InBound(a, Some(b)) == InBound(b, Some(a))
  {
  }

  /** A proper rectangle meets itself. */
  lemma InBoundReflexive(a: Rect)
    requires Proper(a)
    ensures InBound(a, Some(a))
  {
  }

  /**
   * Boxes that share only part of an edge are selected, in either role: a
   * vertical edge (`b` starts where `a` ends horizontally and their vertical
   * extents overlap) or a horizontal one (the same with the axes swapped).
   */
  lemma TouchingEdgeSelected(a: Rect, b: Rect)
    requires Proper(a) && Proper(b)
    requires (a.x + a.width == b.x && b.y <= a.y + a.height && a.y <= b.y + b.height)
          || (a.y + a.height == b.y && b.x <= a.x + a.width && a.x <= b.x + b.width)
    ensures InBound(a, Some(b)) && InBound(b, Some(a))
  {
  }

  /**
   * A press and release at the same in-range point `p`: the drag rectangle
   * has zero area at `p` and selects exactly the boxes whose closed extent
   * contains `p`.
   */
  lemma ZeroMovementDrag(p: Point, scrollWidth: nat, scrollHeight: nat, r: Rect)
    requires 0.0 <= p.x <= scrollWidth as real && 0.0 <= p.y <= scrollHeight as real
    ensures Span(Clamp(p, scrollWidth, scrollHeight), p) == Rect(p.x, p.y, 0.0, 0.0)
    ensures InBound(Span(Clamp(p, scrollWidth, scrollHeight), p), Some(r)) <==> Covers(r, p)
  {
    assert Clamp(p, scrollWidth, scrollHeight) == p;
  }
}
