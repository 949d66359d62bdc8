/** How many cards can ever be placed: the rings stop growing, so the space around the home card is
    limited whatever the size of the canvas. */
module CanvasCapacity {
  import opened Wrappers
  import opened CanvasLayout
  import Counting

  const COLUMNS := 6
  const ROWS := 8
  const CAPACITY := 48

  /** All points lie in the square that the largest rings span. */
  ghost predicate Near(points: seq<Point>) {
    forall i :: 0 <= i < |points| ==>
      -MAX_RING_RADIUS <= points[i].x <= MAX_RING_RADIUS && -MAX_RING_RADIUS <= points[i].y <= MAX_RING_RADIUS
  }

  predicate Capped(radius: Point) {
    0.0 <= radius.x <= MAX_RING_RADIUS && 0.0 <= radius.y <= MAX_RING_RADIUS
  }

  // ---- Every layout stays near the home card -----------------------------------------

  lemma RingPointsAreNear(trig: Trig, count: nat, radius: Point, phase: real)
    requires IsTrig(trig) && Capped(radius)
    ensures Near(RingPoints(trig, count, radius, phase))
  {
    hide Angle;
    var points := RingPoints(trig, count, radius, phase);
    forall i | 0 <= i < |points|
      ensures -radius.x <= points[i].x <= radius.x && -radius.y <= points[i].y <= radius.y
    {
      var angle := Angle(trig, count, i, phase);
      ScaledWithin(trig.cos(angle), radius.x, points[i].x);
      ScaledWithin(trig.sin(angle), radius.y, points[i].y);
    }
  }

  lemma {:induction false} FirstFitIsNear(trig: Trig, count: nat, bounds: Rect, occupied: seq<Rect>, radius: Point,
                                          phases: seq<real>)
    requires IsTrig(trig) && Capped(radius)
    ensures
      var r := FirstFit(trig, count, bounds, occupied, radius, phases);
      r.Some? ==> Near(r.value)
  {
    hide IsTrig, Capped, Near, RingPoints, Fits;
    if phases != [] {
      RingPointsAreNear(trig, count, radius, phases[0]);
      FirstFitIsNear(trig, count, bounds, occupied, radius, phases[1..]);
    }
  }

  lemma RingIsNear(trig: Trig, count: nat, bounds: Rect, occupied: seq<Rect>, radius: Point, shift: real)
    requires IsTrig(trig) && Capped(radius)
    ensures
      var r := Ring(trig, count, bounds, occupied, radius, shift);
      r.Some? ==> Near(r.value)
  {
    hide IsTrig, Capped, Near, FirstFit, Phases;
    FirstFitIsNear(trig, count, bounds, occupied, radius, Phases(trig, count, shift));
  }

  lemma {:induction false} FirstSplitIsNear(trig: Trig, count: nat, bounds: Rect, occupied: seq<Rect>, outer: Point,
                                            inner: Point, most: int)
    requires most <= count
    requires IsTrig(trig) && Capped(outer) && Capped(inner)
    ensures
      var r := FirstSplit(trig, count, bounds, occupied, outer, inner, most);
      r.Some? ==> Near(r.value)
    decreases most
  {
    hide IsTrig, Capped, Ring, InnerShift, Near;
    if most >= 1 {
      RingIsNear(trig, most, bounds, occupied, outer, 0.0);
      var p := Ring(trig, most, bounds, occupied, outer, 0.0);
      if p.Some? {
        var shift := InnerShift(trig, count - most);
        RingIsNear(trig, count - most, bounds, occupied + Cards(p.value), inner, shift);
        var q := Ring(trig, count - most, bounds, occupied + Cards(p.value), inner, shift);
        if q.Some? { TogetherAreNear(p.value, q.value); }
      }
      FirstSplitIsNear(trig, count, bounds, occupied, outer, inner, most - 1);
    }
  }

  lemma TogetherAreNear(p: seq<Point>, q: seq<Point>)
    requires Near(p) && Near(q)
    ensures Near(p + q)
  {
  }

  lemma OuterFirstIsNear(trig: Trig, count: nat, bounds: Rect, occupied: seq<Rect>, first: Point, max: Point)
    requires IsTrig(trig) && Capped(max) && 0.0 <= first.x <= max.x && 0.0 <= first.y <= max.y
    ensures
      var r := OuterFirst(trig, count, bounds, occupied, first, max);
      r.Some? ==> Near(r.value)
  {
    hide IsTrig, Capped, Ring, FirstSplit, InnerShift, Near, OuterRadius, InnerRadius;
    var outer := OuterRadius(first, max);
    var inner := InnerRadius(first, outer);
    RadiiAreCapped(first, max);
    RingIsNear(trig, count, bounds, occupied, outer, 0.0);
    FirstSplitIsNear(trig, count, bounds, occupied, outer, inner, count - 1);
    RingIsNear(trig, count, bounds, occupied, inner, InnerShift(trig, count));
  }

  lemma RadiiAreCapped(first: Point, max: Point)
    requires Capped(max) && 0.0 <= first.x <= max.x && 0.0 <= first.y <= max.y
    ensures Capped(OuterRadius(first, max)) && Capped(InnerRadius(first, OuterRadius(first, max)))
  {
  }

  lemma SizesAreCapped(size: Size)
    ensures Capped(PlannedRadius(size)) && Capped(RoundRadius(size))
    ensures 0.0 <= InnermostRadius(size).x <= PlannedRadius(size).x &&
            0.0 <= InnermostRadius(size).y <= PlannedRadius(size).y
  {
  }

  lemma LayoutIsNear(trig: Trig, count: int, size: Size)
    requires IsTrig(trig)
    ensures
      var r := Layout(trig, count, size);
      r.Some? ==> Near(r.value)
  {
    hide IsTrig, Capped, Ring, OuterFirst, BoundsOf, Home, InnermostRadius, PlannedRadius, RoundRadius;
    if count > 0 {
      SizesAreCapped(size);
      OuterFirstIsNear(trig, count, BoundsOf(size), [Home()], InnermostRadius(size), PlannedRadius(size));
      RingIsNear(trig, count, BoundsOf(size), [Home()], RoundRadius(size), 0.0);
    }
  }

  // ---- One card per cell -------------------------------------------------------------

  /** The position of a coordinate among cells of the given width. */
  function Cell(v: real, width: real): int
    requires width > 0.0
  {
    ((v + MAX_RING_RADIUS) / width).Floor
  }

  lemma SameCellIsClose(a: real, b: real, width: real)
    requires width > 0.0 && Cell(a, width) == Cell(b, width)
    ensures -width < a - b < width
  {
    QuotientsAreClose(a + MAX_RING_RADIUS, b + MAX_RING_RADIUS, width);
  }

  lemma QuotientsAreClose(u: real, v: real, width: real)
    requires width > 0.0 && -1.0 < u / width - v / width < 1.0
    ensures -width < u - v < width
  {
    var d := u / width - v / width;
    assert d == (u - v) / width;
    Undivided(u - v, width, d);
    ScaledClose(d, width, u - v);
  }

  lemma Undivided(v: real, width: real, p: real)
    requires width > 0.0 && p == v / width
    ensures p * width == v
  {
  }

  lemma ScaledClose(d: real, width: real, v: real)
    requires -1.0 < d < 1.0 && width > 0.0 && d * width == v
    ensures -width < v < width
  {
    assert (1.0 - d) * width > 0.0;
    assert (1.0 + d) * width > 0.0;
  }

  /** A cell as wide and high as a padded card: two cards in it overlap. */
  function CellOf(p: Point): (int, int) {
    (Cell(p.x, DEVICE_WIDTH + GAP), Cell(p.y, DEVICE_HEIGHT + GAP))
  }

  lemma SameCellOverlaps(p: Point, q: Point)
    requires CellOf(p) == CellOf(q)
    ensures Overlap(Card(p), Card(q))
  {
    SameCellIsClose(p.x, q.x, DEVICE_WIDTH + GAP);
    SameCellIsClose(p.y, q.y, DEVICE_HEIGHT + GAP);
  }

  lemma CellInGrid(p: Point)
    requires -MAX_RING_RADIUS <= p.x <= MAX_RING_RADIUS && -MAX_RING_RADIUS <= p.y <= MAX_RING_RADIUS
    ensures 0 <= CellOf(p).0 < COLUMNS && 0 <= CellOf(p).1 < ROWS
  {
    CellBounds(p.x, 206.0);
    CellBounds(p.y, 138.0);
  }

  lemma CellBounds(v: real, width: real)
    requires -MAX_RING_RADIUS <= v <= MAX_RING_RADIUS && (width == 206.0 || width == 138.0)
    ensures 0 <= Cell(v, width) && Cell(v, 206.0) < COLUMNS && Cell(v, 138.0) < ROWS
  {
  }

  function Number(p: Point): int {
    CellOf(p).0 * ROWS + CellOf(p).1
  }

  /** At most 48 cards can lie apart in the square of the largest rings. */
  lemma ApartAreFew(points: seq<Point>)
    requires Near(points) && Apart(points)
    ensures |points| <= CAPACITY
  {
    hide CellOf, Overlap, Card;
    var numbers := seq(|points|, i requires 0 <= i < |points| => Number(points[i]));
    forall i | 0 <= i < |points| ensures 0 <= numbers[i] < CAPACITY {
      CellInGrid(points[i]);
    }
    forall i, j | 0 <= i < j < |points| ensures numbers[i] != numbers[j] {
      CellInGrid(points[i]);
      CellInGrid(points[j]);
      if numbers[i] == numbers[j] {
        assert CellOf(points[i]) == CellOf(points[j]);
        SameCellOverlaps(points[i], points[j]);
      }
    }
    Counting.DistinctBelow(numbers, CAPACITY);
  }

  /** More than 48 cards have no layout on any canvas, however large. */
  lemma LayoutHasCapacity(trig: Trig, count: int, size: Size)
    requires IsTrig(trig) && count > CAPACITY
    ensures Layout(trig, count, size).None?
  {
    hide Layout, IsTrig, Near, Card, Overlap, Within, BoundsOf, Home;
    LayoutIsPacking(trig, count, size);
    LayoutIsNear(trig, count, size);
    var r := Layout(trig, count, size);
    if r.Some? {
      ApartAreFew(r.value);
    }
  }
}
