/**
  Placing device cards on one or two rings around the home card, and the search for a workspace
  large enough to place them. Coordinates are exact reals; sine, cosine and pi are parameters.
*/
module CanvasLayout {
  import opened Wrappers

  const DEVICE_WIDTH := 180.0
  const DEVICE_HEIGHT := 112.0
  const HOME_WIDTH := 220.0
  const HOME_HEIGHT := 200.0
  const PADDING := 36.0
  const GAP := 26.0
  const MAX_RING_RADIUS := 540.0
  const SEARCH_STEP := 20

  datatype Point = Point(x: real, y: real)
  datatype Size = Size(width: real, height: real)
  datatype Rect = Rect(left: real, right: real, top: real, bottom: real)
  datatype Trig = Trig(pi: real, cos: real -> real, sin: real -> real)

  function Max(a: real, b: real): real { if a < b then b else a }

  function Min(a: real, b: real): real { if b < a then b else a }

  function Clamp(value: real, low: real, high: real): real { Min(high, Max(low, value)) }

  function RectFromCenter(p: Point, width: real, height: real, gap: real): Rect {
    Rect(p.x - width / 2.0 - gap / 2.0, p.x + width / 2.0 + gap / 2.0, p.y - height / 2.0 - gap / 2.0,
         p.y + height / 2.0 + gap / 2.0)
  }

  predicate Overlap(a: Rect, b: Rect) {
    a.left < b.right && a.right > b.left && a.top < b.bottom && a.bottom > b.top
  }

  predicate Within(r: Rect, bounds: Rect) {
    r.left >= bounds.left && r.right <= bounds.right && r.top >= bounds.top && r.bottom <= bounds.bottom
  }

  /** The rectangle of a device card, padded by the layout gap. */
  function Card(p: Point): Rect { RectFromCenter(p, DEVICE_WIDTH, DEVICE_HEIGHT, GAP) }

  function Cards(points: seq<Point>): (cards: seq<Rect>)
    ensures |cards| == |points| && forall i :: 0 <= i < |points| ==> cards[i] == Card(points[i])
  {
    seq(|points|, i requires 0 <= i < |points| => Card(points[i]))
  }

  function Home(): Rect { RectFromCenter(Point(0.0, 0.0), HOME_WIDTH, HOME_HEIGHT, GAP) }

  function BoundsOf(size: Size): Rect {
    Rect(-size.width / 2.0 + PADDING, size.width / 2.0 - PADDING, -size.height / 2.0 + PADDING,
         size.height / 2.0 - PADDING)
  }

  // ---- What a placement must satisfy -------------------------------------------------

  ghost predicate InBounds(points: seq<Point>, bounds: Rect) {
    forall i :: 0 <= i < |points| ==> Within(Card(points[i]), bounds)
  }

  ghost predicate Avoids(points: seq<Point>, occupied: seq<Rect>) {
    forall i, k :: 0 <= i < |points| && 0 <= k < |occupied| ==> !Overlap(Card(points[i]), occupied[k])
  }

  ghost predicate Apart(points: seq<Point>) {
    forall i, j :: 0 <= i < |points| && 0 <= j < |points| && i != j ==> !Overlap(Card(points[i]), Card(points[j]))
  }

  /** Cards at these points are in bounds, clear of what is occupied and clear of each other. */
  ghost predicate Fits(points: seq<Point>, bounds: Rect, occupied: seq<Rect>) {
    InBounds(points, bounds) && Avoids(points, occupied) && Apart(points)
  }

  predicate Clear(rect: Rect, taken: seq<Rect>) {
    forall k :: 0 <= k < |taken| ==> !Overlap(rect, taken[k])
  }

  /** Points fit one by one, or as two groups when the second avoids the cards of the first. */
  lemma FitsTogether(p: seq<Point>, q: seq<Point>, bounds: Rect, occupied: seq<Rect>)
    ensures Fits(p + q, bounds, occupied) <==> Fits(p, bounds, occupied) && Fits(q, bounds, occupied + Cards(p))
  {
    hide Card, Within;
    OverlapIsSymmetric();
    FitsTogetherSplit(p, q, bounds, occupied);
    if Fits(p, bounds, occupied) && Fits(q, bounds, occupied + Cards(p)) {
      FitsTogetherJoin(p, q, bounds, occupied);
    }
  }

  lemma FitsTogetherJoin(p: seq<Point>, q: seq<Point>, bounds: Rect, occupied: seq<Rect>)
    requires Fits(p, bounds, occupied) && Fits(q, bounds, occupied + Cards(p))
    ensures Fits(p + q, bounds, occupied)
  {
    hide Card, Within, Overlap;
    OverlapIsSymmetric();
    var taken := occupied + Cards(p);
    assert forall k :: 0 <= k < |occupied| ==> taken[k] == occupied[k];
    assert forall k :: 0 <= k < |p| ==> taken[|occupied| + k] == Card(p[k]);
  }

  lemma FitsTogetherSplit(p: seq<Point>, q: seq<Point>, bounds: Rect, occupied: seq<Rect>)
    ensures Fits(p + q, bounds, occupied) ==> Fits(p, bounds, occupied) && Fits(q, bounds, occupied + Cards(p))
  {
    hide Card, Within, Overlap;
    var both := p + q;
    if Fits(both, bounds, occupied) {
      assert forall i :: 0 <= i < |p| ==> both[i] == p[i];
      assert forall i :: 0 <= i < |q| ==> both[|p| + i] == q[i];
    }
  }

  lemma OverlapIsSymmetric()
    ensures forall a, b :: Overlap(a, b) <==> Overlap(b, a)
  {
  }

  lemma FitsOne(p: Point, bounds: Rect, occupied: seq<Rect>)
    ensures Fits([p], bounds, occupied) <==> Within(Card(p), bounds) && Clear(Card(p), occupied)
  {
    hide Card, Within, Overlap;
    assert [p][0] == p;
  }

  method AcceptedRectsForPoints(points: seq<Point>, bounds: Rect, occupied: seq<Rect>)
      returns (rects: Option<seq<Rect>>)
    ensures rects.Some? <==> Fits(points, bounds, occupied)
    ensures rects.Some? ==> rects.value == Cards(points)
  {
    hide Overlap, Within, Fits;
    var next: seq<Rect> := [];
    FitsNone(bounds, occupied);
    for n := 0 to |points|
      invariant next == Cards(points[..n])
      invariant Fits(points[..n], bounds, occupied)
    {
      var rect := RectFromCenter(points[n], DEVICE_WIDTH, DEVICE_HEIGHT, GAP);
      assert points[..n + 1] == points[..n] + [points[n]];
      assert points[..n + 1] + points[n + 1..] == points;
      FitsTogether(points[..n], [points[n]], bounds, occupied);
      FitsTogether(points[..n + 1], points[n + 1..], bounds, occupied);
      FitsOne(points[n], bounds, occupied + next);
      if !Within(rect, bounds) {
        return None;
      }
      if !Clear(rect, occupied + next) {
        return None;
      }
      next := next + [rect];
    }
    assert points[..|points|] == points;
    rects := Some(next);
  }

  lemma FitsNone(bounds: Rect, occupied: seq<Rect>)
    ensures Fits([], bounds, occupied)
  {
  }

  // ---- One ring ----------------------------------------------------------------------

  function Angle(trig: Trig, count: nat, index: nat, phase: real): real
    requires count > 0
  {
    phase + index as real * trig.pi * 2.0 / count as real
  }

  function RingPoint(trig: Trig, count: nat, index: nat, radius: Point, phase: real): Point
    requires count > 0
  {
    var angle := Angle(trig, count, index, phase);
    Point(trig.cos(angle) * radius.x, trig.sin(angle) * radius.y)
  }

  function RingPoints(trig: Trig, count: nat, radius: Point, phase: real): (points: seq<Point>)
    ensures |points| == count
    ensures forall i :: 0 <= i < count ==> points[i] == RingPoint(trig, count, i, radius, phase)
  {
    seq(count, i requires 0 <= i < count => RingPoint(trig, count, i, radius, phase))
  }

  function PhaseSteps(count: nat): nat
    requires count > 0
  {
    if count * 2 < 16 then count * 2 else 16
  }

  function Turned(base: real, slot: real, index: nat, steps: nat): real
    requires steps > 0
  {
    base + slot * index as real / steps as real
  }

  /** The first phases that are tried, then the turns within one slot. */
  function Phases(trig: Trig, count: nat, shift: real): seq<real> {
    var cardinal := -trig.pi / 2.0 + shift;
    if count <= 1 then [cardinal] else
    var slot := trig.pi * 2.0 / count as real;
    var base := cardinal - slot / 2.0;
    var steps := PhaseSteps(count);
    [cardinal, base] + seq(steps, index requires 0 <= index < steps => Turned(base, slot, index, steps))
  }

  method RingPhaseCandidates(trig: Trig, count: nat, shift: real) returns (phases: seq<real>)
    ensures phases == Phases(trig, count, shift)
  {
    hide Turned;
    if count <= 1 {
      return [-trig.pi / 2.0 + shift];
    }
    var slot := trig.pi * 2.0 / count as real;
    var cardinal := -trig.pi / 2.0 + shift;
    var base := cardinal - slot / 2.0;
    var steps := PhaseSteps(count);
    phases := [cardinal, base];
    for index := 0 to steps
      invariant |phases| == index + 2 && phases[..2] == [cardinal, base]
      invariant forall i :: 0 <= i < index ==> phases[i + 2] == Turned(base, slot, i, steps)
    {
      phases := phases + [Turned(base, slot, index, steps)];
    }
    assert phases == phases[..2] + phases[2..];
    assert phases[2..] == seq(steps, index requires 0 <= index < steps => Turned(base, slot, index, steps));
  }

  ghost function FirstFit(trig: Trig, count: nat, bounds: Rect, occupied: seq<Rect>, radius: Point,
                          phases: seq<real>): Option<seq<Point>> {
    if phases == [] then None else
    var points := RingPoints(trig, count, radius, phases[0]);
    if Fits(points, bounds, occupied) then Some(points)
      else FirstFit(trig, count, bounds, occupied, radius, phases[1..])
  }

  ghost function Ring(trig: Trig, count: nat, bounds: Rect, occupied: seq<Rect>, radius: Point,
                      shift: real): Option<seq<Point>> {
    FirstFit(trig, count, bounds, occupied, radius, Phases(trig, count, shift))
  }

  method AcceptedRingPoints(trig: Trig, count: nat, bounds: Rect, occupied: seq<Rect>, radius: Point, shift: real)
      returns (points: Option<seq<Point>>)
    ensures points == Ring(trig, count, bounds, occupied, radius, shift)
  {
    hide Fits, RingPoints, Phases;
    var phases := RingPhaseCandidates(trig, count, shift);
    for n := 0 to |phases|
      invariant FirstFit(trig, count, bounds, occupied, radius, phases) ==
                FirstFit(trig, count, bounds, occupied, radius, phases[n..])
    {
      assert phases[n..][1..] == phases[n + 1..];
      var ring := RingPoints(trig, count, radius, phases[n]);
      var rects := AcceptedRectsForPoints(ring, bounds, occupied);
      if rects.Some? {
        return Some(ring);
      }
    }
    points := None;
  }

  /** A ring is found exactly when one of the tried phases fits, and what is found fits. */
  lemma {:induction false} FirstFitIsExact(trig: Trig, count: nat, bounds: Rect, occupied: seq<Rect>, radius: Point,
                                           phases: seq<real>)
    ensures var r := FirstFit(trig, count, bounds, occupied, radius, phases);
            (r.Some? <==>
              exists n :: 0 <= n < |phases| && Fits(RingPoints(trig, count, radius, phases[n]), bounds, occupied)) &&
            (r.Some? ==> |r.value| == count && Fits(r.value, bounds, occupied))
  {
    hide Fits;
    if phases != [] {
      FirstFitIsExact(trig, count, bounds, occupied, radius, phases[1..]);
      if n :| 0 <= n < |phases| && Fits(RingPoints(trig, count, radius, phases[n]), bounds, occupied) {
        if n > 0 {
          assert phases[1..][n - 1] == phases[n];
        }
      }
    }
  }

  lemma RingFits(trig: Trig, count: nat, bounds: Rect, occupied: seq<Rect>, radius: Point, shift: real)
    ensures var r := Ring(trig, count, bounds, occupied, radius, shift);
            r.Some? ==> |r.value| == count && Fits(r.value, bounds, occupied)
  {
    hide Fits, Phases;
    FirstFitIsExact(trig, count, bounds, occupied, radius, Phases(trig, count, shift));
  }

  // ---- Two rings ---------------------------------------------------------------------

  function InnerShift(trig: Trig, count: nat): real {
    trig.pi / (if count < 1 then 1 else count) as real
  }

  function OuterRadius(first: Point, max: Point): Point {
    Point(Clamp(max.x * 0.94, first.x, max.x), Clamp(max.y * 0.94, first.y, max.y))
  }

  function InnerRadius(first: Point, outer: Point): Point {
    Point(Clamp(first.x + (outer.x - first.x) * 0.38, first.x, outer.x),
          Clamp(first.y + (outer.y - first.y) * 0.38, first.y, outer.y))
  }

  /** `outerCount` cards on the outer ring and the rest on the inner one. */
  ghost function Split(trig: Trig, count: nat, bounds: Rect, occupied: seq<Rect>, outer: Point, inner: Point,
                       outerCount: nat): Option<seq<Point>>
    requires outerCount <= count
  {
    var p := Ring(trig, outerCount, bounds, occupied, outer, 0.0);
    if p.None? then None else
    var q := Ring(trig, count - outerCount, bounds, occupied + Cards(p.value), inner,
                  InnerShift(trig, count - outerCount));
    if q.None? then None else Some(p.value + q.value)
  }

  /** The first split that works, with as many cards on the outer ring as possible. */
  ghost function FirstSplit(trig: Trig, count: nat, bounds: Rect, occupied: seq<Rect>, outer: Point, inner: Point,
                            most: int): Option<seq<Point>>
    requires most <= count
    decreases most
  {
    if most < 1 then None else
    var s := Split(trig, count, bounds, occupied, outer, inner, most);
    if s.Some? then s else FirstSplit(trig, count, bounds, occupied, outer, inner, most - 1)
  }

  /** A split is found exactly when one works, and what is found is the one with the most cards on the
      outer ring. */
  lemma {:induction false} FirstSplitIsLargest(trig: Trig, count: nat, bounds: Rect, occupied: seq<Rect>, outer: Point,
                                               inner: Point, most: int)
    requires most <= count
    ensures
      var r := FirstSplit(trig, count, bounds, occupied, outer, inner, most);
      && (r.None? <==> forall k :: 1 <= k <= most ==> Split(trig, count, bounds, occupied, outer, inner, k).None?)
      && (r.Some? ==>
            exists k :: 1 <= k <= most && r == Split(trig, count, bounds, occupied, outer, inner, k) &&
                        forall m :: k < m <= most ==> Split(trig, count, bounds, occupied, outer, inner, m).None?)
    decreases most
  {
    hide Split;
    if most >= 1 {
      FirstSplitIsLargest(trig, count, bounds, occupied, outer, inner, most - 1);
    }
  }

  /** All cards on the outer ring, or the first split, or all cards on the inner ring. */
  ghost function OuterFirst(trig: Trig, count: nat, bounds: Rect, occupied: seq<Rect>, first: Point,
                            max: Point): Option<seq<Point>> {
    var outer := OuterRadius(first, max);
    var inner := InnerRadius(first, outer);
    var all := Ring(trig, count, bounds, occupied, outer, 0.0);
    var split := FirstSplit(trig, count, bounds, occupied, outer, inner, count - 1);
    if all.Some? then all
    else if split.Some? then split
    else Ring(trig, count, bounds, occupied, inner, InnerShift(trig, count))
  }

  /** The search fails exactly when the cards fit on neither ring alone and no split works; all cards on the
      outer ring come first, all on the inner one last. */
  lemma OuterFirstIff(trig: Trig, count: nat, bounds: Rect, occupied: seq<Rect>, first: Point, max: Point)
    ensures
      var r := OuterFirst(trig, count, bounds, occupied, first, max);
      var outer := OuterRadius(first, max);
      var inner := InnerRadius(first, outer);
      var all := Ring(trig, count, bounds, occupied, outer, 0.0);
      var last := Ring(trig, count, bounds, occupied, inner, InnerShift(trig, count));
      && (r.None? <==>
          && all.None? && last.None?
          && forall k :: 1 <= k <= count - 1 ==> Split(trig, count, bounds, occupied, outer, inner, k).None?)
      && (all.Some? ==> r == all)
      && (r != all && r != last ==>
            exists k :: 1 <= k < count && r == Split(trig, count, bounds, occupied, outer, inner, k))
  {
    hide Ring, Split, OuterRadius, InnerRadius, InnerShift;
    var outer := OuterRadius(first, max);
    FirstSplitIsLargest(trig, count, bounds, occupied, outer, InnerRadius(first, outer), count - 1);
  }

  /** The filling pass at the end tries both rings in turn; since the outer ring has failed by
      then, it amounts to all cards on the inner ring. */
  method BuildOuterFirstRingPoints(trig: Trig, count: nat, bounds: Rect, occupied: seq<Rect>, first: Point, max: Point)
      returns (points: Option<seq<Point>>)
    ensures points == OuterFirst(trig, count, bounds, occupied, first, max)
  {
    hide Ring, Fits, OuterRadius, InnerRadius, InnerShift;
    var outer := OuterRadius(first, max);
    var inner := InnerRadius(first, outer);

    var allOuter := AcceptedRingPoints(trig, count, bounds, occupied, outer, 0.0);
    if allOuter.Some? {
      return allOuter;
    }

    var outerCount := count - 1;
    while outerCount >= 1
      invariant outerCount < count
      invariant FirstSplit(trig, count, bounds, occupied, outer, inner, outerCount) ==
                FirstSplit(trig, count, bounds, occupied, outer, inner, count - 1)
    {
      var split := TrySplit(trig, count, bounds, occupied, outer, inner, outerCount);
      if split.Some? {
        return split;
      }
      outerCount := outerCount - 1;
    }

    points := FillRings(trig, count, bounds, occupied, outer, inner);
  }

  /** One round of the search over splits. */
  method TrySplit(trig: Trig, count: nat, bounds: Rect, occupied: seq<Rect>, outer: Point, inner: Point,
                  outerCount: nat) returns (points: Option<seq<Point>>)
    requires outerCount <= count
    ensures points == Split(trig, count, bounds, occupied, outer, inner, outerCount)
  {
    hide Ring, Fits, InnerShift;
    var outerPoints := AcceptedRingPoints(trig, outerCount, bounds, occupied, outer, 0.0);
    RingFits(trig, outerCount, bounds, occupied, outer, 0.0);
    if outerPoints.None? {
      return None;
    }
    var outerRects := AcceptedRectsForPoints(outerPoints.value, bounds, occupied);
    var innerCount := count - outerCount;
    var taken := occupied + outerRects.value;
    var innerPoints := AcceptedRingPoints(trig, innerCount, bounds, taken, inner, InnerShift(trig, innerCount));
    RingFits(trig, innerCount, bounds, taken, inner, InnerShift(trig, innerCount));
    if innerPoints.None? {
      return None;
    }
    var innerRects := AcceptedRectsForPoints(innerPoints.value, bounds, taken);
    if innerRects.None? {
      return None;
    }
    points := Some(outerPoints.value + innerPoints.value);
  }

  method FillRings(trig: Trig, count: nat, bounds: Rect, occupied: seq<Rect>, outer: Point, inner: Point)
      returns (points: Option<seq<Point>>)
    requires Ring(trig, count, bounds, occupied, outer, 0.0).None?
    ensures points == Ring(trig, count, bounds, occupied, inner, InnerShift(trig, count))
  {
    hide Ring, Fits, InnerShift;
    var slots: seq<Point> := [];
    var working := occupied;
    var radii := [outer, inner];
    var filled := Ring(trig, count, bounds, occupied, inner, InnerShift(trig, count));
    RingFits(trig, count, bounds, occupied, inner, InnerShift(trig, count));
    EmptyRing(trig, bounds, occupied, outer);
    for n := 0 to 2
      invariant n <= 1 ==> slots == [] && working == occupied
      invariant n == 2 ==> slots == if filled.Some? then filled.value else []
    {
      var remaining := count - |slots|;
      if remaining <= 0 {
        break;
      }
      var shift := if n == 0 then 0.0 else InnerShift(trig, remaining);
      var ring := AcceptedRingPoints(trig, remaining, bounds, working, radii[n], shift);
      if ring.None? {
        continue;
      }
      var rects := AcceptedRectsForPoints(ring.value, bounds, working);
      if rects.Some? {
        slots := slots + ring.value;
        working := working + rects.value;
      }
    }
    points := if |slots| == count then Some(slots) else None;
  }

  lemma EmptyRing(trig: Trig, bounds: Rect, occupied: seq<Rect>, radius: Point)
    ensures Ring(trig, 0, bounds, occupied, radius, 0.0) == Some([])
  {
    FitsNone(bounds, occupied);
  }

  // ---- The canvas --------------------------------------------------------------------

  /** The closest ring that clears the home card. */
  function FirstRadius(): Point {
    Point(HOME_WIDTH / 2.0 + DEVICE_WIDTH / 2.0 + GAP + 18.0, HOME_HEIGHT / 2.0 + DEVICE_HEIGHT / 2.0 + GAP + 18.0)
  }

  function MaxRadius(size: Size): Point {
    Point(Max(DEVICE_WIDTH / 2.0, size.width / 2.0 - PADDING - DEVICE_WIDTH / 2.0),
          Max(DEVICE_HEIGHT / 2.0, size.height / 2.0 - PADDING - DEVICE_HEIGHT / 2.0))
  }

  function InnermostRadius(size: Size): Point {
    Point(Min(FirstRadius().x, MaxRadius(size).x), Min(FirstRadius().y, MaxRadius(size).y))
  }

  function PlannedRadius(size: Size): Point {
    Point(Max(Min(MaxRadius(size).x, MAX_RING_RADIUS), InnermostRadius(size).x),
          Max(Min(MaxRadius(size).y, MAX_RING_RADIUS), InnermostRadius(size).y))
  }

  function RoundRadius(size: Size): Point {
    var r := Min(PlannedRadius(size).x, PlannedRadius(size).y);
    Point(r, r)
  }

  ghost function Layout(trig: Trig, count: int, size: Size): Option<seq<Point>> {
    if count <= 0 then Some([]) else
    var planned := OuterFirst(trig, count, BoundsOf(size), [Home()], InnermostRadius(size), PlannedRadius(size));
    if planned.Some? then planned else Ring(trig, count, BoundsOf(size), [Home()], RoundRadius(size), 0.0)
  }

  method BuildCanvasPointsForSize(trig: Trig, count: int, size: Size) returns (points: Option<seq<Point>>)
    ensures points == Layout(trig, count, size)
  {
    hide OuterFirst, Ring, InnermostRadius, PlannedRadius, RoundRadius;
    if count <= 0 {
      return Some([]);
    }
    points := BuildOuterFirstRingPoints(trig, count, BoundsOf(size), [Home()], InnermostRadius(size),
                                        PlannedRadius(size));
    if points.Some? {
      return points;
    }
    points := AcceptedRingPoints(trig, count, BoundsOf(size), [Home()], RoundRadius(size), 0.0);
  }

  // ---- Every layout is a packing -----------------------------------------------------

  lemma SplitFits(trig: Trig, count: nat, bounds: Rect, occupied: seq<Rect>, outer: Point, inner: Point,
                  outerCount: nat)
    requires outerCount <= count
    ensures var r := Split(trig, count, bounds, occupied, outer, inner, outerCount);
            r.Some? ==> |r.value| == count && Fits(r.value, bounds, occupied)
  {
    hide Ring, Fits, InnerShift;
    var p := Ring(trig, outerCount, bounds, occupied, outer, 0.0);
    RingFits(trig, outerCount, bounds, occupied, outer, 0.0);
    if p.Some? {
      var taken := occupied + Cards(p.value);
      var q := Ring(trig, count - outerCount, bounds, taken, inner, InnerShift(trig, count - outerCount));
      RingFits(trig, count - outerCount, bounds, taken, inner, InnerShift(trig, count - outerCount));
      if q.Some? {
        FitsTogether(p.value, q.value, bounds, occupied);
      }
    }
  }

  lemma {:induction false} FirstSplitFits(trig: Trig, count: nat, bounds: Rect, occupied: seq<Rect>, outer: Point,
                                          inner: Point, most: int)
    requires most <= count
    ensures var r := FirstSplit(trig, count, bounds, occupied, outer, inner, most);
            r.Some? ==> |r.value| == count && Fits(r.value, bounds, occupied)
    decreases most
  {
    hide Split, Fits;
    if most >= 1 {
      SplitFits(trig, count, bounds, occupied, outer, inner, most);
      FirstSplitFits(trig, count, bounds, occupied, outer, inner, most - 1);
    }
  }

  lemma OuterFirstFits(trig: Trig, count: nat, bounds: Rect, occupied: seq<Rect>, first: Point, max: Point)
    ensures var r := OuterFirst(trig, count, bounds, occupied, first, max);
            r.Some? ==> |r.value| == count && Fits(r.value, bounds, occupied)
  {
    hide Ring, Fits, FirstSplit, InnerShift, OuterRadius, InnerRadius;
    var outer := OuterRadius(first, max);
    var inner := InnerRadius(first, outer);
    RingFits(trig, count, bounds, occupied, outer, 0.0);
    FirstSplitFits(trig, count, bounds, occupied, outer, inner, count - 1);
    RingFits(trig, count, bounds, occupied, inner, InnerShift(trig, count));
  }

  /** Every layout has one point per card; the padded cards lie within the padded canvas, clear
      of the home card and of each other, whatever the values of sine and cosine. */
  lemma LayoutIsPacking(trig: Trig, count: int, size: Size)
    ensures var r := Layout(trig, count, size);
            r.Some? ==>
              |r.value| == Count(count) &&
              (forall i :: 0 <= i < |r.value| ==>
               Within(Card(r.value[i]), BoundsOf(size)) && !Overlap(Card(r.value[i]), Home())) &&
              (forall i, j :: 0 <= i < |r.value| && 0 <= j < |r.value| && i != j ==>
               !Overlap(Card(r.value[i]), Card(r.value[j])))
  {
    hide Ring, OuterFirst, InnermostRadius, PlannedRadius, RoundRadius, Card, Overlap, Within, Home, BoundsOf;
    if count > 0 {
      OuterFirstFits(trig, count, BoundsOf(size), [Home()], InnermostRadius(size), PlannedRadius(size));
      RingFits(trig, count, BoundsOf(size), [Home()], RoundRadius(size), 0.0);
      var r := Layout(trig, count, size);
      if r.Some? {
        forall i | 0 <= i < |r.value| ensures !Overlap(Card(r.value[i]), Home()) {
          assert [Home()][0] == Home();
        }
      }
    }
  }

  function Count(count: int): nat { if count < 0 then 0 else count }

  // ---- Growing the canvas ------------------------------------------------------------

  ghost predicate IsTrig(trig: Trig) {
    forall a: real :: -1.0 <= trig.cos(a) <= 1.0 && -1.0 <= trig.sin(a) <= 1.0
  }

  /** Every card on a ring of this radius is in bounds. */
  predicate Reaches(bounds: Rect, radius: Point) {
    0.0 <= radius.x && 0.0 <= radius.y &&
    Within(RectFromCenter(Point(0.0, 0.0), 2.0 * radius.x + DEVICE_WIDTH, 2.0 * radius.y + DEVICE_HEIGHT, GAP), bounds)
  }

  lemma ScaledWithin(c: real, r: real, x: real)
    requires -1.0 <= c <= 1.0 && 0.0 <= r && x == c * r
    ensures -r <= x <= r
  {
    NonNegativeProduct(1.0 - c, r);
    NonNegativeProduct(1.0 + c, r);
    assert (1.0 - c) * r == r - c * r;
    assert (1.0 + c) * r == r + c * r;
  }

  lemma NonNegativeProduct(a: real, b: real)
    requires a >= 0.0 && b >= 0.0
    ensures a * b >= 0.0
  {
  }

  lemma RingIsInBounds(trig: Trig, count: nat, bounds: Rect, radius: Point, phase: real)
    requires IsTrig(trig) && Reaches(bounds, radius)
    ensures InBounds(RingPoints(trig, count, radius, phase), bounds)
  {
    hide Within, Card, Angle;
    var points := RingPoints(trig, count, radius, phase);
    forall i | 0 <= i < |points| ensures Within(Card(points[i]), bounds) {
      var angle := Angle(trig, count, i, phase);
      ScaledWithin(trig.cos(angle), radius.x, points[i].x);
      ScaledWithin(trig.sin(angle), radius.y, points[i].y);
      CenteredWithin(points[i].x, points[i].y, bounds, radius);
    }
  }

  lemma CenteredWithin(x: real, y: real, bounds: Rect, radius: Point)
    requires -radius.x <= x <= radius.x && -radius.y <= y <= radius.y && Reaches(bounds, radius)
    ensures Within(Card(Point(x, y)), bounds)
  {
  }

  lemma {:induction false} FirstFitIgnoresBounds(trig: Trig, count: nat, a: Rect, b: Rect, occupied: seq<Rect>,
                                                 radius: Point, phases: seq<real>)
    requires IsTrig(trig) && Reaches(a, radius) && Reaches(b, radius)
    ensures FirstFit(trig, count, a, occupied, radius, phases) == FirstFit(trig, count, b, occupied, radius, phases)
  {
    hide IsTrig, Reaches, RingPoints, InBounds, Avoids, Apart;
    if phases != [] {
      RingIsInBounds(trig, count, a, radius, phases[0]);
      RingIsInBounds(trig, count, b, radius, phases[0]);
      FirstFitIgnoresBounds(trig, count, a, b, occupied, radius, phases[1..]);
    }
  }

  lemma RingIgnoresBounds(trig: Trig, count: nat, a: Rect, b: Rect, occupied: seq<Rect>, radius: Point, shift: real)
    requires IsTrig(trig) && Reaches(a, radius) && Reaches(b, radius)
    ensures Ring(trig, count, a, occupied, radius, shift) == Ring(trig, count, b, occupied, radius, shift)
  {
    hide IsTrig, Reaches, FirstFit, Phases;
    FirstFitIgnoresBounds(trig, count, a, b, occupied, radius, Phases(trig, count, shift));
  }

  lemma {:induction false} FirstSplitIgnoresBounds(trig: Trig, count: nat, a: Rect, b: Rect, occupied: seq<Rect>,
                                                   outer: Point, inner: Point, most: int)
    requires most <= count
    requires IsTrig(trig) && Reaches(a, outer) && Reaches(b, outer) && Reaches(a, inner) && Reaches(b, inner)
    ensures FirstSplit(trig, count, a, occupied, outer, inner, most) ==
            FirstSplit(trig, count, b, occupied, outer, inner, most)
    decreases most
  {
    hide IsTrig, Reaches, Ring, InnerShift;
    if most >= 1 {
      RingIgnoresBounds(trig, most, a, b, occupied, outer, 0.0);
      var p := Ring(trig, most, a, occupied, outer, 0.0);
      if p.Some? {
        RingIgnoresBounds(trig, count - most, a, b, occupied + Cards(p.value), inner, InnerShift(trig, count - most));
      }
      FirstSplitIgnoresBounds(trig, count, a, b, occupied, outer, inner, most - 1);
    }
  }

  lemma OuterFirstIgnoresBounds(trig: Trig, count: nat, a: Rect, b: Rect, occupied: seq<Rect>, first: Point, max: Point)
    requires IsTrig(trig) && Reaches(a, max) && Reaches(b, max)
    requires 0.0 <= first.x <= max.x && 0.0 <= first.y <= max.y
    ensures OuterFirst(trig, count, a, occupied, first, max) == OuterFirst(trig, count, b, occupied, first, max)
  {
    hide IsTrig, Reaches, Ring, FirstSplit, InnerShift, OuterRadius, InnerRadius;
    var outer := OuterRadius(first, max);
    var inner := InnerRadius(first, outer);
    RadiiReach(a, first, max);
    RadiiReach(b, first, max);
    RingIgnoresBounds(trig, count, a, b, occupied, outer, 0.0);
    FirstSplitIgnoresBounds(trig, count, a, b, occupied, outer, inner, count - 1);
    RingIgnoresBounds(trig, count, a, b, occupied, inner, InnerShift(trig, count));
  }

  lemma RadiiReach(bounds: Rect, first: Point, max: Point)
    requires Reaches(bounds, max) && 0.0 <= first.x <= max.x && 0.0 <= first.y <= max.y
    ensures Reaches(bounds, OuterRadius(first, max)) && Reaches(bounds, InnerRadius(first, OuterRadius(first, max)))
  {
  }

  /** The size from which every ring up to the largest radius is in bounds, gap included. */
  function SettledSize(): Size {
    Size(2.0 * (MAX_RING_RADIUS + PADDING) + DEVICE_WIDTH + GAP,
         2.0 * (MAX_RING_RADIUS + PADDING) + DEVICE_HEIGHT + GAP)
  }

  ghost predicate AtLeast(a: Size, b: Size) {
    a.width >= b.width && a.height >= b.height
  }

  lemma SettledRadii(size: Size)
    requires AtLeast(size, SettledSize())
    ensures PlannedRadius(size) == Point(MAX_RING_RADIUS, MAX_RING_RADIUS) == RoundRadius(size) &&
            InnermostRadius(size) == FirstRadius()
    ensures Reaches(BoundsOf(size), Point(MAX_RING_RADIUS, MAX_RING_RADIUS))
  {
  }

  /** Beyond that size the layout no longer depends on the size: the rings stop growing, so a
      canvas that is larger still places exactly the same cards, or again none. */
  lemma LayoutSettles(trig: Trig, count: int, size: Size)
    requires IsTrig(trig) && AtLeast(size, SettledSize())
    ensures Layout(trig, count, size) == Layout(trig, count, SettledSize())
  {
    hide IsTrig, Reaches, OuterFirst, Ring, BoundsOf, PlannedRadius, RoundRadius, InnermostRadius;
    if count > 0 {
      var a, b, max := BoundsOf(size), BoundsOf(SettledSize()), Point(MAX_RING_RADIUS, MAX_RING_RADIUS);
      SettledRadii(size);
      SettledRadii(SettledSize());
      OuterFirstIgnoresBounds(trig, count, a, b, [Home()], FirstRadius(), max);
      RingIgnoresBounds(trig, count, a, b, [Home()], max, 0.0);
    }
  }
}
