/** What the measures of the canvas mean: when cards collide, which rings are tried and which sizes are
    preferred. */
module CanvasLaws {
  import opened Wrappers
  import opened CanvasLayout
  import opened CanvasWorkspace

  function Distance(a: real, b: real): real { if a < b then b - a else a - b }

  /** Two cards collide exactly when their centres are less than a card and a gap apart both ways. */
  lemma CardsCollideIff(p: Point, q: Point)
    ensures Overlap(Card(p), Card(q)) <==> Distance(p.x, q.x) < 206.0 && Distance(p.y, q.y) < 138.0
  {
  }

  /** A card collides with the home card exactly when its centre is less than both halves and a gap away. */
  lemma HomeCollidesIff(p: Point)
    ensures Overlap(Card(p), Home()) <==> Distance(p.x, 0.0) < 226.0 && Distance(p.y, 0.0) < 182.0
  {
  }

  /** A card is in bounds exactly when half a card, half a gap and the padding fit beside its centre. */
  lemma InBoundsIff(p: Point, size: Size)
    ensures Within(Card(p), BoundsOf(size)) <==>
              Distance(p.x, 0.0) + 139.0 <= size.width / 2.0 && Distance(p.y, 0.0) + 105.0 <= size.height / 2.0
  {
  }

  /** The closest ring clears the home card at its four corners, by the extra 18 and half a gap more. */
  lemma FirstRingClearsHome(p: Point)
    requires Distance(p.x, 0.0) >= FirstRadius().x || Distance(p.y, 0.0) >= FirstRadius().y
    ensures !Overlap(Card(p), Home())
    ensures FirstRadius() == Point(244.0, 200.0)
  {
  }

  /** The inner ring lies between the closest and the outer one, and that between the closest and the
      largest; they are 38 and 94 percent of the way unless that is too small. */
  lemma RingsAreNested(first: Point, max: Point)
    requires 0.0 <= first.x <= max.x && 0.0 <= first.y <= max.y
    ensures
      var outer := OuterRadius(first, max);
      var inner := InnerRadius(first, outer);
      && first.x <= inner.x <= outer.x <= max.x && first.y <= inner.y <= outer.y <= max.y
      && (max.x * 0.94 >= first.x ==> outer.x == max.x * 0.94) && (max.y * 0.94 >= first.y ==> outer.y == max.y * 0.94)
      && inner.x - first.x == 0.38 * (outer.x - first.x) && inner.y - first.y == 0.38 * (outer.y - first.y)
  {
  }

  /** No ring is larger than 540, nor than what keeps its outermost card on the canvas; a card never sits
      closer to the middle than half a card. */
  lemma RadiiFitCanvas(size: Size)
    ensures
      var r := PlannedRadius(size);
      && 90.0 <= r.x <= 540.0 && 56.0 <= r.y <= 540.0
      && (size.width >= 432.0 ==> r.x + 90.0 + 36.0 <= size.width / 2.0)
      && (size.height >= 296.0 ==> r.y + 56.0 + 36.0 <= size.height / 2.0)
      && RoundRadius(size).x == RoundRadius(size).y && RoundRadius(size).x <= r.x && RoundRadius(size).y <= r.y
      && (RoundRadius(size).x == r.x || RoundRadius(size).y == r.y)
      && InnermostRadius(size).x <= r.x && InnermostRadius(size).y <= r.y
  {
  }

  /** The cards of a ring are spaced evenly over the full circle, starting at the phase. */
  lemma RingIsEven(trig: Trig, count: nat, index: nat, radius: Point, phase: real)
    requires index < count
    ensures Angle(trig, count, 0, phase) == phase
    ensures Angle(trig, count, index + 1, phase) - Angle(trig, count, index, phase) == trig.pi * 2.0 / count as real
    ensures
      var p := RingPoints(trig, count, radius, phase)[index];
      && p.x == trig.cos(Angle(trig, count, index, phase)) * radius.x
      && p.y == trig.sin(Angle(trig, count, index, phase)) * radius.y
  {
    var a, n := trig.pi * 2.0, count as real;
    Spaced(index as real, trig.pi, n, a / n);
    Spaced(index as real + 1.0, trig.pi, n, a / n);
    assert (index + 1) as real == index as real + 1.0;
    assert 0.0 * trig.pi * 2.0 / n == 0.0;
    var step := a / n;
    assert (index as real + 1.0) * step == index as real * step + step;
  }

  lemma Spaced(index: real, pi: real, n: real, step: real)
    requires n > 0.0 && step == pi * 2.0 / n
    ensures index * pi * 2.0 / n == index * step
  {
    var a := pi * 2.0;
    assert index * pi * 2.0 == index * a;
    Across(index, a, n);
  }

  lemma Across(k: real, a: real, n: real)
    requires n > 0.0
    ensures k * a / n == k * (a / n)
  {
    var q := a / n;
    assert q * n == a;
    assert k * a == k * q * n;
  }

  /** The first thing tried is a ring that starts at the top of the canvas. */
  lemma FirstCardOnTop(trig: Trig, count: nat, radius: Point)
    requires count > 0 && trig.cos(-trig.pi / 2.0) == 0.0 && trig.sin(-trig.pi / 2.0) == -1.0
    ensures Phases(trig, count, 0.0) != []
    ensures RingPoints(trig, count, radius, Phases(trig, count, 0.0)[0])[0] == Point(0.0, -radius.y)
  {
    assert Phases(trig, count, 0.0)[0] == -trig.pi / 2.0;
    ZeroTurn(trig, count, -trig.pi / 2.0);
  }

  lemma ZeroTurn(trig: Trig, count: nat, phase: real)
    requires count > 0
    ensures Angle(trig, count, 0, phase) == phase
  {
    var n := count as real;
    assert 0.0 * trig.pi * 2.0 / n == 0.0;
  }

  /** Further phases turn the ring back by half a slot and then on through less than one slot. */
  lemma PhasesWithinSlot(trig: Trig, count: nat, shift: real, k: nat)
    requires count > 1 && trig.pi > 0.0 && k < |Phases(trig, count, shift)|
    ensures |Phases(trig, count, shift)| == 2 + PhaseSteps(count) && 1 <= PhaseSteps(count) <= 16
    ensures
      var cardinal, slot := -trig.pi / 2.0 + shift, trig.pi * 2.0 / count as real;
      var phase := Phases(trig, count, shift)[k];
      && (k == 0 ==> phase == cardinal) && (k == 1 ==> phase == cardinal - slot / 2.0)
      && cardinal - slot / 2.0 <= phase < cardinal + slot / 2.0
  {
    hide Turned;
    var cardinal, slot := -trig.pi / 2.0 + shift, trig.pi * 2.0 / count as real;
    assert slot > 0.0;
    if k >= 2 {
      var i, steps := k - 2, PhaseSteps(count);
      TurnWithin(slot, i, steps);
      TurnedIs(cardinal - slot / 2.0, slot, i, steps, slot * i as real / steps as real);
      assert Phases(trig, count, shift)[k] == Turned(cardinal - slot / 2.0, slot, i, steps);
    }
  }

  lemma TurnedIs(base: real, slot: real, i: nat, steps: nat, turn: real)
    requires steps > 0 && turn == slot * i as real / steps as real
    ensures Turned(base, slot, i, steps) == base + turn
  {
  }

  lemma TurnWithin(slot: real, i: nat, steps: nat)
    requires slot > 0.0 && i < steps
    ensures 0.0 <= slot * i as real / steps as real < slot
  {
    var n, q := steps as real, i as real / steps as real;
    assert q * n == i as real;
    assert 0.0 <= q < 1.0;
    Across(slot, i as real, n);
    assert slot * q < slot;
  }

  // ---- Preferred sizes ---------------------------------------------------------------

  lemma Product(a: real, b: real, c: real, d: real)
    requires 0.0 <= a <= c && 0.0 <= b <= d
    ensures 0.0 <= a * b <= c * d
  {
    assert a * b <= a * d;
    assert a * d <= c * d;
  }

  /** A size is scored exactly when it and the visible area have a height. */
  lemma ScoredIff(visible: Size, c: Size)
    ensures Score(visible, c).Some? <==> visible.height != 0.0 && c.height != 0.0
  {
  }

  /** Less overflow, less area and closer proportions never weigh more, and each counts by itself. */
  lemma WeighedMonotone(x: real, y: real, area: real, off: real, x': real, y': real, area': real, off': real)
    requires 0.0 <= x <= x' && 0.0 <= y <= y' && area <= area' && off <= off'
    ensures Weighed(x, y, area, off) <= Weighed(x', y', area', off')
    ensures x < x' || y < y' || area < area' || off < off' ==> Weighed(x, y, area, off) < Weighed(x', y', area', off')
  {
    Product(x, x, x', x');
    Product(y, y, y', y');
    if x < x' { Squares(x, x'); }
    if y < y' { Squares(y, y'); }
  }

  lemma Squares(a: real, b: real)
    requires 0.0 <= a < b
    ensures a * a < b * b
  {
    assert (b - a) * b > 0.0 && (b - a) * a >= 0.0;
    assert (b - a) * b == b * b - a * b;
    assert (b - a) * a == b * a - a * a;
  }

  /** Of two sizes of the same proportions the smaller one is never scored worse. */
  lemma SmallerIsBetter(visible: Size, c: Size, d: Size)
    requires visible.height != 0.0 && c.height > 0.0 && d.height > 0.0 && c.width >= 0.0
    requires c.width <= d.width && c.height <= d.height && Aspect(c) == Aspect(d)
    ensures Score(visible, c).value <= Score(visible, d).value
  {
    hide Weighed, Area, Aspect;
    SmallerArea(c, d);
    var off := Abs(Aspect(c) - Aspect(visible));
    WeighedMonotone(Max(0.0, c.width - visible.width), Max(0.0, c.height - visible.height), Area(c), off,
                    Max(0.0, d.width - visible.width), Max(0.0, d.height - visible.height), Area(d), off);
  }

  lemma SmallerArea(c: Size, d: Size)
    requires 0.0 <= c.width <= d.width && 0.0 <= c.height <= d.height
    ensures Area(c) <= Area(d)
  {
    Product(c.width, c.height, d.width, d.height);
  }

  /** Of two sizes that overflow equally far and are equally large, the one closer to the visible
      proportions is scored better. */
  lemma CloserProportionsAreBetter(visible: Size, c: Size, d: Size)
    requires visible.height != 0.0 && c.height > 0.0 && d.height > 0.0
    requires Max(0.0, c.width - visible.width) == Max(0.0, d.width - visible.width)
    requires Max(0.0, c.height - visible.height) == Max(0.0, d.height - visible.height)
    requires Area(c) == Area(d)
    ensures Score(visible, c).value < Score(visible, d).value <==>
            Distance(Aspect(c), Aspect(visible)) < Distance(Aspect(d), Aspect(visible))
  {
    hide Weighed, Area, Aspect;
    var x, y := Max(0.0, c.width - visible.width), Max(0.0, c.height - visible.height);
    var p, q := Abs(Aspect(c) - Aspect(visible)), Abs(Aspect(d) - Aspect(visible));
    if p <= q { WeighedMonotone(x, y, Area(c), p, x, y, Area(c), q); }
    if q <= p { WeighedMonotone(x, y, Area(c), q, x, y, Area(c), p); }
  }

  /** The aspect is that of width to height. */
  lemma AspectIs(c: Size, ratio: real)
    requires c.height > 0.0 && c.width == ratio * c.height
    ensures Aspect(c) == ratio
  {
  }

  /** Area grows in proportion to width and to height. */
  lemma AreaScales(c: Size, k: real)
    ensures Area(Size(k * c.width, c.height)) == k * Area(c) == Area(Size(c.width, k * c.height))
  {
    assert (k * c.width) * c.height == k * (c.width * c.height);
    assert c.width * (k * c.height) == k * (c.width * c.height);
  }

  /** A pixel of the larger overflow weighs 100000, a thousand square pixels of area one, and a thousandth of
      a proportion one; every overflow also weighs its square. */
  lemma WeightRates(x: real, y: real, area: real, off: real, more: real)
    requires 0.0 <= y <= x && more >= 0.0
    ensures Weighed(x, y, area + 1000.0 * more, off) == Weighed(x, y, area, off) + more
    ensures Weighed(x, y, area, off + 0.001 * more) == Weighed(x, y, area, off) + more
    ensures Weighed(x + more, y, area, off) - (x + more) * (x + more) ==
            Weighed(x, y, area, off) - x * x + 100000.0 * more
    ensures Weighed(0.0, 0.0, 0.0, 0.0) == 0.0
  {
    var a, b := x * x, y * y;
  }
}
