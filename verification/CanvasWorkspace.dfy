/** The search for the workspace size that shows all device cards. */
module CanvasWorkspace {
  import opened Wrappers
  import opened CanvasLayout
  import opened CanvasCapacity

  /** A place in the search grid, in search order. */
  datatype Slot = Slot(column: nat, row: nat)

  ghost predicate Before(a: Slot, b: Slot) {
    a.column < b.column || (a.column == b.column && a.row < b.row)
  }

  /** The smallest searched size leaves room for the closest ring. */
  function MinWidth(): (w: int)
    ensures w as real == (FirstRadius().x + DEVICE_WIDTH / 2.0 + PADDING) * 2.0
  {
    740
  }

  function MinHeight(): (h: int)
    ensures h as real == (FirstRadius().y + DEVICE_HEIGHT / 2.0 + PADDING) * 2.0
  {
    584
  }

  function Overflow(count: int): nat { if count < 16 then 0 else count - 16 }

  function MaxWidth(count: int): (w: int)
    ensures w as real == (MAX_RING_RADIUS + DEVICE_WIDTH / 2.0 + PADDING) * 2.0 + Overflow(count) as real * 60.0
  {
    1332 + Overflow(count) * 60
  }

  function MaxHeight(count: int): (h: int)
    ensures h as real == (MAX_RING_RADIUS + DEVICE_HEIGHT / 2.0 + PADDING) * 2.0 + Overflow(count) as real * 40.0
  {
    1264 + Overflow(count) * 40
  }

  predicate InGrid(count: int, at: Slot) {
    MinWidth() + at.column * SEARCH_STEP <= MaxWidth(count) && MinHeight() + at.row * SEARCH_STEP <= MaxHeight(count)
  }

  function Grown(visible: Size, width: int, height: int): Size {
    Size(Max(visible.width, width as real), Max(visible.height, height as real))
  }

  function Candidate(visible: Size, at: Slot): Size {
    Grown(visible, MinWidth() + at.column * SEARCH_STEP, MinHeight() + at.row * SEARCH_STEP)
  }

  function Abs(x: real): real { if x < 0.0 then -x else x }

  /** Infinite or undefined, and so never an improvement, for a visible area without height. */
  function Score(visible: Size, c: Size): Option<real> {
    if visible.height == 0.0 || c.height == 0.0 then None else
    var overflowX := Max(0.0, c.width - visible.width);
    var overflowY := Max(0.0, c.height - visible.height);
    Some(Weighed(overflowX, overflowY, Area(c), Abs(Aspect(c) - Aspect(visible))))
  }

  function Area(c: Size): real { c.width * c.height }

  function Aspect(c: Size): real
    requires c.height != 0.0
  {
    c.width / c.height
  }

  /** Overflow weighs most, then area, then how far the proportions are off. */
  function Weighed(overflowX: real, overflowY: real, area: real, off: real): real {
    Max(overflowX, overflowY) * 100000.0 + overflowX * overflowX + overflowY * overflowY + area * 0.001 + off * 1000.0
  }

  function Largest(count: int, visible: Size): Size {
    Grown(visible, MaxWidth(count), MaxHeight(count))
  }

  /** The canvas at this place of the grid has a layout and a finite score. */
  ghost predicate Admits(trig: Trig, count: int, visible: Size, at: Slot) {
    InGrid(count, at) && Layout(trig, count, Candidate(visible, at)).Some? &&
      Score(visible, Candidate(visible, at)).Some?
  }

  ghost function ScoreAt(visible: Size, at: Slot): real {
    var s := Score(visible, Candidate(visible, at));
    if s.Some? then s.value else 0.0
  }

  /** `best` is the first of the lowest scored admitted places before `limit`, if there is any. */
  ghost predicate BestBefore(trig: Trig, count: int, visible: Size, limit: Slot, best: Option<Slot>) {
    (best.Some? ==> Admits(trig, count, visible, best.value) && Before(best.value, limit)) &&
    (forall at :: Admits(trig, count, visible, at) && Before(at, limit) ==>
      best.Some? && ScoreAt(visible, best.value) <= ScoreAt(visible, at) &&
      (Before(at, best.value) ==> ScoreAt(visible, best.value) < ScoreAt(visible, at)))
  }

  /** The same over the whole grid. */
  ghost predicate BestOf(trig: Trig, count: int, visible: Size, best: Option<Slot>) {
    (best.Some? ==> Admits(trig, count, visible, best.value)) &&
    (forall at :: Admits(trig, count, visible, at) ==>
      best.Some? && ScoreAt(visible, best.value) <= ScoreAt(visible, at) &&
      (Before(at, best.value) ==> ScoreAt(visible, best.value) < ScoreAt(visible, at)))
  }

  lemma NextRow(trig: Trig, count: int, visible: Size, at: Slot, best: Option<Slot>, next: Option<Slot>)
    requires BestBefore(trig, count, visible, at, best)
    requires next == if Admits(trig, count, visible, at) &&
             (best.None? || ScoreAt(visible, at) < ScoreAt(visible, best.value)) then Some(at) else best
    ensures BestBefore(trig, count, visible, Slot(at.column, at.row + 1), next)
  {
    hide Admits, ScoreAt;
  }

  lemma NextColumn(trig: Trig, count: int, visible: Size, at: Slot, best: Option<Slot>)
    requires BestBefore(trig, count, visible, at, best) && MinHeight() + at.row * SEARCH_STEP > MaxHeight(count)
    ensures BestBefore(trig, count, visible, Slot(at.column + 1, 0), best)
  {
    hide Layout, Score, Candidate, ScoreAt, MaxHeight, MaxWidth;
    forall p | Admits(trig, count, visible, p) && Before(p, Slot(at.column + 1, 0)) ensures Before(p, at) {
      assert p.row < at.row || p.column < at.column;
    }
  }

  lemma AllSearched(trig: Trig, count: int, visible: Size, at: Slot, best: Option<Slot>)
    requires BestBefore(trig, count, visible, at, best) && MinWidth() + at.column * SEARCH_STEP > MaxWidth(count)
    ensures BestOf(trig, count, visible, best)
  {
    hide Layout, Score, Candidate, ScoreAt, MaxHeight, MaxWidth;
    forall p | Admits(trig, count, visible, p) ensures Before(p, at) {
    }
  }

  ghost predicate IsWorkspace(trig: Trig, count: int, visible: Size, best: Option<Slot>, size: Size) {
    if count <= 0 || Layout(trig, count, visible).Some? then size == visible
    else BestOf(trig, count, visible, best) && size == if best.Some? then Candidate(visible, best.value)
      else Largest(count, visible)
  }

  /** What the search has found once all places before `limit` are done. */
  ghost predicate Found(trig: Trig, count: int, visible: Size, limit: Slot, best: Option<Size>, score: real) {
    exists at :: FoundAt(trig, count, visible, limit, at, best, score)
  }

  ghost predicate FoundAt(trig: Trig, count: int, visible: Size, limit: Slot, at: Option<Slot>, best: Option<Size>,
                          score: real) {
    BestBefore(trig, count, visible, limit, at) && (at.None? <==> best.None?) &&
    (at.Some? ==> best.value == Candidate(visible, at.value) && Score(visible, best.value) == Some(score))
  }

  method MinimumTwoRingWorkspaceSize(trig: Trig, count: int, visible: Size) returns (size: Size)
    ensures exists best :: IsWorkspace(trig, count, visible, best, size)
    ensures size.width >= visible.width && size.height >= visible.height
    ensures IsTrig(trig) && FailureIsFinal(count, visible) ==>
              (Layout(trig, count, size).Some? <==>
               Layout(trig, count, visible).Some? || exists at :: Admits(trig, count, visible, at))
    ensures IsTrig(trig) && count > CAPACITY ==> Layout(trig, count, size).None?
  {
    size := SearchWorkspace(trig, count, visible);
    hide IsWorkspace, Layout, Admits, FailureIsFinal, IsTrig;
    ghost var best :| IsWorkspace(trig, count, visible, best, size);
    WorkspaceNeverShrinks(trig, count, visible, best, size);
    if IsTrig(trig) {
      if FailureIsFinal(count, visible) { WorkspaceAdmitsLayoutIff(trig, count, visible, best, size); }
      if count > CAPACITY { LayoutHasCapacity(trig, count, size); }
    }
  }

  method SearchWorkspace(trig: Trig, count: int, visible: Size) returns (size: Size)
    ensures exists best :: IsWorkspace(trig, count, visible, best, size)
  {
    hide Layout, Score, BestBefore, BestOf, MaxWidth, MaxHeight;
    if count <= 0 {
      assert IsWorkspace(trig, count, visible, None, visible);
      return visible;
    }
    var shown := BuildCanvasPointsForSize(trig, count, visible);
    if shown.Some? {
      assert IsWorkspace(trig, count, visible, None, visible);
      return visible;
    }
    var best: Option<Size> := None;
    var bestScore := 0.0;
    ghost var column := 0;
    NothingSearched(trig, count, visible);
    assert FoundAt(trig, count, visible, Slot(0, 0), None, best, bestScore);
    var width := MinWidth();
    while width <= MaxWidth(count)
      invariant width == MinWidth() + column * SEARCH_STEP
      invariant Found(trig, count, visible, Slot(column, 0), best, bestScore)
      decreases MaxWidth(count) - width
    {
      best, bestScore := SearchColumn(trig, count, visible, width, best, bestScore, column);
      column := column + 1;
      width := width + SEARCH_STEP;
    }
    ghost var at :| FoundAt(trig, count, visible, Slot(column, 0), at, best, bestScore);
    AllSearched(trig, count, visible, Slot(column, 0), at);
    size := if best.Some? then best.value else Largest(count, visible);
    assert IsWorkspace(trig, count, visible, at, size);
  }

  lemma NothingSearched(trig: Trig, count: int, visible: Size)
    ensures BestBefore(trig, count, visible, Slot(0, 0), None)
  {
  }

  /** The inner loop: all heights for one width. */
  method SearchColumn(trig: Trig, count: int, visible: Size, width: int, best0: Option<Size>, score0: real,
                      ghost column: nat)
    returns (best: Option<Size>, bestScore: real)
    requires width == MinWidth() + column * SEARCH_STEP <= MaxWidth(count)
    requires Found(trig, count, visible, Slot(column, 0), best0, score0)
    ensures Found(trig, count, visible, Slot(column + 1, 0), best, bestScore)
  {
    hide Layout, Score, BestBefore, MaxWidth, MaxHeight;
    best, bestScore := best0, score0;
    ghost var at :| FoundAt(trig, count, visible, Slot(column, 0), at, best, bestScore);
    ghost var row := 0;
    var height := MinHeight();
    while height <= MaxHeight(count)
      invariant height == MinHeight() + row * SEARCH_STEP
      invariant FoundAt(trig, count, visible, Slot(column, row), at, best, bestScore)
      decreases MaxHeight(count) - height
    {
      ghost var here := Slot(column, row);
      ghost var was := at;
      var candidate := Grown(visible, width, height);
      var points := BuildCanvasPointsForSize(trig, count, candidate);
      if points.Some? {
        var score := Score(visible, candidate);
        if score.Some? && (best.None? || score.value < bestScore) {
          best, bestScore, at := Some(candidate), score.value, Some(here);
        }
      }
      NextRow(trig, count, visible, here, was, at);
      row := row + 1;
      height := height + SEARCH_STEP;
    }
    NextColumn(trig, count, visible, Slot(column, row), at);
    assert FoundAt(trig, count, visible, Slot(column + 1, 0), at, best, bestScore);
  }

  // ---- What the search promises ------------------------------------------------------

  /** The workspace is never smaller than what is visible. */
  lemma WorkspaceNeverShrinks(trig: Trig, count: int, visible: Size, best: Option<Slot>, size: Size)
    requires IsWorkspace(trig, count, visible, best, size)
    ensures AtLeast(size, visible)
  {
  }

  /** More than 16 cards, or a visible width of at least the largest searched one: then the size that
      is taken when the search fails offers nothing the grid did not. */
  predicate FailureIsFinal(count: int, visible: Size) {
    visible.height != 0.0 && (count > 16 || visible.width >= 1332.0)
  }

  /** When the search fails under that condition, the size taken instead has no layout either. */
  lemma FailedSearchNeverFits(trig: Trig, count: int, visible: Size)
    requires IsTrig(trig) && count > 0 && FailureIsFinal(count, visible)
    requires forall at :: !Admits(trig, count, visible, at)
    ensures Layout(trig, count, Largest(count, visible)).None?
  {
    hide IsTrig, Layout;
    if count > 16 {
      var last := Slot(31, 36);
      assert !Admits(trig, count, visible, last);
      LayoutSettles(trig, count, Candidate(visible, last));
      LayoutSettles(trig, count, Largest(count, visible));
    } else {
      assert !Admits(trig, count, visible, Slot(29, 34));
      assert Candidate(visible, Slot(29, 34)) == Largest(count, visible);
    }
  }

  /** The workspace admits a layout exactly when the visible size or some place of the grid does. */
  lemma WorkspaceAdmitsLayoutIff(trig: Trig, count: int, visible: Size, best: Option<Slot>, size: Size)
    requires IsTrig(trig) && FailureIsFinal(count, visible)
    requires IsWorkspace(trig, count, visible, best, size)
    ensures Layout(trig, count, size).Some? <==>
              Layout(trig, count, visible).Some? || exists at :: Admits(trig, count, visible, at)
  {
    hide IsTrig, OuterFirst, Ring, Candidate, ScoreAt, Admits, BestOf, FailureIsFinal, Largest;
    if count > 0 && Layout(trig, count, visible).None? {
      BestIsAdmitted(trig, count, visible, best);
      if best.None? { FailedSearchNeverFits(trig, count, visible); }
    }
  }

  lemma BestIsAdmitted(trig: Trig, count: int, visible: Size, best: Option<Slot>)
    requires BestOf(trig, count, visible, best)
    ensures best.Some? <==> exists at :: Admits(trig, count, visible, at)
    ensures best.Some? ==> Layout(trig, count, Candidate(visible, best.value)).Some?
  {
    hide Layout, Candidate, Score, ScoreAt;
  }

  /** The rings stop growing with the canvas, so the part of the grid that is searched only for more
      than 16 cards finds nothing its first place does not offer. */
  lemma WiderSearchFindsNothingNew(trig: Trig, count: int, visible: Size, at: Slot)
    requires IsTrig(trig) && InGrid(count, at) && at.column >= 31 && at.row >= 36
    ensures Admits(trig, count, visible, at) <==> Admits(trig, count, visible, Slot(31, 36))
  {
    hide IsTrig, Layout;
    LayoutSettles(trig, count, Candidate(visible, at));
    LayoutSettles(trig, count, Candidate(visible, Slot(31, 36)));
  }

  /** More than 48 cards are never shown without overlap: the visible size has no layout, no place of
      the grid is admitted, and neither is the workspace that comes back. */
  lemma ManyCardsNeverFit(trig: Trig, count: int, visible: Size, best: Option<Slot>, size: Size)
    requires IsTrig(trig) && count > CAPACITY && IsWorkspace(trig, count, visible, best, size)
    ensures Layout(trig, count, visible).None? && (forall at :: !Admits(trig, count, visible, at))
    ensures size == Largest(count, visible) && Layout(trig, count, size).None?
  {
    hide IsTrig, Layout, Candidate, ScoreAt, Score, Largest;
    LayoutHasCapacity(trig, count, visible);
    LayoutHasCapacity(trig, count, size);
    forall at ensures !Admits(trig, count, visible, at) {
      LayoutHasCapacity(trig, count, Candidate(visible, at));
    }
  }

  /** The search result is determined: the lowest score, and the first place among equals. */
  lemma WorkspaceIsDetermined(trig: Trig, count: int, visible: Size, a: Option<Slot>, sizeA: Size, b: Option<Slot>,
                              sizeB: Size)
    requires IsWorkspace(trig, count, visible, a, sizeA) && IsWorkspace(trig, count, visible, b, sizeB)
    ensures sizeA == sizeB
  {
    hide Layout, Candidate, Score, ScoreAt, Admits, Largest;
    if count > 0 && Layout(trig, count, visible).None? && a.Some? && b.Some? {
      assert a.value == b.value || Before(a.value, b.value) || Before(b.value, a.value);
    }
  }
}
