/** The geometry of the zoom boxes drawn by zoomMousePosition: when a box is
    left out, which 32 x 32 pixels it samples around its point, and where the
    magnified copy is drawn. Fonts, frames and labels are not modelled. */
module Magnifier {
  import opened Win32
  import opened Geometry
  import opened Selection

  const ZoomWidth: int := 32
  const ZoomHeight: int := 32

  /** The box centred on the first point, and the boxes at final points A and B. */
  datatype BoxType = BoxFirstPointA | BoxFinalPointA | BoxFinalPointB

  /** The box of the point that is being edited. */
  predicate IsActiveBox(state: AppState, box: BoxType) {
    (state == PointA && box == BoxFinalPointA) || (state == PointB && box == BoxFinalPointB)
  }

  /** The box is not drawn: a final-point box of a point that is not being
      edited, while the selection is narrower or lower than the magnified box. */
  function Suppressed(state: AppState, box: BoxType, sel: Rect, zoom: int): (skip: bool)
    ensures box == BoxFirstPointA || IsActiveBox(state, box) ==> !skip
    ensures skip ==> Dist(sel.right, sel.left) < ZoomWidth * zoom || Dist(sel.bottom, sel.top) < ZoomHeight * zoom
  {
    if IsActiveBox(state, box) then false
    else if box != BoxFirstPointA && Abs(sel.right - sel.left) < ZoomWidth * zoom then true
    else if box != BoxFirstPointA && Abs(sel.bottom - sel.top) < ZoomHeight * zoom then true
    else false
  }

  /** The point a box magnifies. */
  function Anchor(box: BoxType, sel: Rect): (int, int) {
    if box == BoxFinalPointB then (sel.right, sel.bottom) else (sel.left, sel.top)
  }

  /** Top-left corners of the sampled 32 x 32 window and of the magnified box
      (32 * zoom pixels square). */
  datatype Placement = Placement(srcX: int, srcY: int, dstX: int, dstY: int)

  /** Left edge of the screen cell that shows sampled column (row) `v`. */
  function CellStart(src: int, dst: int, zoom: int, v: int): int {
    dst + (v - src) * zoom
  }

  /** One axis of a box: the first sampled column (row) and the first screen
      column (row) of the magnified box. */
  datatype Span = Span(src: int, dst: int)

  /** The sampled window and the magnified box contain coordinate `a`, and the
      magnified cell of pixel `a` covers `a` itself. */
  predicate Covers(s: Span, a: int, zoom: int) {
    && s.src <= a < s.src + ZoomWidth
    && s.dst <= a < s.dst + ZoomWidth * zoom
    && CellStart(s.src, s.dst, zoom, a) <= a < CellStart(s.src, s.dst, zoom, a) + zoom
  }

  /** The first-point box on one axis: centred on `a`. */
  function CenteredSpan(a: int, zoom: int): (s: Span)
    requires zoom >= 1
    ensures Covers(s, a, zoom)
  {
    var half := zoom * ZoomWidth / 2;
    assert half == 16 * zoom;
    var dst := a - half - zoom / 2;
    var s := Span(a - ZoomWidth / 2, dst);
    assert CellStart(s.src, s.dst, zoom, a) == dst + 16 * zoom;
    s
  }

  /** A final-point box whose selection extends toward larger coordinates:
      sampled and drawn from `a` onward. */
  function ForwardSpan(a: int, zoom: int): (s: Span)
    requires zoom >= 1
    ensures Covers(s, a, zoom)
    ensures s.src == a && s.dst == a
  {
    Span(a + ZoomWidth / 2 - ZoomWidth / 2, a)
  }

  /** A final-point box whose selection extends toward smaller coordinates:
      sampled and drawn up to `a`. */
  function BackwardSpan(a: int, zoom: int): (s: Span)
    requires zoom >= 1
    ensures Covers(s, a, zoom)
    ensures s.src + ZoomWidth - 1 == a && s.dst + ZoomWidth * zoom - 1 == a
  {
    var s := Span(a - ZoomWidth / 2 + 1 - ZoomWidth / 2, a - zoom * ZoomWidth + 1);
    assert CellStart(s.src, s.dst, zoom, a) == s.dst + 31 * zoom;
    s
  }

  /** The placement computed by zoomMousePosition. The first-point box is
      centred on its point; a final-point box samples the 32 pixels on the
      selection side of its corner and is drawn over them. Either way the
      sampled window and the magnified box contain the point, and the
      magnified cell of the point's own pixel covers the point. ZOOMWIDTH and
      ZOOMHEIGHT are both 32, so one span computation serves both axes. */
  function Place(box: BoxType, sel: Rect, zoom: int): (p: Placement)
    requires zoom >= 1
    ensures var (ax, ay) := Anchor(box, sel);
      Covers(Span(p.srcX, p.dstX), ax, zoom) && Covers(Span(p.srcY, p.dstY), ay, zoom)
  {
    var (x, y) :=
      match box
      case BoxFirstPointA =>
        (CenteredSpan(sel.left, zoom), CenteredSpan(sel.top, zoom))
      case BoxFinalPointA =>
        (if sel.right >= sel.left then ForwardSpan(sel.left, zoom) else BackwardSpan(sel.left, zoom),
         if sel.bottom >= sel.top then ForwardSpan(sel.top, zoom) else BackwardSpan(sel.top, zoom))
      case BoxFinalPointB =>
        (if sel.right < sel.left then ForwardSpan(sel.right, zoom) else BackwardSpan(sel.right, zoom),
         if sel.bottom < sel.top then ForwardSpan(sel.bottom, zoom) else BackwardSpan(sel.bottom, zoom));
    Placement(x.src, y.src, x.dst, y.dst)
  }

  /** A final-point box samples inside the selection: once the selection is
      at least 32 pixels wide and high, all 32 x 32 sampled pixels lie in the
      normalized selection, never outside it. */
  lemma FinalBoxSamplesInsideSelection(box: BoxType, sel: Rect, zoom: int)
    requires zoom >= 1 && box != BoxFirstPointA
    requires Dist(sel.right, sel.left) >= ZoomWidth - 1 && Dist(sel.bottom, sel.top) >= ZoomHeight - 1
    ensures var p := Place(box, sel, zoom);
      var n := Normalize(sel);
      n.left <= p.srcX && p.srcX + ZoomWidth - 1 <= n.right && n.top <= p.srcY && p.srcY + ZoomHeight - 1 <= n.bottom
  {
  }

  /** A final-point box that is drawn for the point not being edited lies
      inside the selection rectangle, flush with that point's corner. */
  lemma DrawnInactiveBoxInsideSelection(state: AppState, box: BoxType, sel: Rect, zoom: int)
    requires zoom >= 1 && box != BoxFirstPointA
    requires !IsActiveBox(state, box) && !Suppressed(state, box, sel, zoom)
    ensures var p := Place(box, sel, zoom);
      var n := Normalize(sel);
      n.left <= p.dstX && p.dstX + ZoomWidth * zoom - 1 <= n.right && n.top <= p.dstY && p.dstY + ZoomHeight * zoom - 1 <= n.bottom
  {
  }

  /** Suppression in full: the first-point box and the edited point's box are
      always drawn; the other final box is skipped exactly when the selection
      is narrower or lower than the magnified box. */
  lemma SuppressionRule(state: AppState, box: BoxType, sel: Rect, zoom: int)
    requires box != BoxFirstPointA && !IsActiveBox(state, box)
    ensures Suppressed(state, box, sel, zoom) <==>
      Dist(sel.right, sel.left) < ZoomWidth * zoom || Dist(sel.bottom, sel.top) < ZoomHeight * zoom
  {
  }
}
