/** Editing the selection rectangle during a capture: the program states
    that decide which point is edited, resizing around the centre, arrow-key
    moves and colour snaps, mouse tracking, select-all, stepping through the
    monitors, and seeding the rectangle when point selection (re)starts. */
module Selection {
  import opened Wrappers
  import opened Win32
  import opened Geometry
  import opened Snap

  /** The four program states: hidden in the tray, choosing the first point,
      editing point A (left, top) and editing point B (right, bottom). */
  datatype AppState = TrayIcon | FirstPoint | PointA | PointB

  predicate Editing(state: AppState) {
    state == PointA || state == PointB
  }

  /** A missing bitmap (the clamps then do nothing) or one of at least one pixel. */
  predicate Usable(bm: Option<Extent>) {
    bm.None? || (bm.value.width >= 1 && bm.value.height >= 1)
  }

  /** The point the keyboard and mouse move in a state: (left, top) for the
      first point and for A, (right, bottom) for B. */
  function ActivePoint(state: AppState, sel: Rect): (int, int) {
    if state == PointB then (sel.right, sel.bottom) else (sel.left, sel.top)
  }

  /** The rectangle with the active point of `state` replaced by `p`. */
  function WithActivePoint(state: AppState, sel: Rect, p: (int, int)): Rect {
    if state == PointB then sel.(right := p.0, bottom := p.1) else sel.(left := p.0, top := p.1)
  }

  /** The rectangle lies inside the bitmap. */
  predicate InBitmap(sel: Rect, e: Extent) {
    && 0 <= sel.left < e.width && 0 <= sel.right < e.width
    && 0 <= sel.top < e.height && 0 <= sel.bottom < e.height
  }

  /** resizeSelection: '+' (step 1) and '-' (step -1) while editing A or B.
      Each axis either collapses (a shrink by more than the axis allows) or
      moves both of its edges outward by `step`, following the drag direction,
      and clamps them. The width collapses to the clamped midpoint; the height
      collapses onto the clamped top, because the program averages `top` with
      itself. Neither axis ever changes orientation. */
  function ResizeSelection(state: AppState, sel: Rect, step: int, bm: Option<Extent>): (r: Rect)
    ensures !Editing(state) ==> r == sel
    ensures Editing(state) && step < 0 && Abs(sel.right - sel.left) < Abs(step * 2) ==>
      r.left == r.right == LimitX(CDiv(sel.right + sel.left, 2), bm)
    ensures Editing(state) && step < 0 && Abs(sel.top - sel.bottom) < Abs(step * 2) ==>
      r.top == r.bottom == LimitY(sel.top, bm)
    ensures Editing(state) && !(step < 0 && Abs(sel.right - sel.left) < Abs(step * 2)) ==>
      if sel.left <= sel.right then r.left == LimitX(sel.left - step, bm) && r.right == LimitX(sel.right + step, bm)
      else r.left == LimitX(sel.left + step, bm) && r.right == LimitX(sel.right - step, bm)
    ensures Editing(state) && !(step < 0 && Abs(sel.top - sel.bottom) < Abs(step * 2)) ==>
      if sel.top <= sel.bottom then r.top == LimitY(sel.top - step, bm) && r.bottom == LimitY(sel.bottom + step, bm)
      else r.top == LimitY(sel.top + step, bm) && r.bottom == LimitY(sel.bottom - step, bm)
    ensures Usable(bm) ==> (sel.left <= sel.right ==> r.left <= r.right) && (sel.left > sel.right ==> r.left >= r.right)
    ensures Usable(bm) ==> (sel.top <= sel.bottom ==> r.top <= r.bottom) && (sel.top > sel.bottom ==> r.top >= r.bottom)
    ensures Editing(state) && bm.Some? && Usable(bm) ==> InBitmap(r, bm.value)
  {
    if !Editing(state) then sel
    else
      var (left, right) :=
        if step < 0 && Abs(sel.right - sel.left) < Abs(step * 2) then
          var mid := LimitX(CDiv(sel.right + sel.left, 2), bm);
          (mid, mid)
        else if sel.left <= sel.right then
          (LimitX(sel.left - step, bm), LimitX(sel.right + step, bm))
        else
          (LimitX(sel.left + step, bm), LimitX(sel.right - step, bm));
      var (top, bottom) :=
        if step < 0 && Abs(sel.top - sel.bottom) < Abs(step * 2) then
          var t := LimitY(CDiv(sel.top + sel.top, 2), bm);
          (t, t)
        else if sel.top <= sel.bottom then
          (LimitY(sel.top - step, bm), LimitY(sel.bottom + step, bm))
        else
          (LimitY(sel.top + step, bm), LimitY(sel.bottom - step, bm));
      Rect(left, top, right, bottom)
  }

  /** When no clamp bites and the width does not collapse, resizing keeps the
      horizontal centre and changes the width by twice the step. */
  lemma ResizeWidthAroundCentre(state: AppState, sel: Rect, step: int, e: Extent)
    requires Editing(state)
    requires !(step < 0 && Abs(sel.right - sel.left) < Abs(step * 2))
    requires 0 <= Min(sel.left, sel.right) - step && Max(sel.left, sel.right) + step <= e.width - 1
    ensures ResizeSelection(state, sel, step, Some(e)).left + ResizeSelection(state, sel, step, Some(e)).right == sel.left + sel.right
    ensures Dist(ResizeSelection(state, sel, step, Some(e)).right, ResizeSelection(state, sel, step, Some(e)).left) == Dist(sel.right, sel.left) + 2 * step
  {
  }

  /** The same for the height: when no clamp bites and the height does not
      collapse, resizing keeps the vertical centre and changes the height by
      twice the step. */
  lemma ResizeHeightAroundCentre(state: AppState, sel: Rect, step: int, e: Extent)
    requires Editing(state)
    requires !(step < 0 && Abs(sel.top - sel.bottom) < Abs(step * 2))
    requires 0 <= Min(sel.top, sel.bottom) - step && Max(sel.top, sel.bottom) + step <= e.height - 1
    ensures ResizeSelection(state, sel, step, Some(e)).top + ResizeSelection(state, sel, step, Some(e)).bottom == sel.top + sel.bottom
    ensures Dist(ResizeSelection(state, sel, step, Some(e)).bottom, ResizeSelection(state, sel, step, Some(e)).top) == Dist(sel.bottom, sel.top) + 2 * step
  {
  }

  /** Growing by one and then shrinking by one gives back a selection whose
      edges are at least one pixel from the bitmap's border. */
  lemma GrowThenShrink(state: AppState, sel: Rect, e: Extent)
    requires Editing(state)
    requires sel.left <= sel.right && sel.top <= sel.bottom
    requires 1 <= sel.left && sel.right + 1 <= e.width - 1 && 1 <= sel.top && sel.bottom + 1 <= e.height - 1
    ensures ResizeSelection(state, ResizeSelection(state, sel, 1, Some(e)), -1, Some(e)) == sel
  {
  }

  /** The height collapse lands on `top`, not on the midpoint: for a
      two-pixel-high selection dragged upward the width collapses onto
      the midpoint 10 while the height collapses onto the top 11. */
  lemma ResizeHeightCollapsesOntoTop()
    ensures ResizeSelection(PointB, Rect(11, 11, 10, 10), -1, Some(Extent(100, 100))) == Rect(10, 11, 10, 11)
  {
  }

  /** checkCursorButtons: an arrow key moves the active point by `step`
      pixels (1 for a plain key, 10 with Alt) in the key's direction, clamping
      only the coordinate that moves; with Shift it snaps the active point to
      the last pixel before the next colour change instead. The other point,
      keys other than arrows and the tray state are left alone. */
  function CheckCursorButtons(state: AppState, sel: Rect, vk: int, step: int, shift: bool, shot: Option<Image>): (r: Rect)
    ensures DirectionOf(vk).None? || state == TrayIcon ==> r == sel
    ensures state != PointB ==> r.right == sel.right && r.bottom == sel.bottom
    ensures state == PointB ==> r.left == sel.left && r.top == sel.top
    ensures DirectionOf(vk).Some? && state != TrayIcon && !shift ==>
      var (px, py) := ActivePoint(state, sel);
      var d := DirectionOf(vk).value;
      ActivePoint(state, r) ==
        ( if d.dx == 0 then px else LimitX(px + d.dx * step, ExtentOfShot(shot)),
          if d.dy == 0 then py else LimitY(py + d.dy * step, ExtentOfShot(shot)) )
    ensures DirectionOf(vk).Some? && state != TrayIcon && shift ==>
      var (px, py) := ActivePoint(state, sel);
      var snap := SnapToColorChange(shot, vk, px, py);
      ActivePoint(state, r) == (snap.x, snap.y)
  {
    var bm := ExtentOfShot(shot);
    if state == TrayIcon then sel
    else
      var (px, py) := ActivePoint(state, sel);
      var p :=
        if shift then
          var snap := SnapToColorChange(shot, vk, px, py);
          (snap.x, snap.y)
        else if vk == VkUp then (px, LimitY(py - step, bm))
        else if vk == VkDown then (px, LimitY(py + step, bm))
        else if vk == VkLeft then (LimitX(px - step, bm), py)
        else if vk == VkRight then (LimitX(px + step, bm), py)
        else (px, py);
      WithActivePoint(state, sel, p)
  }

  /** An arrow key never moves the active point out of the bitmap. */
  lemma CursorKeysStayInBitmap(state: AppState, sel: Rect, vk: int, step: int, shift: bool, img: Image)
    requires state != TrayIcon
    requires Width(img) >= 1 && Height(img) >= 1
    requires InImage(img, ActivePoint(state, sel).0, ActivePoint(state, sel).1)
    ensures var r := CheckCursorButtons(state, sel, vk, step, shift, Some(img));
      InImage(img, ActivePoint(state, r).0, ActivePoint(state, r).1)
  {
    var (px, py) := ActivePoint(state, sel);
    var r := CheckCursorButtons(state, sel, vk, step, shift, Some(img));
    if shift && DirectionOf(vk).Some? {
      var snap := SnapToColorChange(Some(img), vk, px, py);
      assert ActivePoint(state, r) == (snap.x, snap.y);
    }
  }

  /** The selection and the last position seen by OnMouseMove. */
  datatype MouseResult = MouseResult(sel: Rect, last: (int, int))

  /** OnMouseMove: the active point follows the cursor, clamped into the
      bitmap; the other point stays. A report of the position seen last time
      is ignored, and in the tray state nothing moves. */
  function OnMouseMove(state: AppState, sel: Rect, last: (int, int), x: int, y: int, bm: Option<Extent>): (m: MouseResult)
    ensures (x, y) == last ==> m == MouseResult(sel, last)
    ensures (x, y) != last ==> m.last == (x, y)
    ensures (x, y) != last && state != TrayIcon ==>
      && ActivePoint(state, m.sel) == (LimitX(x, bm), LimitY(y, bm))
      && WithActivePoint(state, m.sel, ActivePoint(state, sel)) == sel
    ensures state == TrayIcon ==> m.sel == sel
  {
    if (x, y) == last then MouseResult(sel, last)
    else
      var sel' :=
        match state
        case FirstPoint => sel.(left := LimitX(x, bm), top := LimitY(y, bm))
        case PointA => sel.(left := LimitX(x, bm), top := LimitY(y, bm))
        case PointB => sel.(right := LimitX(x, bm), bottom := LimitY(y, bm))
        case TrayIcon => sel;
      MouseResult(sel', (x, y))
  }

  /** WM_SELECTALL: the whole bitmap, from (0, 0) to (width - 1, height - 1).
      Without a bitmap nothing is selected. */
  function SelectAll(bm: Option<Extent>): (r: Option<Rect>)
    ensures r.Some? <==> bm.Some?
    ensures bm.Some? && bm.value.width >= 1 && bm.value.height >= 1 ==>
      r.value == Rect(0, 0, bm.value.width - 1, bm.value.height - 1)
  {
    if bm.None? then None
    else Some(Rect(LimitX(0, bm), LimitY(0, bm), LimitX(bm.value.width - 1, bm), LimitY(bm.value.height - 1, bm)))
  }

  /** The monitor after `index` in enumeration order, wrapping to the first. */
  function NextIndex(index: nat, count: nat): (next: nat)
    requires count > 0
    ensures next < count
    ensures index < count ==> next == (index + 1) % count
  {
    if index + 1 >= count then 0 else index + 1
  }

  /** `k` presses of 'M' starting from monitor `index`. */
  function NextIndexN(index: nat, count: nat, k: nat): nat
    requires count > 0
  {
    if k == 0 then index else NextIndex(NextIndexN(index, count, k - 1), count)
  }

  /** Fewer presses than it takes to pass the last monitor just count up. */
  lemma {:induction false} NextIndexNCountsUp(index: nat, count: nat, k: nat)
    requires count > 0 && index + k < count
    ensures NextIndexN(index, count, k) == index + k
  {
    if k > 0 {
      NextIndexNCountsUp(index, count, k - 1);
    }
  }

  /** a + b presses are a presses followed by b presses. */
  lemma {:induction false} NextIndexNAdd(index: nat, count: nat, a: nat, b: nat)
    requires count > 0
    ensures NextIndexN(index, count, a + b) == NextIndexN(NextIndexN(index, count, a), count, b)
  {
    if b > 0 {
      NextIndexNAdd(index, count, a, b - 1);
      assert a + b - 1 == a + (b - 1);
    }
  }

  /** After as many presses of 'M' as there are monitors, the same monitor is selected again. */
  lemma NextMonitorCycles(index: nat, count: nat)
    requires count > 0 && index < count
    ensures NextIndexN(index, count, count) == index
  {
    var toLast := count - 1 - index;
    NextIndexNCountsUp(index, count, toLast);
    assert NextIndexN(index, count, toLast + 1) == 0;
    NextIndexNAdd(index, count, toLast + 1, index);
    if index > 0 {
      NextIndexNCountsUp(0, count, index);
    }
    assert toLast + 1 + index == count;
  }

  /** Result of the 'M' key: the new monitor index and the selection. */
  datatype MonitorPick = MonitorPick(index: nat, sel: Rect)

  /** 'M': select the next monitor's rectangle. Monitor rectangles are in
      virtual-desktop coordinates and half-open; the selection is the same
      area in bitmap coordinates (shifted by the window origin) with
      inclusive right and bottom edges, clamped into the bitmap. */
  function NextMonitor(monitors: seq<Rect>, index: nat, origin: (int, int), bm: Option<Extent>): (p: Option<MonitorPick>)
    ensures p.Some? <==> |monitors| > 0
    ensures p.Some? ==> p.value.index < |monitors| && p.value.index == NextIndex(index, |monitors|)
    ensures p.Some? && bm.Some? ==>
      var m := monitors[p.value.index];
      var local := Rect(m.left - origin.0, m.top - origin.1, m.right - origin.0 - 1, m.bottom - origin.1 - 1);
      InBitmap(local, bm.value) ==> p.value.sel == local
  {
    if |monitors| == 0 then None
    else
      var i := NextIndex(index, |monitors|);
      var m := monitors[i];
      Some(MonitorPick(i, Rect(LimitX(m.left - origin.0, bm), LimitY(m.top - origin.1, bm),
                               LimitX(m.right - origin.0 - 1, bm), LimitY(m.bottom - origin.1 - 1, bm))))
  }

  /** A fresh start of point selection. */
  datatype Seeded = Seeded(state: AppState, sel: Rect)

  /** The stored selection, clamped into the bitmap (startCaptureGUI and Home). */
  function ClampRect(r: Rect, bm: Option<Extent>): (c: Rect)
    ensures bm.None? ==> c == r
    ensures bm.Some? && InBitmap(r, bm.value) ==> c == r
    ensures bm.Some? && bm.value.width >= 1 && bm.value.height >= 1 ==> InBitmap(c, bm.value) && IsSelectionValid(c)
  {
    Rect(LimitX(r.left, bm), LimitY(r.top, bm), LimitX(r.right, bm), LimitY(r.bottom, bm))
  }

  /** Seeding in startCaptureGUI: a valid stored selection is reopened,
      clamped, for editing point B; otherwise point selection starts at the
      cursor (in window coordinates, clamped) with point B unset, so the
      seeded rectangle is not yet a valid selection. */
  function Seed(stored: Rect, cursor: (int, int), origin: (int, int), bm: Option<Extent>): (s: Seeded)
    ensures IsSelectionValid(stored) ==> s == Seeded(PointB, ClampRect(stored, bm))
    ensures !IsSelectionValid(stored) ==>
      && s.state == FirstPoint
      && (s.sel.left, s.sel.top) == (LimitX(cursor.0 - origin.0, bm), LimitY(cursor.1 - origin.1, bm))
      && s.sel.right == Uninitialized && s.sel.bottom == Uninitialized
      && !IsSelectionValid(s.sel)
    ensures IsSelectionValid(stored) && bm.Some? && bm.value.width >= 1 && bm.value.height >= 1 ==>
      IsSelectionValid(s.sel) && InBitmap(s.sel, bm.value)
  {
    if IsSelectionValid(stored) then
      Seeded(PointB, ClampRect(stored, bm))
    else
      Seeded(FirstPoint, Rect(LimitX(cursor.0 - origin.0, bm), LimitY(cursor.1 - origin.1, bm), Uninitialized, Uninitialized))
  }
}
