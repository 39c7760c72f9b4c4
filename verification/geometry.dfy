/** Selection geometry: the four-coordinate selection rectangle with its
    "unset" sentinel, the on-demand normalization, the clamps into the
    screenshot bitmap and the crop taken when a selection is saved. */
module Geometry {
  import opened Wrappers
  import opened Win32

  /** `(LONG) 0x80000000`: a coordinate that has not been set yet. */
  const Uninitialized: int := -0x8000_0000

  /** A RECT in bitmap pixel coordinates. (left, top) is point A and
      (right, bottom) is point B; the stored rectangle keeps the drag
      direction, so left > right or top > bottom is allowed. */
  datatype Rect = Rect(left: int, top: int, right: int, bottom: int)

  const UnsetRect: Rect := Rect(Uninitialized, Uninitialized, Uninitialized, Uninitialized)

  /** Size of the captured screenshot bitmap, as GetObject reports it. */
  datatype Extent = Extent(width: int, height: int)

  function Min(a: int, b: int): int { if a <= b then a else b }
  function Max(a: int, b: int): int { if a <= b then b else a }

  /** Distance between two coordinates on one axis. */
  function Dist(a: int, b: int): int { Abs(a - b) }

  /** `v` lies on the closed interval between `lo` and `hi`. */
  predicate InSpan(v: int, lo: int, hi: int) { lo <= v <= hi }

  /** normalizeRectangle: the same rectangle with left <= right and top <= bottom.
      Each axis keeps its two values; only their order may change. */
  function Normalize(r: Rect): (n: Rect)
    ensures n.left <= n.right && n.top <= n.bottom
    ensures (n.left, n.right) == (r.left, r.right) || (n.left, n.right) == (r.right, r.left)
    ensures (n.top, n.bottom) == (r.top, r.bottom) || (n.top, n.bottom) == (r.bottom, r.top)
  {
    var (left, right) := if r.right >= r.left then (r.left, r.right) else (r.right, r.left);
    var (top, bottom) := if r.bottom >= r.top then (r.top, r.bottom) else (r.bottom, r.top);
    Rect(left, top, right, bottom)
  }

  /** The contract of Normalize determines its result: any ordered rectangle
      with the same two values per axis is the normalized one. */
  lemma NormalizeUnique(r: Rect, n: Rect)
    requires n.left <= n.right && n.top <= n.bottom
    requires (n.left, n.right) == (r.left, r.right) || (n.left, n.right) == (r.right, r.left)
    requires (n.top, n.bottom) == (r.top, r.bottom) || (n.top, n.bottom) == (r.bottom, r.top)
    ensures n == Normalize(r)
  {
  }

  /** Normalizing twice is normalizing once. */
  lemma NormalizeIdempotent(r: Rect)
    ensures Normalize(Normalize(r)) == Normalize(r)
  {
  }

  /** The normalized rectangle spans, on each axis, exactly the pixels between the two points. */
  lemma NormalizeIsMinMax(r: Rect)
    ensures Normalize(r) == Rect(Min(r.left, r.right), Min(r.top, r.bottom), Max(r.left, r.right), Max(r.top, r.bottom))
  {
  }

  /** isSelectionValid: no coordinate holds the sentinel. */
  function IsSelectionValid(r: Rect): (valid: bool)
    ensures valid <==> Uninitialized !in {r.left, r.top, r.right, r.bottom}
  {
    !(r.left == Uninitialized || r.right == Uninitialized || r.top == Uninitialized || r.bottom == Uninitialized)
  }

  /** Validity does not depend on the drag direction. */
  lemma NormalizeKeepsValidity(r: Rect)
    ensures IsSelectionValid(Normalize(r)) == IsSelectionValid(r)
  {
  }

  /** Shared body of limitXtoBitmap and limitYtoBitmap once the bitmap size is known:
      saturate `v` into [0, size - 1]. For a bitmap of at least one pixel the result
      is the pixel index nearest to `v`; indices already inside are kept. */
  function Limit(v: int, size: int): (r: int)
    ensures size >= 1 ==> 0 <= r <= size - 1
    ensures 0 <= v <= size - 1 ==> r == v
    ensures size >= 1 ==> forall u {:trigger Dist(u, v)} :: 0 <= u <= size - 1 ==> Dist(r, v) <= Dist(u, v)
  {
    if v < 0 then 0
    else if v > size - 1 then size - 1
    else v
  }

  /** Clamping keeps the order of two coordinates. */
  lemma LimitMonotone(a: int, b: int, size: int)
    requires a <= b
    requires size >= 1
    ensures Limit(a, size) <= Limit(b, size)
  {
  }

  /** limitXtoBitmap: without a bitmap the coordinate is returned unchanged;
      with one, a column left of it becomes 0, one right of it the last
      column, and a column inside is kept. */
  function LimitX(x: int, bm: Option<Extent>): (r: int)
    ensures bm.None? ==> r == x
    ensures bm.Some? && x < 0 ==> r == 0
    ensures bm.Some? && x >= 0 && x > bm.value.width - 1 ==> r == bm.value.width - 1
    ensures bm.Some? && bm.value.width >= 1 ==> 0 <= r < bm.value.width && (0 <= x < bm.value.width ==> r == x)
  {
    if bm.None? then x else Limit(x, bm.value.width)
  }

  /** limitYtoBitmap: the same clamp on rows. */
  function LimitY(y: int, bm: Option<Extent>): (r: int)
    ensures bm.None? ==> r == y
    ensures bm.Some? && y < 0 ==> r == 0
    ensures bm.Some? && y >= 0 && y > bm.value.height - 1 ==> r == bm.value.height - 1
    ensures bm.Some? && bm.value.height >= 1 ==> 0 <= r < bm.value.height && (0 <= y < bm.value.height ==> r == y)
  {
    if bm.None? then y else Limit(y, bm.value.height)
  }

  /** Every rectangle whose four coordinates went through the clamps of a
      bitmap of at least one pixel is valid: 0x80000000 is never a pixel index. */
  lemma ClampedRectIsValid(r: Rect, e: Extent)
    requires e.width >= 1 && e.height >= 1
    ensures IsSelectionValid(Rect(LimitX(r.left, Some(e)), LimitY(r.top, Some(e)), LimitX(r.right, Some(e)), LimitY(r.bottom, Some(e))))
  {
  }

  /** The rectangle copied out of the screenshot by saveSelection, and its size. */
  datatype Crop = Crop(area: Rect, width: int, height: int)

  /** The crop arithmetic of saveSelection: the normalized selection cut down
      to the bitmap. A column (row) is in the crop exactly when it is both
      in the selection and in the bitmap, and width and height count the
      pixels between the crop's edges inclusively. */
  function CropToBitmap(sel: Rect, e: Extent): (c: Crop)
    ensures forall x {:trigger InSpan(x, c.area.left, c.area.right)} ::
      InSpan(x, c.area.left, c.area.right) <==> InSpan(x, Min(sel.left, sel.right), Max(sel.left, sel.right)) && 0 <= x < e.width
    ensures forall y {:trigger InSpan(y, c.area.top, c.area.bottom)} ::
      InSpan(y, c.area.top, c.area.bottom) <==> InSpan(y, Min(sel.top, sel.bottom), Max(sel.top, sel.bottom)) && 0 <= y < e.height
    ensures c.width == c.area.right - c.area.left + 1
    ensures c.height == c.area.bottom - c.area.top + 1
  {
    var n := Normalize(sel);
    var left := if n.left < 0 then 0 else n.left;
    var right := if n.right > e.width - 1 then e.width - 1 else n.right;
    var top := if n.top < 0 then 0 else n.top;
    var bottom := if n.bottom > e.height - 1 then e.height - 1 else n.bottom;
    Crop(Rect(left, top, right, bottom), right - left + 1, bottom - top + 1)
  }

  /** A selection that lies inside the bitmap and passes the confirm test
      (left != right and top != bottom) is saved whole: the crop is the
      normalized selection and is at least two pixels wide and high. */
  lemma ConfirmedCropIsWholeSelection(sel: Rect, e: Extent)
    requires 0 <= sel.left < e.width && 0 <= sel.right < e.width
    requires 0 <= sel.top < e.height && 0 <= sel.bottom < e.height
    requires sel.left != sel.right && sel.top != sel.bottom
    ensures CropToBitmap(sel, e).area == Normalize(sel)
    ensures CropToBitmap(sel, e).width == Dist(sel.right, sel.left) + 1 >= 2
    ensures CropToBitmap(sel, e).height == Dist(sel.bottom, sel.top) + 1 >= 2
  {
  }
}
