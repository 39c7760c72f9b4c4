/** The colour-change snap (setBeforeColorChange): from a point of the
    captured screenshot, walk pixel by pixel in one arrow direction while
    the next pixel is inside the bitmap and has the start pixel's colour. */
module Snap {
  import opened Wrappers
  import opened Win32
  import opened Geometry

  /** An RGB COLORREF (0x00BBGGRR), as GetPixel returns it for a pixel of the bitmap. */
  type Color = c: int | 0 <= c <= 0xFF_FFFF

  /** What GetPixel returns for a position outside the bitmap. */
  const ClrInvalid: int := 0xFFFF_FFFF

  predicate Rectangular(rows: seq<seq<Color>>) {
    forall y :: 0 <= y < |rows| ==> |rows[y]| == |rows[0]|
  }

  /** The captured screenshot: rows top to bottom, each row left to right. */
  type Image = rows: seq<seq<Color>> | Rectangular(rows) witness []

  function Width(img: Image): nat {
    if |img| == 0 then 0 else |img[0]|
  }

  function Height(img: Image): nat {
    |img|
  }

  function ExtentOf(img: Image): Extent {
    Extent(Width(img), Height(img))
  }

  /** The extent the clamps see: none when there is no bitmap. */
  function ExtentOfShot(shot: Option<Image>): Option<Extent> {
    if shot.None? then None else Some(ExtentOf(shot.value))
  }

  predicate InImage(img: Image, x: int, y: int) {
    0 <= x < Width(img) && 0 <= y < Height(img)
  }

  /** GetPixel on the screenshot's device context. */
  function GetPixel(img: Image, x: int, y: int): (c: int)
    ensures InImage(img, x, y) ==> c == img[y][x]
    ensures !InImage(img, x, y) ==> c == ClrInvalid
  {
    if InImage(img, x, y) then img[y][x] else ClrInvalid
  }

  /** A bitmap pixel never reads as CLR_INVALID, so a pixel compares equal to
      a pixel colour only inside the bitmap. */
  lemma GetPixelValidOnlyInside(img: Image, x: int, y: int)
    ensures InImage(img, x, y) <==> GetPixel(img, x, y) != ClrInvalid
  {
  }

  /** A unit step of an arrow key. */
  datatype Direction = Direction(dx: int, dy: int)

  predicate IsUnit(d: Direction) {
    Abs(d.dx) + Abs(d.dy) == 1
  }

  /** The arrow keys, VK_UP, VK_DOWN, VK_LEFT and VK_RIGHT; any other key has no direction. */
  function DirectionOf(vk: int): (d: Option<Direction>)
    ensures d.Some? <==> vk in {VkUp, VkDown, VkLeft, VkRight}
    ensures d.Some? ==> IsUnit(d.value)
    ensures d.Some? ==> (d.value.dx < 0 <==> vk == VkLeft) && (d.value.dx > 0 <==> vk == VkRight)
    ensures d.Some? ==> (d.value.dy < 0 <==> vk == VkUp) && (d.value.dy > 0 <==> vk == VkDown)
  {
    if vk == VkUp then Some(Direction(0, -1))
    else if vk == VkDown then Some(Direction(0, 1))
    else if vk == VkLeft then Some(Direction(-1, 0))
    else if vk == VkRight then Some(Direction(1, 0))
    else None
  }

  /** The pixel `i` steps from (x, y) in direction d. */
  function PixelAt(img: Image, x: int, y: int, d: Direction, i: int): int {
    GetPixel(img, x + i * d.dx, y + i * d.dy)
  }

  /** The loop of setBeforeColorChange takes one more step from (x, y): the
      next pixel has the reference colour and is inside the bitmap. */
  predicate CanStep(img: Image, ref: int, x: int, y: int, d: Direction) {
    GetPixel(img, x + d.dx, y + d.dy) == ref && InImage(img, x + d.dx, y + d.dy)
  }

  /** How many steps remain before (x, y) reaches the bitmap edge in direction d. */
  function Room(img: Image, x: int, y: int, d: Direction): int {
    if d.dx > 0 then Width(img) - 1 - x
    else if d.dx < 0 then x
    else if d.dy > 0 then Height(img) - 1 - y
    else y
  }

  lemma ShiftOne(v: int, delta: int, i: int)
    ensures v + i * delta == (v + delta) + (i - 1) * delta
  {
  }

  /** Looking `i` steps ahead from (x, y) is looking `i - 1` steps ahead from the next pixel. */
  lemma PixelAtShift(img: Image, x: int, y: int, d: Direction, i: int)
    ensures PixelAt(img, x, y, d, i) == PixelAt(img, x + d.dx, y + d.dy, d, i - 1)
    ensures x + i * d.dx == (x + d.dx) + (i - 1) * d.dx
    ensures y + i * d.dy == (y + d.dy) + (i - 1) * d.dy
  {
    ShiftOne(x, d.dx, i);
    ShiftOne(y, d.dy, i);
  }

  /** The number of steps the walk takes from (x, y) against reference colour
      `ref`: every pixel it passes over has that colour and lies inside the
      bitmap, and at the pixel where it stops no further step is possible. */
  function Steps(img: Image, ref: int, x: int, y: int, d: Direction): (n: nat)
    requires IsUnit(d)
    ensures forall i {:trigger PixelAt(img, x, y, d, i)} :: 1 <= i <= n ==>
      PixelAt(img, x, y, d, i) == ref && InImage(img, x + i * d.dx, y + i * d.dy)
    ensures !CanStep(img, ref, x + n * d.dx, y + n * d.dy, d)
    decreases Room(img, x, y, d)
  {
    if CanStep(img, ref, x, y, d) then
      var rest := Steps(img, ref, x + d.dx, y + d.dy, d);
      forall i | 2 <= i <= rest + 1
        ensures PixelAt(img, x, y, d, i) == ref && InImage(img, x + i * d.dx, y + i * d.dy)
      {
        PixelAtShift(img, x, y, d, i);
        assert PixelAt(img, x + d.dx, y + d.dy, d, i - 1) == ref;
      }
      PixelAtShift(img, x, y, d, 1);
      PixelAtShift(img, x, y, d, rest + 1);
      1 + rest
    else
      0
  }

  /** One more step of the walk from the n-th pixel leaves one step fewer to take. */
  lemma WalkStep(img: Image, ref: int, x0: int, y0: int, d: Direction, n: nat, x: int, y: int)
    requires IsUnit(d)
    requires x == x0 + n * d.dx && y == y0 + n * d.dy
    requires Steps(img, ref, x0, y0, d) == n + Steps(img, ref, x, y, d)
    requires CanStep(img, ref, x, y, d)
    ensures x + d.dx == x0 + (n + 1) * d.dx && y + d.dy == y0 + (n + 1) * d.dy
    ensures Steps(img, ref, x0, y0, d) == n + 1 + Steps(img, ref, x + d.dx, y + d.dy, d)
  {
    ShiftOne(x0, d.dx, n + 1);
    ShiftOne(y0, d.dy, n + 1);
  }

  /** Outcome of setBeforeColorChange: success and the (possibly moved) point. */
  datatype SnapResult = SnapResult(ok: bool, x: int, y: int)

  /** setBeforeColorChange as a function. Without a bitmap or for a key that
      is not an arrow it fails and leaves the point where it was; otherwise
      it moves the point to the last pixel before the colour changes or the
      bitmap ends. */
  function SnapToColorChange(shot: Option<Image>, vk: int, x: int, y: int): (r: SnapResult)
    ensures (shot.None? || DirectionOf(vk).None?) <==> !r.ok
    ensures !r.ok ==> r.x == x && r.y == y
    ensures r.ok && InImage(shot.value, x, y) ==>
      InImage(shot.value, r.x, r.y) && GetPixel(shot.value, r.x, r.y) == GetPixel(shot.value, x, y)
    ensures r.ok && !InImage(shot.value, x, y) ==> r.x == x && r.y == y
  {
    if shot.None? then SnapResult(false, x, y)
    else
      var dir := DirectionOf(vk);
      if dir.None? then SnapResult(false, x, y)
      else
        var img, d := shot.value, dir.value;
        var ref := GetPixel(img, x, y);
        var n := Steps(img, ref, x, y, d);
        if n == 0 then SnapResult(true, x, y)
        else
          assert PixelAt(img, x, y, d, n) == ref;
          SnapResult(true, x + n * d.dx, y + n * d.dy)
  }

  /** The walk of setBeforeColorChange as the C++ code writes it: a loop that
      checks the next pixel's colour, then the four bitmap edges, then steps
      through the clamps. It computes the same point as SnapToColorChange;
      every pixel it passes has the start colour, and it stops exactly where
      the next pixel is outside the bitmap or of another colour. */
  method SetBeforeColorChange(shot: Option<Image>, vk: int, x0: int, y0: int) returns (ok: bool, x: int, y: int)
    ensures SnapResult(ok, x, y) == SnapToColorChange(shot, vk, x0, y0)
    ensures ok ==> GetPixel(shot.value, x, y) == GetPixel(shot.value, x0, y0)
    ensures ok ==> !CanStep(shot.value, GetPixel(shot.value, x0, y0), x, y, DirectionOf(vk).value)
  {
    x, y := x0, y0;
    if shot.None? {
      return false, x, y;
    }
    var img := shot.value;
    var w: int, h: int := Width(img), Height(img);
    var ref := GetPixel(img, x, y);
    var dir := DirectionOf(vk);
    if dir.None? {
      return false, x, y;
    }
    var d := dir.value;
    ghost var n: nat := 0;
    while true
      invariant x == x0 + n * d.dx && y == y0 + n * d.dy
      invariant Steps(img, ref, x0, y0, d) == n + Steps(img, ref, x, y, d)
      invariant GetPixel(img, x, y) == ref
      decreases Room(img, x, y, d)
    {
      if GetPixel(img, x + d.dx, y + d.dy) != ref { break; }
      if x + d.dx < 0 { break; }
      if x + d.dx > w - 1 { break; }
      if y + d.dy < 0 { break; }
      if y + d.dy > h - 1 { break; }
      WalkStep(img, ref, x0, y0, d, n, x, y);
      x := Limit(x + d.dx, w);
      y := Limit(y + d.dy, h);
      n := n + 1;
    }
    ok := true;
    assert Steps(img, ref, x, y, d) == 0;
  }
}
