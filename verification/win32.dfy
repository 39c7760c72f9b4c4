/** Value conventions of the Win32 API that the capture engine relies on:
    32-bit DWORD and LONG values, C's truncating division, BOOL negation,
    and the virtual-key and character codes the window procedure switches on. */
module Win32 {

  /** A DWORD, as read from and written to the registry. */
  type uint32 = x: int | 0 <= x < 0x1_0000_0000

  const DwordRange: int := 0x1_0000_0000
  const LongMin: int := -0x8000_0000
  const LongMax: int := 0x7FFF_FFFF

  /** A 32-bit signed LONG, the type of every RECT coordinate. */
  predicate IsLong(v: int) {
    LongMin <= v <= LongMax
  }

  /** Assigning a DWORD to a LONG reinterprets its bit pattern as two's complement. */
  function LongOfDword(d: uint32): (l: int)
    ensures IsLong(l)
    ensures (l - d) % DwordRange == 0
  {
    if d <= LongMax then d else d - DwordRange
  }

  /** Passing a LONG where a DWORD is expected keeps its bit pattern. */
  function DwordOfLong(l: int): (d: uint32)
    ensures (d - l) % DwordRange == 0
  {
    l % DwordRange
  }

  /** A LONG written to the registry as a DWORD is read back unchanged. */
  lemma LongDwordRoundTrip(l: int)
    requires IsLong(l)
    ensures LongOfDword(DwordOfLong(l)) == l
  {
  }

  /** C's `/` on int: the quotient is truncated toward zero, unlike Dafny's Euclidean `/`. */
  function CDiv(a: int, b: int): (q: int)
    requires b > 0
    ensures a >= 0 ==> q * b <= a < q * b + b
    ensures a < 0 ==> q * b - b < a <= q * b
  {
    if a >= 0 then a / b else -((-a) / b)
  }

  /** C's `abs` on int. */
  function Abs(a: int): (r: int)
    ensures r >= 0
    ensures r == a || r == -a
  {
    if a < 0 then -a else a
  }

  /** `!b` on a BOOL: every nonzero value is TRUE. */
  function CNot(b: int): (r: int)
    ensures r == 0 || r == 1
    ensures r == 1 <==> b == 0
  {
    if b == 0 then 1 else 0
  }

  // Virtual-key codes (WM_KEYDOWN / WM_SYSKEYDOWN wParam).
  const VkTab: int := 0x09
  const VkPrior: int := 0x21
  const VkNext: int := 0x22
  const VkHome: int := 0x24
  const VkLeft: int := 0x25
  const VkUp: int := 0x26
  const VkRight: int := 0x27
  const VkDown: int := 0x28
  const VkInsert: int := 0x2D
  const VkDelete: int := 0x2E
  const VkF1: int := 0x70
  const VkF4: int := 0x73
  const KeyA: int := 0x41
  const KeyB: int := 0x42
  const KeyC: int := 0x43
  const KeyF: int := 0x46
  const KeyM: int := 0x4D
  const KeyP: int := 0x50
  const KeyS: int := 0x53

  // Character codes (WM_CHAR wParam).
  const ChReturn: int := 0x0D
  const ChEscape: int := 0x1B
  const ChPlus: int := 0x2B
  const ChMinus: int := 0x2D
}
