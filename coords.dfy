/** Mapping of a signed, origin-centred board coordinate to a (row, column)
    index into an n-by-n board. Two versions: `PosToMatrixIndexAsWritten`
    follows the machine arithmetic of the source exactly (i32 and a 64-bit
    usize), `PosToMatrixIndex` is the clamp the source evidently intends.
    The board writes through the first; the second describes the cells the
    board is expected to hold, and `Board.StartCellMatchesSource` shows the
    two agree on every starting tile. */
module Coords {

  const I32_MIN: int := -0x8000_0000
  const I32_MAX: int := 0x7fff_ffff
  const USIZE_MODULUS: int := 0x1_0000_0000_0000_0000

  predicate IsI32(v: int) { I32_MIN <= v <= I32_MAX }
  predicate IsUsize(v: int) { 0 <= v < USIZE_MODULUS }

  /** `n as i32` for a usize n: keeps the low 32 bits, read in two's complement. */
  function UsizeAsI32(n: int): (r: int)
    requires IsUsize(n)
    ensures IsI32(r)
    ensures (r - n) % 0x1_0000_0000 == 0
    ensures n <= I32_MAX ==> r == n
  {
    var low := n % 0x1_0000_0000;
    if low <= I32_MAX then low else low - 0x1_0000_0000
  }

  /** `v as usize` for an i32 v: sign extension, so a negative value wraps
      to v + 2^64. */
  function I32AsUsize(v: int): (r: int)
    requires IsI32(v)
    ensures IsUsize(r)
    ensures (r - v) % USIZE_MODULUS == 0
    ensures v >= 0 ==> r == v
    ensures v < 0 ==> r > I32_MAX
  {
    if v >= 0 then v else v + USIZE_MODULUS
  }

  /** i32 division by two, which truncates toward zero. */
  function HalfTowardZero(v: int): (r: int)
    ensures v >= 0 ==> 0 <= 2 * r <= v <= 2 * r + 1
    ensures v < 0 ==> 2 * r - 1 <= v <= 2 * r <= 0
  {
    if v >= 0 then v / 2 else -((-v) / 2)
  }

  /** Ord::clamp on integers. */
  function Clamp(v: int, lo: int, hi: int): (r: int)
    requires lo <= hi
    ensures lo <= r <= hi
    ensures lo <= v <= hi ==> r == v
    ensures v < lo ==> r == lo
    ensures v > hi ==> r == hi
  {
    if v < lo then lo else if v > hi then hi else v
  }

  /** The centre `n as i32 / 2` the source computes. */
  function CenterAsWritten(n: int): (r: int)
    requires IsUsize(n)
    ensures IsI32(r)
    ensures n <= I32_MAX ==> r == n / 2
  {
    HalfTowardZero(UsizeAsI32(n))
  }

  /** The two i32 sums of the source stay in range; in a debug build an
      overflow there panics. */
  predicate NoOverflow(x: int, y: int, n: int)
    requires IsUsize(n)
  {
    IsI32(x + CenterAsWritten(n)) && IsI32(CenterAsWritten(n) - y)
  }

  /** The mapper exactly as the source computes it: both sums are cast to
      usize before they are clamped to [0, n-1], so a negative sum wraps
      and ends up at n-1. `n >= 1`, since `n - 1` underflows otherwise. */
  function PosToMatrixIndexAsWritten(x: int, y: int, n: int): (r: (int, int))
    requires IsI32(x) && IsI32(y) && IsUsize(n) && n >= 1
    requires NoOverflow(x, y, n)
    ensures 0 <= r.0 < n && 0 <= r.1 < n
  {
    var center := CenterAsWritten(n);
    var j := I32AsUsize(x + center);
    var i := I32AsUsize(center - y);
    (Clamp(i, 0, n - 1), Clamp(j, 0, n - 1))
  }

  /** Inside the board, the mapper returns the row `n/2 - y` and the
      column `x + n/2`. */
  lemma AsWrittenExactInRange(x: int, y: int, n: int)
    requires IsI32(x) && IsI32(y) && 1 <= n <= I32_MAX
    requires 0 <= x + n / 2 < n && 0 <= n / 2 - y < n
    ensures NoOverflow(x, y, n)
    ensures PosToMatrixIndexAsWritten(x, y, n) == (n / 2 - y, x + n / 2)
  {
  }

  /** Where a sum is negative, the as-written mapper sends the coordinate
      to the far edge, index n-1, not to the near edge 0 (for every n that
      is below the wrapped value, that is n <= 2^64 - 2^31). */
  lemma AsWrittenNegativeGoesToFarEdge(x: int, y: int, n: int)
    requires IsI32(x) && IsI32(y) && 1 <= n <= USIZE_MODULUS + I32_MIN
    requires NoOverflow(x, y, n)
    ensures x + CenterAsWritten(n) < 0 ==> PosToMatrixIndexAsWritten(x, y, n).1 == n - 1
    ensures CenterAsWritten(n) - y < 0 ==> PosToMatrixIndexAsWritten(x, y, n).0 == n - 1
  {
    if x + CenterAsWritten(n) < 0 {
      assert I32AsUsize(x + CenterAsWritten(n)) >= USIZE_MODULUS + I32_MIN;
    }
    if CenterAsWritten(n) - y < 0 {
      assert I32AsUsize(CenterAsWritten(n) - y) >= USIZE_MODULUS + I32_MIN;
    }
  }

  /** The four corner cases the source's own tests pin for n = 72. */
  lemma AsWrittenCorners()
    ensures PosToMatrixIndexAsWritten(-36, 36, 72) == (0, 0)
    ensures PosToMatrixIndexAsWritten(-36, -35, 72) == (71, 0)
    ensures PosToMatrixIndexAsWritten(35, 36, 72) == (0, 71)
    ensures PosToMatrixIndexAsWritten(35, -35, 72) == (71, 71)
  {
  }

  /** A coordinate one column left of the board: the source puts it in the
      rightmost column, where the intended clamp puts it in the leftmost. */
  lemma AsWrittenLeftOfBoard()
    ensures PosToMatrixIndexAsWritten(-37, 0, 72) == (36, 71)
    ensures PosToMatrixIndex(-37, 0, 72) == (36, 0)
  {
  }

  /** Beyond n = 2^31 - 1 the exact-in-range property fails: for n = 2^31,
      `n as i32` wraps to -2^31, the centre becomes -2^30, and the origin,
      which lies on the board, goes to the far corner instead of the
      centre cell (2^30, 2^30). */
  lemma AsWrittenWrapsAtI32Bound()
    ensures NoOverflow(0, 0, 0x8000_0000)
    ensures PosToMatrixIndexAsWritten(0, 0, 0x8000_0000) == (0x7fff_ffff, 0x7fff_ffff)
    ensures PosToMatrixIndex(0, 0, 0x8000_0000) == (0x4000_0000, 0x4000_0000)
  {
    assert UsizeAsI32(0x8000_0000) == I32_MIN;
    assert CenterAsWritten(0x8000_0000) == -0x4000_0000;
  }

  /** The intended mapper: the sums are clamped as signed integers, so a
      coordinate off the board lands on the nearest edge or corner. */
  function PosToMatrixIndex(x: int, y: int, n: nat): (r: (nat, nat))
    requires n >= 1
    ensures r.0 < n && r.1 < n
    ensures 0 <= x + n / 2 < n ==> r.1 == x + n / 2
    ensures 0 <= n / 2 - y < n ==> r.0 == n / 2 - y
    ensures x + n / 2 < 0 ==> r.1 == 0
    ensures x + n / 2 >= n ==> r.1 == n - 1
    ensures n / 2 - y < 0 ==> r.0 == 0
    ensures n / 2 - y >= n ==> r.0 == n - 1
  {
    var center := n / 2;
    (Clamp(center - y, 0, n - 1), Clamp(x + center, 0, n - 1))
  }

  /** The intended mapper is monotonic: moving right never decreases the
      column and moving up never increases the row. */
  lemma PosToMatrixIndexMonotonic(x1: int, y1: int, x2: int, y2: int, n: nat)
    requires n >= 1 && x1 <= x2 && y1 <= y2
    ensures PosToMatrixIndex(x1, y1, n).1 <= PosToMatrixIndex(x2, y2, n).1
    ensures PosToMatrixIndex(x2, y2, n).0 <= PosToMatrixIndex(x1, y1, n).0
  {
  }

  /** On the board, distinct coordinates get distinct cells. */
  lemma PosToMatrixIndexInjectiveOnBoard(x1: int, y1: int, x2: int, y2: int, n: nat)
    requires n >= 1
    requires 0 <= x1 + n / 2 < n && 0 <= n / 2 - y1 < n
    requires 0 <= x2 + n / 2 < n && 0 <= n / 2 - y2 < n
    ensures PosToMatrixIndex(x1, y1, n) == PosToMatrixIndex(x2, y2, n) <==> x1 == x2 && y1 == y2
  {
  }

  /** The two mappers agree whenever both sums are non-negative and the board
      is small enough for `n as i32` to keep n, and for n = 1 everywhere. */
  lemma AsWrittenAgreesWithIntended(x: int, y: int, n: int)
    requires IsI32(x) && IsI32(y) && 1 <= n <= I32_MAX
    requires NoOverflow(x, y, n)
    requires (x + n / 2 >= 0 && n / 2 - y >= 0) || n == 1
    ensures PosToMatrixIndexAsWritten(x, y, n) == PosToMatrixIndex(x, y, n)
  {
  }
}
