/** Square arithmetic of the 16-wide, 256-cell board, and the constant tables that are
    indexed by squares or by differences of squares (cchess_engine/utils.h, constants.h).

    Each table is written as the function it tabulates; bit masks on squares become the
    division or remainder they compute. */
module Geometry {

  type Square = p: int | 0 <= p < 256

  function Row(p: int): int { p / 16 }

  function Col(p: int): int { p % 16 }

  /** A cell of the 10 x 9 board, which starts three rows and three columns in. */
  predicate InBoard(p: Square) {
    3 <= Row(p) <= 12 && 3 <= Col(p) <= 11
  }

  /** A cell of one of the two 3 x 3 palaces. */
  predicate InFort(p: Square) {
    (3 <= Row(p) <= 5 || 10 <= Row(p) <= 12) && 6 <= Col(p) <= 8
  }

  /** Bit 0x80 tells the two sides of the river apart. */
  predicate SameHalf(a: Square, b: Square) {
    a / 128 == b / 128
  }

  function ToPos(row: int, col: int): int { (row + 3) * 16 + (col + 3) }

  function MirrorPos(p: int): int { ToPos(Row(p) - 3, 8 - (Col(p) - 3)) }

  const KING_DELTA: seq<int> := [-16, -1, 1, 16]
  const ADVISOR_DELTA: seq<int> := [-17, -15, 15, 17]
  const KNIGHT_DELTA: seq<seq<int>> := [[-33, -31], [-18, 14], [-14, 18], [31, 33]]

  /** The nonzero entries of the span table: 1 for a king step, 2 for an advisor step,
      3 for a bishop step. */
  function Span(d: int): int {
    if d in {-16, -1, 1, 16} then 1
    else if d in {-17, -15, 15, 17} then 2
    else if d in {-34, -30, 30, 34} then 3
    else 0
  }

  /** The nonzero entries of the knight table: the leg a knight jumping by d stands over. */
  function KnightPin(d: int): int {
    if d == -33 || d == -31 then -16
    else if d == -18 || d == 14 then -1
    else if d == -14 || d == 18 then 1
    else if d == 31 || d == 33 then 16
    else 0
  }

  predicate Aligned(a: int, b: int) {
    Row(a) == Row(b) || Col(a) == Col(b)
  }

  /** The unit step from a towards b along a shared row or column; 0 if they share none. */
  function Offset(a: int, b: int): int {
    if Row(a) == Row(b) then (if a > b then -1 else 1)
    else if Col(a) == Col(b) then (if a > b then -16 else 16)
    else 0
  }

  /** q lies strictly between a and b on a shared row or column. */
  predicate Between(a: int, q: int, b: int) {
    && (a < q < b || b < q < a)
    && (Row(a) == Row(q) == Row(b) || Col(a) == Col(q) == Col(b))
  }

  /** to lies in direction d (one of KING_DELTA) from a. */
  predicate OnRay(a: int, d: int, to: int) {
    || (d == -16 && Col(to) == Col(a) && to < a)
    || (d == -1 && Row(to) == Row(a) && to < a)
    || (d == 1 && Row(to) == Row(a) && to > a)
    || (d == 16 && Col(to) == Col(a) && to > a)
  }

  /** Squares a bishop can ever stand on: seven per half. */
  predicate BishopSquare(p: Square) {
    || (Row(p) in {3, 7, 8, 12} && Col(p) in {5, 9})
    || (Row(p) in {5, 10} && Col(p) in {3, 7, 11})
  }

  // Moves are packed as start | end << 8.
  type Move = mv: int | 0 <= mv < 65536

  function Start(mv: Move): Square { mv % 256 }

  function End(mv: Move): Square { mv / 256 }

  function Pack(from: Square, to: Square): Move { from + to * 256 }

  function MirrorMove(mv: Move): int
  {
    MirrorPos(Start(mv)) + MirrorPos(End(mv)) * 256
  }

  lemma PackUnpack(from: Square, to: Square)
    ensures Start(Pack(from, to)) == from && End(Pack(from, to)) == to
  {
  }

  lemma UnpackPack(mv: Move)
    ensures Pack(Start(mv), End(mv)) == mv
  {
  }

  /** The board has ten rows of nine cells, and a palace is the middle of the first or last three rows. */
  lemma BoardCells(p: Square)
    ensures InBoard(p) <==> exists row, col :: 0 <= row < 10 && 0 <= col < 9 && p == ToPos(row, col)
    ensures InFort(p) <==>
            p in {54, 55, 56, 70, 71, 72, 86, 87, 88, 166, 167, 168, 182, 183, 184, 198, 199, 200}
  {
    Coordinates(p);
    if InBoard(p) {
      assert p == ToPos(Row(p) - 3, Col(p) - 3);
    }
  }

  lemma Coordinates(p: int)
    ensures p == 16 * Row(p) + Col(p) && 0 <= Col(p) < 16
  {
  }

  lemma Shift(p: int, dr: int, dc: int)
    requires 0 <= Col(p) + dc < 16
    ensures Row(p + 16 * dr + dc) == Row(p) + dr && Col(p + 16 * dr + dc) == Col(p) + dc
  {
    Coordinates(p);
  }

  lemma Halves(p: Square)
    ensures p / 128 == if Row(p) < 8 then 0 else 1
  {
    Coordinates(p);
  }

  /** One more step along a ray adds exactly the square just left behind. */
  lemma BetweenStep(a: int, d: int, at: int, q: int)
    requires d in KING_DELTA
    requires at == a || OnRay(a, d, at)
    requires Row(at + d) == Row(at) || Col(at + d) == Col(at)
    ensures OnRay(a, d, at + d)
    ensures at != a ==> (Between(a, q, at + d) <==> Between(a, q, at) || q == at)
    ensures at == a ==> !Between(a, q, at + d)
  {
  }
}
