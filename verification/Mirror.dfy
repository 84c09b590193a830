/** Left-right mirroring: the opening book stores one of two mirror images, so move generation
    and hashing have to commute with it (cchess_engine/board.cc, utils.h, search_engine.h). */
module Mirror {
  import opened Geometry
  import opened Pieces
  import opened Rules
  import opened Play

  lemma MirrorSquare(p: Square)
    requires InBoard(p)
    ensures 0 <= MirrorPos(p) < 256 && InBoard(MirrorPos(p)) && MirrorPos(MirrorPos(p)) == p
    ensures Row(MirrorPos(p)) == Row(p) && Col(MirrorPos(p)) == 14 - Col(p)
    ensures MirrorPos(p) / 128 == p / 128
  {
    Coordinates(p);
    Coordinates(MirrorPos(p));
    Halves(p);
    Halves(MirrorPos(p));
  }

  function MirrorSq(p: Square): Square
    requires InBoard(p)
  {
    MirrorSquare(p);
    MirrorPos(p)
  }

  lemma MirrorFormula(p: Square)
    requires InBoard(p)
    ensures MirrorSq(p) == 16 * Row(p) + 14 - Col(p)
  {
  }

  function MirrorCells(c: Placement): Placement {
    seq(256, p requires 0 <= p < 256 => if InBoard(p) then c[MirrorSq(p)] else Empty)
  }

  function MirrorGame(g: Game): Game
    requires InBoard(g.rk) && InBoard(g.bk)
  {
    g.(cells := MirrorCells(g.cells), rk := MirrorSq(g.rk), bk := MirrorSq(g.bk))
  }

  /** A square and its mirror image see the same cell. */
  lemma MirrorCell(c: Placement, p: Square)
    requires InBoard(p)
    ensures InBoard(MirrorSq(p)) && MirrorCells(c)[MirrorSq(p)] == c[p]
  {
    MirrorSquare(p);
  }

  lemma MirrorTwice(c: Placement)
    requires OnBoard(c)
    ensures MirrorCells(MirrorCells(c)) == c
  {
    forall p: Square
      ensures MirrorCells(MirrorCells(c))[p] == c[p]
    {
      if InBoard(p) {
        MirrorSquare(p);
      }
    }
  }

  /** Betweenness is preserved by mirroring. */
  lemma MirrorBetween(a: Square, q: Square, b: Square)
    requires InBoard(a) && InBoard(b)
    ensures Between(a, q, b) ==> InBoard(q)
    ensures InBoard(q) ==> (Between(MirrorSq(a), MirrorSq(q), MirrorSq(b)) <==> Between(a, q, b))
  {
    Coordinates(a);
    Coordinates(q);
    Coordinates(b);
    if InBoard(q) {
      MirrorSquare(a);
      MirrorSquare(q);
      MirrorSquare(b);
      Coordinates(MirrorPos(a));
      Coordinates(MirrorPos(q));
      Coordinates(MirrorPos(b));
    }
  }

  lemma MirrorAligned(a: Square, b: Square)
    requires InBoard(a) && InBoard(b)
    ensures Aligned(MirrorSq(a), MirrorSq(b)) <==> Aligned(a, b)
    ensures MirrorSq(a) == MirrorSq(b) <==> a == b
  {
    MirrorSquare(a);
    MirrorSquare(b);
  }

  lemma MirrorClear(c: Placement, a: Square, b: Square)
    requires InBoard(a) && InBoard(b) && ClearLine(c, a, b)
    ensures ClearLine(MirrorCells(c), MirrorSq(a), MirrorSq(b))
  {
    forall q: Square | Between(MirrorSq(a), q, MirrorSq(b))
      ensures MirrorCells(c)[q] == Empty
    {
      MirrorSquare(a);
      MirrorSquare(b);
      MirrorBetween(MirrorSq(a), q, MirrorSq(b));
    }
  }

  lemma MirrorScreen(c: Placement, a: Square, b: Square)
    requires InBoard(a) && InBoard(b) && OneScreen(c, a, b)
    ensures OneScreen(MirrorCells(c), MirrorSq(a), MirrorSq(b))
  {
    var s: Square :| ScreenAt(c, a, s, b);
    MirrorBetween(a, s, b);
    MirrorCell(c, s);
    MirrorClear(c, a, s);
    MirrorClear(c, s, b);
    assert ScreenAt(MirrorCells(c), MirrorSq(a), MirrorSq(s), MirrorSq(b));
  }

  /** A step by rows and columns mirrors to the step with the columns reversed. */
  lemma MirrorShift(p: Square, dr: int, dc: int)
    requires InBoard(p) && 0 <= p + 16 * dr + dc < 256 && InBoard(p + 16 * dr + dc) && -2 <= dc <= 2
    ensures MirrorSq(p + 16 * dr + dc) == MirrorSq(p) + 16 * dr - dc
  {
    MirrorFormula(p);
    MirrorFormula(p + 16 * dr + dc);
    Shift(p, dr, dc);
  }

  lemma MirrorTarget(c: Placement, side: Side, to: Square, captures: bool)
    requires InBoard(to)
    ensures Target(MirrorCells(c), side, MirrorSq(to), captures) <==> Target(c, side, to, captures)
    ensures Enemy(MirrorCells(c), side, MirrorSq(to)) <==> Enemy(c, side, to)
  {
    MirrorCell(c, to);
  }

  lemma MirrorStep(from: Square, to: Square)
    requires InBoard(from) && InBoard(to)
    ensures to - from in KING_DELTA ==> MirrorSq(to) - MirrorSq(from) in KING_DELTA
    ensures to - from in ADVISOR_DELTA ==> MirrorSq(to) - MirrorSq(from) in ADVISOR_DELTA
    ensures InFort(to) ==> InFort(MirrorSq(to))
  {
    MirrorSquare(to);
    var d := to - from;
    if d in KING_DELTA {
      MirrorShift(from, if d == -16 then -1 else if d == 16 then 1 else 0, if d == -1 || d == 1 then d else 0);
    }
    if d in ADVISOR_DELTA {
      var dr := if d < 0 then -1 else 1;
      MirrorShift(from, dr, d - 16 * dr);
    }
  }

  lemma MirrorDiagonal(from: Square, d: int, e: int)
    requires InBoard(from) && d in ADVISOR_DELTA
    requires e == if d == -17 then -15 else if d == -15 then -17 else if d == 15 then 17 else 15
    ensures 0 <= from + d < 256 && 0 <= from + 2 * d < 256
    ensures InBoard(from + d) ==> MirrorSq(from + d) == MirrorSq(from) + e
    ensures InBoard(from + 2 * d) ==> MirrorSq(from + 2 * d) == MirrorSq(from) + 2 * e
  {
    hide MirrorSq;
    var dr := if d < 0 then -1 else 1;
    if InBoard(from + d) {
      MirrorShift(from, dr, d - 16 * dr);
    }
    if InBoard(from + 2 * d) {
      MirrorShift(from, 2 * dr, 2 * (d - 16 * dr));
    }
  }

  lemma MirrorVia(c: Placement, from: Square, d: int, e: int)
    requires InBoard(from) && BishopVia(c, from, d)
    requires e == if d == -17 then -15 else if d == -15 then -17 else if d == 15 then 17 else 15
    ensures InBoard(MirrorSq(from)) && BishopVia(MirrorCells(c), MirrorSq(from), e)
  {
    assert e in ADVISOR_DELTA;
    MirrorDiagonal(from, d, e);
    MirrorHalf(from);
    MirrorHalf(from + d);
    MirrorCell(c, from + d);
  }

  lemma MirrorBishop(c: Placement, from: Square, to: Square, d: int) returns (e: int)
    requires InBoard(from) && InBoard(to) && BishopVia(c, from, d) && to == from + 2 * d
    ensures InBoard(MirrorSq(from)) && BishopVia(MirrorCells(c), MirrorSq(from), e)
    ensures MirrorSq(to) == MirrorSq(from) + 2 * e
  {
    e := if d == -17 then -15 else if d == -15 then -17 else if d == 15 then 17 else 15;
    MirrorDiagonal(from, d, e);
    MirrorVia(c, from, d, e);
  }

  /** The knight tables spelled out: the jumps over each leg. */
  lemma KnightJumps(d: int, i: nat)
    requires i < 4
    ensures d in KNIGHT_DELTA[i] <==>
            (i == 0 && (d == -33 || d == -31)) || (i == 1 && (d == -18 || d == 14))
            || (i == 2 && (d == -14 || d == 18)) || (i == 3 && (d == 31 || d == 33))
    ensures KING_DELTA[i] == if i == 0 then -16 else if i == 1 then -1 else if i == 2 then 1 else 16
  {
  }

  /** A jump, and the leg below it, mirror to the jump and leg with the columns reversed. */
  lemma MirrorJump(from: Square, to: Square, i: nat, j: nat)
    requires InBoard(from) && InBoard(to) && i < 4 && to - from in KNIGHT_DELTA[i]
    requires j == if i == 1 then 2 else if i == 2 then 1 else i
    ensures 0 <= from + KING_DELTA[i] < 256 && InBoard(from + KING_DELTA[i])
    ensures MirrorSq(to) - MirrorSq(from) in KNIGHT_DELTA[j]
    ensures MirrorSq(from + KING_DELTA[i]) == MirrorSq(from) + KING_DELTA[j]
  {
    var d, leg := to - from, KING_DELTA[i];
    KnightJumps(d, i);
    KnightJumps(d, j);
    var dr := if d == -33 || d == -31 then -2 else if d == -18 || d == -14 then -1
              else if d == 14 || d == 18 then 1 else 2;
    var dc := d - 16 * dr;
    KnightLeg(from, to, dr, dc, if i == 0 then -1 else if i == 3 then 1 else 0,
      if i == 1 then -1 else if i == 2 then 1 else 0);
    MirrorShift(from, dr, dc);
    MirrorShift(from, if i == 0 then -1 else if i == 3 then 1 else 0, if i == 1 then -1 else if i == 2 then 1 else 0);
    KnightJumps(16 * dr - dc, j);
  }

  lemma KnightLeg(from: Square, to: Square, dr: int, dc: int, lr: int, lc: int)
    requires InBoard(from) && InBoard(to) && to == from + 16 * dr + dc && -2 <= dc <= 2
    requires (dr >= 1 ==> 0 <= lr <= 1) && (dr <= -1 ==> -1 <= lr <= 0) && (dc >= 1 ==> 0 <= lc <= 1)
      && (dc <= -1 ==> -1 <= lc <= 0)
    requires dr != 0 && dc != 0
    ensures 0 <= from + 16 * lr + lc < 256 && InBoard(from + 16 * lr + lc)
  {
    Coordinates(from);
    Shift(from, dr, dc);
    Shift(from, lr, lc);
  }

  lemma MirrorKnight(c: Placement, from: Square, to: Square, i: nat)
    requires InBoard(from) && InBoard(to) && i < 4 && to - from in KNIGHT_DELTA[i] && c[from + KING_DELTA[i]] == Empty
    ensures exists j: nat :: j < 4 && MirrorSq(to) - MirrorSq(from) in KNIGHT_DELTA[j]
                        && MirrorCells(c)[MirrorSq(from) + KING_DELTA[j]] == Empty
  {
    var j: nat := if i == 1 then 2 else if i == 2 then 1 else i;
    MirrorJump(from, to, i, j);
    MirrorCell(c, from + KING_DELTA[i]);
  }

  /** What is generated on a placement is generated, mirrored, on the mirrored placement. */
  lemma MirrorGenerated(c: Placement, king: Square, from: Square, to: Square, captures: bool)
    requires InBoard(from) && InBoard(to) && InBoard(king) && c[from].Man?
    requires Generated(c, king, from, to, captures)
    ensures InBoard(MirrorSq(from)) && MirrorCells(c)[MirrorSq(from)].Man?
    ensures Generated(MirrorCells(c), MirrorSq(king), MirrorSq(from), MirrorSq(to), captures)
  {
    MirrorCell(c, from);
    MirrorCell(c, to);
    MirrorTarget(c, c[from].side, to, captures);
    match c[from].kind {
      case King => MirrorStep(from, to);
      case Advisor => MirrorStep(from, to);
      case Bishop =>
        var d :| BishopVia(c, from, d) && to == from + 2 * d;
        var e := MirrorBishop(c, from, to, d);
      case Knight =>
        var i: nat :| i < 4 && to - from in KNIGHT_DELTA[i] && c[from + KING_DELTA[i]] == Empty;
        MirrorKnight(c, from, to, i);
      case Rook => MirrorSlide(c, from, to);
      case Cannon => MirrorSlide(c, from, to);
      case Pawn => MirrorPawn(king, from, to);
    }
  }

  lemma MirrorSlide(c: Placement, from: Square, to: Square)
    requires InBoard(from) && InBoard(to)
    ensures Aligned(MirrorSq(from), MirrorSq(to)) <==> Aligned(from, to)
    ensures MirrorSq(from) == MirrorSq(to) <==> from == to
    ensures ClearLine(c, from, to) ==> ClearLine(MirrorCells(c), MirrorSq(from), MirrorSq(to))
    ensures OneScreen(c, from, to) ==> OneScreen(MirrorCells(c), MirrorSq(from), MirrorSq(to))
  {
    MirrorAligned(from, to);
    if ClearLine(c, from, to) {
      MirrorClear(c, from, to);
    }
    if OneScreen(c, from, to) {
      MirrorScreen(c, from, to);
    }
  }

  lemma MirrorHalf(p: Square)
    requires InBoard(p)
    ensures InBoard(MirrorSq(p)) && MirrorSq(p) / 128 == p / 128
  {
    MirrorSquare(p);
  }

  lemma MirrorUnit(from: Square, to: Square)
    requires InBoard(from) && InBoard(to)
    ensures to == from - 16 ==> MirrorSq(to) == MirrorSq(from) - 16
    ensures to == from + 16 ==> MirrorSq(to) == MirrorSq(from) + 16
    ensures to == from - 1 ==> MirrorSq(to) == MirrorSq(from) + 1
    ensures to == from + 1 ==> MirrorSq(to) == MirrorSq(from) - 1
  {
    MirrorFormula(from);
    MirrorFormula(to);
    Coordinates(from);
    Coordinates(to);
  }

  lemma MirrorPawn(king: Square, from: Square, to: Square)
    requires InBoard(king) && InBoard(from) && InBoard(to)
    requires to == Forward(king, from) || (!SameHalf(king, from) && (to == from - 1 || to == from + 1))
    ensures || MirrorSq(to) == Forward(MirrorSq(king), MirrorSq(from))
            || (!SameHalf(MirrorSq(king), MirrorSq(from))
                && (MirrorSq(to) == MirrorSq(from) - 1 || MirrorSq(to) == MirrorSq(from) + 1))
  {
    hide MirrorSq, InBoard;
    MirrorHalf(king);
    MirrorHalf(from);
    MirrorUnit(from, to);
  }

  // ---- Moves ----

  /** The placement part of being well placed, which mirroring keeps. */
  ghost predicate Shaped(g: Game) {
    && InBoard(g.rk) && InBoard(g.bk)
    && forall p: Square :: g.cells[p].Man? ==> Placed(g.cells[p], g.KingAt(g.cells[p].side), p)
  }

  /** Well-placed positions are shaped. */
  lemma WellPlacedShaped(g: Game)
    requires WellPlaced(g)
    ensures Shaped(g)
  {
  }

  lemma MirrorPlaced(x: Cell, king: Square, p: Square)
    requires x.Man? && Placed(x, king, p) && InBoard(king)
    ensures Placed(x, MirrorSq(king), MirrorSq(p))
  {
    MirrorSquare(p);
    MirrorSquare(king);
  }

  lemma MirrorShaped(g: Game)
    requires Shaped(g)
    ensures Shaped(MirrorGame(g)) && MirrorGame(MirrorGame(g)) == g
  {
    MirrorSquare(g.rk);
    MirrorSquare(g.bk);
    MirrorTwice(g.cells);
    var h := MirrorGame(g);
    forall p: Square | h.cells[p].Man?
      ensures Placed(h.cells[p], h.KingAt(h.cells[p].side), p)
    {
      MirrorSquare(p);
      var q := MirrorSq(p);
      assert h.cells[p] == g.cells[q];
      MirrorPlaced(g.cells[q], g.KingAt(g.cells[q].side), q);
    }
  }

  lemma MirrorMoveParts(mv: Move)
    requires InBoard(Start(mv)) && InBoard(End(mv))
    ensures 0 <= MirrorMove(mv) < 65536
    ensures Start(MirrorMove(mv)) == MirrorSq(Start(mv)) && End(MirrorMove(mv)) == MirrorSq(End(mv))
    ensures MirrorMove(MirrorMove(mv)) == mv
  {
    hide MirrorPos, InBoard;
    MirrorSquare(Start(mv));
    MirrorSquare(End(mv));
    PackUnpack(MirrorSq(Start(mv)), MirrorSq(End(mv)));
    UnpackPack(mv);
  }

  lemma MirrorIsGenerated(g: Game, mv: Move, captures: bool)
    requires Shaped(g) && IsGenerated(g, mv, captures)
    ensures InBoard(Start(mv)) && InBoard(End(mv))
    ensures 0 <= MirrorMove(mv) < 65536 && IsGenerated(MirrorGame(g), MirrorMove(mv), captures)
    ensures MirrorMove(MirrorMove(mv)) == mv
  {
    GeneratedOnBoard(g, Start(mv), End(mv), captures);
    MirrorMoveParts(mv);
    MirrorCell(g.cells, Start(mv));
    MirrorGenerated(g.cells, g.KingAt(g.side), Start(mv), End(mv), captures);
  }

  /** The moves generated on the mirrored position are exactly the mirror images of the moves
      generated on the original, so a book move found under the mirror hash maps back soundly. */
  lemma MirrorMoves(g: Game, captures: bool)
    requires Shaped(g)
    ensures forall mv: Move :: mv in MoveSet(g, captures) ==> 0 <= MirrorMove(mv) < 65536
    ensures MoveSet(MirrorGame(g), captures) == set mv | mv in MoveSet(g, captures) :: MirrorMove(mv) as Move
    ensures forall mv: Move :: mv in MoveSet(MirrorGame(g), captures) ==>
              0 <= MirrorMove(mv) < 65536 && MirrorMove(mv) in MoveSet(g, captures)
  {
    var h := MirrorGame(g);
    MirrorShaped(g);
    forall mv: Move | mv in MoveSet(g, captures)
      ensures 0 <= MirrorMove(mv) < 65536 && MirrorMove(mv) in MoveSet(h, captures)
    {
      MirrorIsGenerated(g, mv, captures);
    }
    forall mv: Move | mv in MoveSet(h, captures)
      ensures 0 <= MirrorMove(mv) < 65536 && MirrorMove(mv) in MoveSet(g, captures) && MirrorMove(MirrorMove(mv)) == mv
    {
      MirrorIsGenerated(h, mv, captures);
    }
  }

  // ---- Hash ----

  /** getMirrorZobrist: the keys of the shown men, each on its mirrored square. */
  function MirrorKeys(k: KeyTable, c: Placement): seq<Zobrist> {
    seq(256, p requires 0 <= p < 256 => if InBoard(p) then CellKey(k, c[p], MirrorPos(p)) else ZERO)
  }

  function MirrorHash(k: KeyTable, c: Placement, side: Side): Zobrist {
    if side == Black then Xor(XorAll(MirrorKeys(k, c)), k.player) else XorAll(MirrorKeys(k, c))
  }

  lemma {:induction false} XorAllConcat(a: seq<Zobrist>, b: seq<Zobrist>)
    ensures XorAll(a + b) == Xor(XorAll(a), XorAll(b))
  {
    hide Xor;
    if b == [] {
      assert a + b == a;
      XorLaws(XorAll(a), ZERO, ZERO);
    } else {
      var n := |b| - 1;
      assert (a + b)[..|a + b| - 1] == a + b[..n];
      XorAllConcat(a, b[..n]);
      XorLaws(XorAll(a), XorAll(b[..n]), b[n]);
    }
  }

  function Reversed(s: seq<Zobrist>): seq<Zobrist> {
    seq(|s|, i requires 0 <= i < |s| => s[|s| - 1 - i])
  }

  lemma {:induction false} XorAllReversed(s: seq<Zobrist>)
    ensures XorAll(Reversed(s)) == XorAll(s)
  {
    hide Xor;
    if s != [] {
      var n := |s| - 1;
      assert Reversed(s) == [s[n]] + Reversed(s[..n]);
      XorAllConcat([s[n]], Reversed(s[..n]));
      XorAllReversed(s[..n]);
      assert [s[n]][..0] == [];
      XorLaws(s[n], XorAll(s[..n]), ZERO);
    }
  }

  lemma XorAllRow(a: seq<Zobrist>, lo: nat)
    requires lo + 16 <= |a|
    ensures XorAll(a[..lo + 16]) == Xor(XorAll(a[..lo]), Xor(XorAll(a[lo..lo + 15]), XorAll([a[lo + 15]])))
  {
    hide Xor, XorAll;
    assert a[..lo + 16] == a[..lo] + (a[lo..lo + 15] + [a[lo + 15]]);
    XorAllConcat(a[..lo], a[lo..lo + 15] + [a[lo + 15]]);
    XorAllConcat(a[lo..lo + 15], [a[lo + 15]]);
  }

  /** Row r of b is row r of a with its first fifteen cells reversed. */
  predicate RowReversed(a: seq<Zobrist>, b: seq<Zobrist>, r: nat)
    requires |a| == |b| == 256 && r < 16
  {
    b[16 * r..16 * r + 15] == Reversed(a[16 * r..16 * r + 15]) && b[16 * r + 15] == a[16 * r + 15]
  }

  lemma {:induction false} XorAllRows(a: seq<Zobrist>, b: seq<Zobrist>, rows: nat)
    requires |a| == |b| == 256 && rows <= 16
    requires forall r :: 0 <= r < 16 ==> RowReversed(a, b, r)
    ensures XorAll(a[..16 * rows]) == XorAll(b[..16 * rows])
  {
    if rows > 0 {
      var lo := 16 * (rows - 1);
      XorAllRows(a, b, rows - 1);
      assert RowReversed(a, b, rows - 1);
      XorAllReversed(a[lo..lo + 15]);
      XorAllRow(a, lo);
      XorAllRow(b, lo);
    }
  }

  lemma MirrorRow(k: KeyTable, c: Placement, r: nat)
    requires r < 16
    ensures RowReversed(CellKeys(k, MirrorCells(c)), MirrorKeys(k, c), r)
  {
    hide MirrorKeys, CellKeys, MirrorCells, Row, Col;
    KeyLists(k, c);
    var a, b := CellKeys(k, MirrorCells(c)), MirrorKeys(k, c);
    var ra, rb := a[16 * r..16 * r + 15], b[16 * r..16 * r + 15];
    forall i: int | 0 <= i < 15
      ensures rb[i] == Reversed(ra)[i]
    {
      KeyOfMirror(k, c, 16 * r + i);
      RowCol(r, i);
    }
    KeyOfMirror(k, c, 16 * r + 15);
    RowCol(r, 15);
  }

  lemma KeyLists(k: KeyTable, c: Placement)
    ensures |CellKeys(k, MirrorCells(c))| == |MirrorKeys(k, c)| == 256
  {
  }

  lemma RowCol(r: int, i: int)
    requires 0 <= i < 16
    ensures Row(16 * r + i) == r && Col(16 * r + i) == i
  {
  }

  /** getMirrorZobrist is the full hash of the mirrored placement with the same side to move. */
  lemma MirrorHashExact(k: KeyTable, c: Placement, side: Side)
    requires OnBoard(c)
    ensures MirrorHash(k, c, side) == Hash(k, MirrorCells(c), side)
  {
    var a, b := CellKeys(k, MirrorCells(c)), MirrorKeys(k, c);
    forall r | 0 <= r < 16
      ensures RowReversed(a, b, r)
    {
      MirrorRow(k, c, r);
    }
    XorAllRows(a, b, 16);
    assert a[..256] == a && b[..256] == b;
  }

  lemma KeyOfMirror(k: KeyTable, c: Placement, p: Square)
    ensures Col(p) < 15 ==> MirrorKeys(k, c)[p] == CellKeys(k, MirrorCells(c))[16 * Row(p) + 14 - Col(p)]
    ensures Col(p) == 15 ==> MirrorKeys(k, c)[p] == CellKeys(k, MirrorCells(c))[p]
  {
    Coordinates(p);
    if Col(p) < 15 {
      var q := 16 * Row(p) + 14 - Col(p);
      Coordinates(q);
      assert Row(q) == Row(p) && Col(q) == 14 - Col(p);
      assert MirrorPos(p) == q;
      if InBoard(p) {
        MirrorSquare(p);
      }
    }
  }
}
