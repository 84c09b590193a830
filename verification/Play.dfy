/** What a move does to a position, the moves a position offers, and what every move keeps
    (cchess_engine/board.cc, board.h). */
module Play {
  import opened Geometry
  import opened Pieces
  import opened Rules
  import opened Rays

  /** makeMove takes the man off the end square, takes up the man on the start square, if there
      still is one, and puts it on the end square. */
  function MoveCells(c: Placement, s: Square, e: Square): Placement {
    var c1 := c[e := Empty];
    if c1[s].Empty? then c1 else c1[s := Empty][e := c1[s]]
  }

  function MoveKing(c: Placement, king: Square, side: Side, s: Square, e: Square): Square {
    if s != e && c[s] == Man(side, King) then e else king
  }

  function Shifted(g: Game, mv: Move): Game {
    var s, e := Start(mv), End(mv);
    Game(MoveCells(g.cells, s, e), MoveKing(g.cells, g.rk, Red, s, e), MoveKing(g.cells, g.bk, Black, s, e),
         g.side, g.hist)
  }

  /** The position after makeMove: the side to move is still the mover. */
  ghost function Moved(k: KeyTable, g: Game, mv: Move): Game {
    var h := Shifted(g, mv);
    h.(hist := g.hist + [Rec(mv, g.cells[End(mv)].Man?, InCheck(h, g.side.Other()), Hash(k, g.cells, g.side).key)])
  }

  /** The position after play. */
  ghost function Played(k: KeyTable, g: Game, mv: Move): Game {
    Moved(k, g, mv).(side := g.side.Other())
  }

  /** The position after a null move. */
  function Passed(k: KeyTable, g: Game): Game {
    g.(side := g.side.Other(), hist := g.hist + [Rec(0, false, false, Hash(k, g.cells, g.side).key)])
  }

  // ---- Moves of a position ----

  /** mv moves a man of the side to move. */
  predicate OwnMan(g: Game, mv: Move) {
    var x := g.cells[Start(mv)];
    x.Man? && x.side == g.side && InBoard(Start(mv))
  }

  /** mv is a generated move of the side to move. */
  ghost predicate IsGenerated(g: Game, mv: Move, captures: bool) {
    OwnMan(g, mv) && Generated(g.cells, g.KingAt(g.side), Start(mv), End(mv), captures)
  }

  /** mv passes the attack test: an own man, to a cell of the board its own side does not hold. */
  ghost predicate Pseudo(g: Game, mv: Move) {
    && OwnMan(g, mv) && InBoard(End(mv))
    && !(g.cells[End(mv)].Man? && g.cells[End(mv)].side == g.side)
    && Attack(g.cells, g.KingAt(g.side), Start(mv), End(mv))
  }

  /** A position of actual play: well placed, and the side that just moved is not in check. */
  ghost predicate Legal(g: Game) {
    WellPlaced(g) && !InCheck(g, g.side.Other())
  }

  /** mv leaves the mover's own king out of check. */
  predicate Safe(g: Game, mv: Move) {
    !InCheck(Shifted(g, mv), g.side)
  }

  ghost predicate LegalMove(g: Game, mv: Move) {
    Pseudo(g, mv) && Safe(g, mv)
  }

  /** Checks do not depend on the history or on whose turn it is. */
  lemma CheckIgnoresTurn(g: Game, h: Game, s: Side)
    requires g.cells == h.cells && g.rk == h.rk && g.bk == h.bk
    ensures InCheck(g, s) <==> InCheck(h, s)
  {
    assert forall p: Square :: Threat(g, s, p) <==> Threat(h, s, p);
  }

  /** Every generated move passes the attack test; what the attack test adds from a well-placed
      position is the flying king and the cannon's empty jump. */
  lemma PseudoIsGenerated(g: Game, mv: Move)
    requires WellPlaced(g)
    ensures Pseudo(g, mv) <==>
            IsGenerated(g, mv, false)
            || (OwnMan(g, mv) && InBoard(End(mv)) && !(g.cells[End(mv)].Man? && g.cells[End(mv)].side == g.side)
                && AttackOnly(g.cells, Start(mv), End(mv)))
  {
    if OwnMan(g, mv) {
      var from, to := Start(mv), End(mv);
      if IsGenerated(g, mv, false) {
        GeneratedOnBoard(g, from, to, false);
      }
      if InBoard(to) && !(g.cells[to].Man? && g.cells[to].side == g.side) {
        AttackIsGenerated(g, from, to);
      }
    }
  }

  /** A generated move ends on the board, on a square its own side does not hold, and a bishop
      ends on a bishop square although its landing cell is never range-checked. */
  lemma GeneratedOnBoard(g: Game, from: Square, to: Square, captures: bool)
    requires g.cells[from].Man? && Placed(g.cells[from], g.KingAt(g.cells[from].side), from)
    requires Generated(g.cells, g.KingAt(g.cells[from].side), from, to, captures)
    ensures InBoard(to) && from != to && !(g.cells[to].Man? && g.cells[to].side == g.cells[from].side)
    ensures g.cells[from].kind == Bishop ==> BishopSquare(to)
  {
    match g.cells[from].kind {
      case Bishop =>
        BishopLands(g.cells, g.KingAt(g.cells[from].side), from, to, captures);
      case King =>
      case Advisor =>
      case Knight =>
      case Rook =>
      case Cannon =>
      case Pawn =>
    }
  }

  lemma BishopLands(c: Placement, king: Square, from: Square, to: Square, captures: bool)
    requires c[from].Man? && c[from].kind == Bishop && InBoard(from) && BishopSquare(from)
    requires Generated(c, king, from, to, captures)
    ensures InBoard(to) && from != to && BishopSquare(to)
  {
    var d :| BishopVia(c, from, d) && to == from + 2 * d;
    BishopStep(from, d);
  }

  // ---- What a move keeps ----

  /** In a position of play no move that passes the attack test captures a king. */
  lemma NoKingCapture(g: Game, mv: Move)
    requires Legal(g) && Pseudo(g, mv)
    ensures g.cells[End(mv)].Man? ==> g.cells[End(mv)].kind != King
  {
    if g.cells[End(mv)].Man? && g.cells[End(mv)].kind == King {
      KingCaptureIsCheck(g, mv);
    }
  }

  lemma KingCaptureIsCheck(g: Game, mv: Move)
    requires WellPlaced(g) && Pseudo(g, mv)
    requires g.cells[End(mv)].Man? && g.cells[End(mv)].kind == King
    ensures InCheck(g, g.side.Other())
  {
    hide Attack;
    var e := End(mv);
    assert Placed(g.cells[e], g.KingAt(g.cells[e].side), e);
    assert Threat(g, g.side.Other(), Start(mv));
  }

  lemma MoveCellsCount(c: Placement, s: Square, e: Square, m: Cell)
    requires s != e && c[s].Man? && m.Man?
    ensures Count(MoveCells(c, s, e), m) == Count(c, m) - if c[e] == m then 1 else 0
  {
    TotalUpdate(c, OneIf(m), e, Empty);
    TotalUpdate(c[e := Empty], OneIf(m), s, Empty);
    TotalUpdate(c[e := Empty][s := Empty], OneIf(m), e, c[s]);
  }

  lemma MoveCellsMen(c: Placement, s: Square, e: Square)
    requires s != e && c[s].Man?
    ensures Men(MoveCells(c, s, e)) == Men(c) - if c[e].Man? then 1 else 0
  {
    TotalUpdate(c, AnyMan(), e, Empty);
    TotalUpdate(c[e := Empty], AnyMan(), s, Empty);
    TotalUpdate(c[e := Empty][s := Empty], AnyMan(), e, c[s]);
  }

  lemma ShiftedArmy(g: Game, mv: Move, side: Side)
    requires Start(mv) != End(mv) && g.cells[Start(mv)].Man? && ArmySized(g.cells, side)
    ensures ArmySized(Shifted(g, mv).cells, side)
  {
    forall kind: Kind
      ensures Count(Shifted(g, mv).cells, Man(side, kind)) <= ArmyBound(kind)
    {
      MoveCellsCount(g.cells, Start(mv), End(mv), Man(side, kind));
    }
  }

  /** The moved man is well placed where it lands. */
  lemma LandsPlaced(g: Game, mv: Move)
    requires WellPlaced(g) && Pseudo(g, mv)
    requires g.cells[End(mv)].Man? ==> g.cells[End(mv)].kind != King
    ensures Start(mv) != End(mv) && OwnMan(g, mv) && InBoard(End(mv))
    ensures Placed(g.cells[Start(mv)], Shifted(g, mv).KingAt(g.side), End(mv))
    ensures g.cells[Start(mv)].kind == King ==> InFort(End(mv)) && SameHalf(End(mv), Start(mv))
  {
    var from, to := Start(mv), End(mv);
    assert Placed(g.cells[from], g.KingAt(g.side), from);
    PseudoIsGenerated(g, mv);
    match g.cells[from].kind {
      case King => FortStep(from, to);
      case Advisor => FortStep(from, to);
      case Bishop => GeneratedOnBoard(g, from, to, false);
      case Knight =>
      case Rook =>
      case Cannon =>
      case Pawn =>
    }
  }

  lemma FortStep(from: Square, to: Square)
    requires InFort(from) && InFort(to) && (Span(to - from) == 1 || Span(to - from) == 2)
    ensures SameHalf(from, to) && from != to
  {
    Coordinates(from);
    Coordinates(to);
    Halves(from);
    Halves(to);
  }

  /** Every move that passes the attack test and captures no king keeps the position well placed. */
  lemma MoveKeepsWellPlaced(g: Game, mv: Move)
    requires WellPlaced(g) && Pseudo(g, mv)
    requires g.cells[End(mv)].Man? ==> g.cells[End(mv)].kind != King
    ensures WellPlaced(Shifted(g, mv))
  {
    hide Pseudo;
    hide ArmySized;
    var h := Shifted(g, mv);
    LandsPlaced(g, mv);
    ShiftedArmy(g, mv, Red);
    ShiftedArmy(g, mv, Black);
    forall p: Square | h.cells[p].Man?
      ensures Placed(h.cells[p], h.KingAt(h.cells[p].side), p)
    {
      if p != End(mv) {
        assert h.cells[p] == g.cells[p] && Placed(g.cells[p], g.KingAt(g.cells[p].side), p);
      }
    }
  }

  /** Play goes from legal positions to legal positions. */
  lemma PlayedLegal(k: KeyTable, g: Game, mv: Move)
    requires Legal(g) && LegalMove(g, mv)
    ensures Legal(Played(k, g, mv))
  {
    NoKingCapture(g, mv);
    MoveKeepsWellPlaced(g, mv);
    CheckIgnoresTurn(Shifted(g, mv), Played(k, g, mv), g.side);
  }

  lemma PassedLegal(k: KeyTable, g: Game)
    requires Legal(g) && !InCheck(g, g.side)
    ensures Legal(Passed(k, g))
  {
    CheckIgnoresTurn(g, Passed(k, g), g.side);
  }

  // ---- How many moves a position has ----

  ghost function MoveSet(g: Game, captures: bool): set<Move> {
    set mv: Move | IsGenerated(g, mv, captures)
  }

  ghost function MovesFrom(g: Game, from: Square): set<Move> {
    set mv: Move | Start(mv) == from && IsGenerated(g, mv, false)
  }

  function MoveBound(kind: Kind): int {
    match kind
    case King => 4
    case Advisor => 4
    case Bishop => 4
    case Knight => 8
    case Rook => 17
    case Cannon => 17
    case Pawn => 3
  }

  function MoveWeight(side: Side): (Cell, int) -> int {
    (x: Cell, p: int) => if x.Man? && x.side == side then MoveBound(x.kind) else 0
  }

  lemma {:induction false} SubsetSize<T>(a: set<T>, b: set<T>)
    requires a <= b
    ensures |a| <= |b|
  {
    if a != {} {
      var x :| x in a;
      SubsetSize(a - {x}, b - {x});
    }
  }

  lemma StepMoves(g: Game, from: Square, cells: set<int>)
    requires forall mv: Move :: mv in MovesFrom(g, from) ==> End(mv) in cells
    ensures |MovesFrom(g, from)| <= |cells|
  {
    var image := set mv | mv in MovesFrom(g, from) :: End(mv);
    EndsInjective(MovesFrom(g, from), from);
    SubsetSize(image, cells);
  }

  lemma EndsApart(x: Move, y: Move)
    requires x != y && Start(x) == Start(y)
    ensures End(x) != End(y)
  {
    UnpackPack(x);
    UnpackPack(y);
  }

  lemma {:induction false} EndsInjective(s: set<Move>, from: Square)
    requires forall mv: Move :: mv in s ==> Start(mv) == from
    ensures |set mv | mv in s :: End(mv)| == |s|
  {
    hide End, Start;
    if s != {} {
      var x :| x in s;
      EndsInjective(s - {x}, from);
      forall y | y in s - {x}
        ensures End(y) != End(x)
      {
        EndsApart(x, y);
      }
      assert (set mv | mv in s :: End(mv)) == (set mv | mv in s - {x} :: End(mv)) + {End(x)};
    }
  }

  /** The nine cells of a row and the ten cells of a column. */
  function RowCells(row: int): set<int> {
    {16 * row + 3, 16 * row + 4, 16 * row + 5, 16 * row + 6, 16 * row + 7, 16 * row + 8, 16 * row + 9,
     16 * row + 10, 16 * row + 11}
  }

  function ColCells(col: int): set<int> {
    {48 + col, 64 + col, 80 + col, 96 + col, 112 + col, 128 + col, 144 + col, 160 + col, 176 + col, 192 + col}
  }

  function LineCells(from: Square): set<int> {
    (RowCells(Row(from)) - {from as int}) + (ColCells(Col(from)) - {from as int})
  }

  lemma LineCellsSize(from: Square)
    requires InBoard(from)
    ensures |LineCells(from)| <= 17
  {
    hide RowCells, ColCells;
    RowCellsSize(from);
    ColCellsSize(from);
    var r, c := RowCells(Row(from)), ColCells(Col(from));
    assert |r - {from as int}| <= 8 && |c - {from as int}| <= 9;
  }

  lemma RowCellsSize(p: Square)
    requires InBoard(p)
    ensures p in RowCells(Row(p)) && |RowCells(Row(p))| <= 9
  {
    Coordinates(p);
    InRow(Row(p), Col(p));
  }

  lemma InRow(row: int, col: int)
    requires 3 <= col <= 11
    ensures 16 * row + col in RowCells(row) && |RowCells(row)| <= 9
  {
  }

  lemma ColCellsSize(p: Square)
    requires InBoard(p)
    ensures p in ColCells(Col(p)) && |ColCells(Col(p))| <= 10
  {
    InColumn(Row(p), Col(p));
    Coordinates(p);
  }

  lemma InColumn(row: int, col: int)
    requires 3 <= row <= 12
    ensures 16 * row + col in ColCells(col) && |ColCells(col)| <= 10
  {
  }

  lemma LineCellsCover(from: Square, to: Square)
    requires InBoard(from) && InBoard(to) && to != from && Aligned(from, to)
    ensures to in LineCells(from)
  {
    Coordinates(from);
    Coordinates(to);
    if Row(from) == Row(to) {
      assert to in RowCells(Row(from));
    } else {
      assert to in ColCells(Col(from));
    }
  }

  lemma SlideBound(g: Game, from: Square)
    requires WellPlaced(g) && g.cells[from].Man? && g.cells[from].kind in {Rook, Cannon}
    ensures |MovesFrom(g, from)| <= 17
  {
    assert Placed(g.cells[from], g.KingAt(g.cells[from].side), from);
    LineCellsSize(from);
    forall mv: Move | mv in MovesFrom(g, from)
      ensures End(mv) in LineCells(from)
    {
      LineCellsCover(from, End(mv));
    }
    StepMoves(g, from, LineCells(from));
  }

  lemma KnightBound(g: Game, from: Square)
    requires WellPlaced(g) && g.cells[from].Man? && g.cells[from].kind == Knight
    ensures |MovesFrom(g, from)| <= 8
  {
    StepMoves(g, from, {from - 33, from - 31, from - 18, from + 14, from - 14, from + 18, from + 31, from + 33});
  }

  lemma BishopBound(g: Game, from: Square)
    requires WellPlaced(g) && g.cells[from].Man? && g.cells[from].kind == Bishop
    ensures |MovesFrom(g, from)| <= 4
  {
    StepMoves(g, from, {from - 34, from - 30, from + 30, from + 34});
  }

  lemma StepBound(g: Game, from: Square)
    requires WellPlaced(g) && g.cells[from].Man? && g.cells[from].kind in {King, Advisor}
    ensures |MovesFrom(g, from)| <= 4
  {
    hide WellPlaced, InFort, Target;
    if g.cells[from].kind == King {
      StepMoves(g, from, {from - 16, from - 1, from + 1, from + 16});
    } else {
      StepMoves(g, from, {from - 17, from - 15, from + 15, from + 17});
    }
  }

  lemma MovesFromBound(g: Game, from: Square)
    requires WellPlaced(g)
    ensures |MovesFrom(g, from)| <= MoveWeight(g.side)(g.cells[from], from)
  {
    var x := g.cells[from];
    if !(x.Man? && x.side == g.side) {
      assert MovesFrom(g, from) == {};
    } else {
      match x.kind {
        case King => StepBound(g, from);
        case Advisor => StepBound(g, from);
        case Bishop => BishopBound(g, from);
        case Knight => KnightBound(g, from);
        case Rook => SlideBound(g, from);
        case Cannon => SlideBound(g, from);
        case Pawn => StepMoves(g, from, {Forward(g.KingAt(g.side), from), from - 1, from + 1});
      }
    }
  }

  ghost function MovesBefore(g: Game, n: nat): set<Move> {
    set mv: Move | Start(mv) < n && IsGenerated(g, mv, false)
  }

  lemma MovesBeforeStep(g: Game, n: Square)
    ensures MovesBefore(g, n + 1) == MovesBefore(g, n) + MovesFrom(g, n)
  {
    hide IsGenerated;
  }

  lemma {:induction false} MovesBelow(g: Game, n: nat)
    requires WellPlaced(g) && n <= 256
    ensures |MovesBefore(g, n)| <= Sum(Weights(g.cells, MoveWeight(g.side))[..n])
  {
    if n == 0 {
      assert MovesBefore(g, n) == {};
    } else {
      var w := Weights(g.cells, MoveWeight(g.side));
      assert w[n - 1] == MoveWeight(g.side)(g.cells[n - 1], n - 1);
      assert w[..n][..n - 1] == w[..n - 1];
      MovesBelow(g, n - 1);
      MovesFromBound(g, n - 1);
      MovesBeforeStep(g, n - 1);
    }
  }

  /** No well-placed position has more than 119 generated moves: the engine's buffers hold 128. */
  lemma AtMost119Moves(g: Game)
    requires WellPlaced(g)
    ensures |MoveSet(g, false)| <= 119
  {
    assert MoveSet(g, false) == MovesBefore(g, 256) by {
      hide IsGenerated;
    }
    hide MovesBefore, MoveSet, IsGenerated;
    MovesBelow(g, 256);
    var w := Weights(g.cells, MoveWeight(g.side));
    assert w[..256] == w;
    ArmyTotal(g.cells, g.side, MoveWeight(g.side), MoveBound);
  }

  /** A list of generated moves without repetition fits the 128-entry buffers. */
  lemma ListFits(g: Game, mvs: seq<Move>, captures: bool)
    requires WellPlaced(g) && Distinct(mvs) && forall mv :: mv in mvs ==> IsGenerated(g, mv, captures)
    ensures |mvs| <= 119
  {
    hide IsGenerated, WellPlaced, Generated;
    forall mv | mv in mvs
      ensures IsGenerated(g, mv, false)
    {
      CaptureIsMove(g, mv, captures);
    }
    DistinctSize(mvs);
    AtMost119Moves(g);
    SubsetSize((set mv | mv in mvs), MoveSet(g, false));
  }

  lemma CaptureIsMove(g: Game, mv: Move, captures: bool)
    requires IsGenerated(g, mv, captures)
    ensures IsGenerated(g, mv, false)
  {
    hide Generated;
    CapturesAreGenerated(g.cells, g.KingAt(g.side), Start(mv), End(mv));
  }

  // ---- Positions on which moves can be tried ----

  /** A man stands on a cell of higher index. */
  predicate ManAfter(c: Placement, p: Square) {
    exists q: int :: p < q < 256 && c[q] != Empty
  }

  predicate TwoMenAfter(c: Placement, p: Square) {
    exists q: int :: p < q < 256 && c[q] != Empty && ManAfter(c, q)
  }

  /** The attack test of the man on p against p itself stays in the array. The step towards the own
      square is 1, so the walks of king, rook and cannon run up the array until they meet a man, the
      cannon's until it meets two; the other kinds do not walk. */
  predicate SelfTestEnds(c: Placement, p: Square) {
    c[p].Man? ==>
      match c[p].kind
      case King => ManAfter(c, p)
      case Rook => ManAfter(c, p)
      case Cannon => TwoMenAfter(c, p)
      case _ => true
  }

  /** The check test against the king of s is defined: an enemy on the square recorded for that king,
      which has then been captured, must find the end of its walk. */
  predicate TestEnds(c: Placement, king: Square, s: Side) {
    c[king].Man? && c[king].side == s.Other() ==> SelfTestEnds(c, king)
  }

  predicate Determined(g: Game, s: Side) { TestEnds(g.cells, g.KingAt(s), s) }

  /** The walk with step 1 from the cell after p, which never meets its target, stops at a man on at. */
  predicate StopsAt(c: Placement, p: Square, at: Square) {
    p < at && c[at] != Empty && forall q: Square :: p < q < at ==> c[q] == Empty
  }

  lemma {:induction false} FirstMan(c: Placement, p: Square, q: Square) returns (at: Square)
    requires p < q && c[q] != Empty
    ensures StopsAt(c, p, at) && at <= q
    decreases q
  {
    at := q;
    if r: Square :| p < r < q && c[r] != Empty {
      at := FirstMan(c, p, r);
    }
  }

  /** The walk stops in the array exactly if there is a man further up. */
  lemma WalkStops(c: Placement, p: Square)
    ensures (exists at: Square :: StopsAt(c, p, at)) <==> ManAfter(c, p)
  {
    if ManAfter(c, p) {
      var q: Square :| p < q && c[q] != Empty;
      var at := FirstMan(c, p, q);
    }
  }

  /** The cannon's second walk stops too exactly if there are two. */
  lemma SecondWalkStops(c: Placement, p: Square)
    ensures (exists at: Square, on: Square :: StopsAt(c, p, at) && StopsAt(c, at, on)) <==> TwoMenAfter(c, p)
  {
    if TwoMenAfter(c, p) {
      var q: Square :| p < q && c[q] != Empty && ManAfter(c, q);
      var at := FirstMan(c, p, q);
      var r: Square :| q < r && c[r] != Empty;
      var on := FirstMan(c, at, r);
    }
    if at: Square, on: Square :| StopsAt(c, p, at) && StopsAt(c, at, on) {
      assert ManAfter(c, at);
    }
  }

  /** A capture after which the check test leaves the array: the rook takes the Red king and no man
      stands on a higher index. */
  lemma KingCaptureOverruns(g: Game, mv: Move)
    requires g.rk == 199 && g.bk == 55 && g.side == Black && mv == Pack(195, 199)
    requires g.cells == Nothing()[199 := Man(Red, King)][55 := Man(Black, King)][195 := Man(Black, Rook)]
    ensures Pseudo(g, mv) && g.cells[End(mv)] == Man(Red, King)
    ensures !Determined(Shifted(g, mv), Red)
  {
    PackUnpack(195, 199);
    var h := Shifted(g, mv);
    assert h.cells[199] == Man(Black, Rook) && h.rk == 199;
  }

  function Evaluation(g: Game): int {
    Material(g.cells, g.side) - Material(g.cells, g.side.Other()) + 3
  }

  /** In a well-placed position no man stands where the other side's king does. */
  lemma WellPlacedDetermined(g: Game, s: Side)
    requires WellPlaced(g)
    ensures Determined(g, s)
  {
  }

  /** While the king of s stands on its square and the move does not take it, no other man gets there. */
  lemma KingStaysDetermined(g: Game, mv: Move, s: Side)
    requires g.cells[g.KingAt(s)] == Man(s, King) && End(mv) != g.KingAt(s)
    ensures Determined(Shifted(g, mv), s)
  {
  }

  lemma MovedDetermined(k: KeyTable, g: Game, mv: Move, s: Side)
    requires Determined(Shifted(g, mv), s)
    ensures Determined(Moved(k, g, mv), s)
  {
  }

  lemma MovedCheck(k: KeyTable, g: Game, mv: Move, s: Side)
    ensures InCheck(Moved(k, g, mv), s) == InCheck(Shifted(g, mv), s)
  {
    CheckIgnoresTurn(Moved(k, g, mv), Shifted(g, mv), s);
  }

  /** The position after several moves without a change of turn. */
  ghost function AllMoved(k: KeyTable, g: Game, mvs: seq<Move>): Game
    decreases |mvs|
  {
    if mvs == [] then g else AllMoved(k, Moved(k, g, mvs[0]), mvs[1..])
  }

  /** Moves that can be made one inside the other. */
  ghost predicate Makeable(k: KeyTable, g: Game, mvs: seq<Move>)
    decreases |mvs|
  {
    mvs == []
    || (InBoard(End(mvs[0])) && Determined(Shifted(g, mvs[0]), g.side.Other())
      && Makeable(k, Moved(k, g, mvs[0]), mvs[1..]))
  }

  /** Every move that passes the attack test in a position of play can be tried on the board. */
  lemma TriesDetermined(g: Game, mv: Move)
    requires Legal(g) && Pseudo(g, mv)
    ensures Determined(Shifted(g, mv), Red) && Determined(Shifted(g, mv), Black)
  {
    hide Attack, ArmySized, Shifted;
    NoKingCapture(g, mv);
    MoveKeepsWellPlaced(g, mv);
    WellPlacedDetermined(Shifted(g, mv), Red);
    WellPlacedDetermined(Shifted(g, mv), Black);
  }

  /** A move word that can be tried in a legal position: it ends on the board, both check tests after it
      stay in the array, and if it is kept the position is still well placed. */
  predicate Tryable(g: Game, mv: Move) {
    && InBoard(End(mv)) && Determined(Shifted(g, mv), Red) && Determined(Shifted(g, mv), Black)
    && (Safe(g, mv) ==> WellPlaced(Shifted(g, mv)))
  }

  /** Whatever word is tried: if the tests are defined, being tryable means exactly that keeping the
      move would lead to a legal position. */
  lemma TryableExact(k: KeyTable, g: Game, mv: Move)
    requires InBoard(End(mv)) && Determined(Shifted(g, mv), Red) && Determined(Shifted(g, mv), Black)
    ensures Tryable(g, mv) <==> (Safe(g, mv) ==> Legal(Played(k, g, mv)))
  {
    hide WellPlaced, InCheck, Determined;
    CheckIgnoresTurn(Shifted(g, mv), Played(k, g, mv), g.side);
    PlacedIgnoresTurn(Shifted(g, mv), Played(k, g, mv));
  }

  /** Trying does not depend on the history. */
  lemma TryableIgnoresHistory(g: Game, h: Game, mv: Move)
    requires h == g.(hist := h.hist)
    ensures Tryable(g, mv) <==> Tryable(h, mv)
  {
    hide WellPlaced, InCheck, Determined;
    CheckIgnoresTurn(Shifted(g, mv), Shifted(h, mv), g.side);
    PlacedIgnoresTurn(Shifted(g, mv), Shifted(h, mv));
    TestsIgnoreHistory(g, h, mv);
  }

  lemma TestsIgnoreHistory(g: Game, h: Game, mv: Move)
    requires h == g.(hist := h.hist)
    ensures Determined(Shifted(g, mv), Red) <==> Determined(Shifted(h, mv), Red)
    ensures Determined(Shifted(g, mv), Black) <==> Determined(Shifted(h, mv), Black)
  {
  }

  lemma PlacedIgnoresTurn(g: Game, h: Game)
    requires g.cells == h.cells && g.rk == h.rk && g.bk == h.bk
    ensures WellPlaced(g) <==> WellPlaced(h)
  {
  }

  /** Every move that passes the attack test can be tried, in every legal position. */
  lemma PseudoTryable(g: Game, mv: Move)
    requires Legal(g) && Pseudo(g, mv)
    ensures Tryable(g, mv)
  {
    hide Attack, ArmySized, Shifted, Determined, Safe;
    NoKingCapture(g, mv);
    MoveKeepsWellPlaced(g, mv);
    TriesDetermined(g, mv);
  }

  lemma GeneratedTries(g: Game, mv: Move, captures: bool)
    requires Legal(g) && IsGenerated(g, mv, captures)
    ensures Pseudo(g, mv) && Tryable(g, mv)
  {
    hide Attack, Generated, WellPlaced, Shifted, Tryable;
    IsGeneratedPseudo(g, mv, captures);
    PseudoTryable(g, mv);
  }

  lemma IsGeneratedPseudo(g: Game, mv: Move, captures: bool)
    requires WellPlaced(g) && IsGenerated(g, mv, captures)
    ensures Pseudo(g, mv)
  {
    hide Attack, Generated, WellPlaced;
    CapturesAreGenerated(g.cells, g.KingAt(g.side), Start(mv), End(mv));
    PseudoIsGenerated(g, mv);
  }
}
