/** The board turned round: the engine keeps one set of tables and one set of rules for both sides, and
    reads them from the other end for the side whose king stands in the upper half
    (cchess_engine/player_piece.h, board.cc, board.h). Turning a position by half a turn and exchanging
    the colours therefore changes no move, no check and no evaluation. */
module Rotation {
  import opened Geometry
  import opened Pieces
  import opened Rules
  import opened Play
  import opened Mirror
  import opened Repetition
  import opened StartPosition

  lemma TurnSquare(p: Square)
    requires InBoard(p)
    ensures 0 <= 254 - p < 256 && InBoard(254 - p)
    ensures Row(254 - p) == 15 - Row(p) && Col(254 - p) == 14 - Col(p)
    ensures (254 - p) / 128 == 1 - p / 128
  {
    Coordinates(p);
    Coordinates(254 - p);
    Halves(p);
    Halves(254 - p);
  }

  function TurnSq(p: Square): Square
    requires InBoard(p)
  {
    TurnSquare(p);
    254 - p
  }

  function TurnCell(x: Cell): Cell { if x.Man? then Man(x.side.Other(), x.kind) else x }

  function TurnCells(c: Placement): Placement {
    seq(256, p requires 0 <= p < 256 => if InBoard(p) then TurnCell(c[TurnSq(p)]) else Empty)
  }

  /** The position seen from the other end of the board. */
  function Turned(g: Game): Game
    requires InBoard(g.rk) && InBoard(g.bk)
  {
    Game(TurnCells(g.cells), TurnSq(g.bk), TurnSq(g.rk), g.side.Other(), g.hist)
  }

  function TurnMove(mv: Move): Move
    requires InBoard(Start(mv)) && InBoard(End(mv))
  {
    Pack(TurnSq(Start(mv)), TurnSq(End(mv)))
  }

  lemma TurnCellAt(c: Placement, p: Square)
    requires InBoard(p)
    ensures InBoard(TurnSq(p)) && TurnSq(TurnSq(p)) == p && TurnCells(c)[TurnSq(p)] == TurnCell(c[p])
  {
    TurnSquare(p);
  }

  lemma TurnTwice(c: Placement)
    requires OnBoard(c)
    ensures TurnCells(TurnCells(c)) == c
  {
    forall p: Square
      ensures TurnCells(TurnCells(c))[p] == c[p]
    {
      if InBoard(p) {
        TurnSquare(p);
      }
    }
  }

  // ---- Lines ----

  lemma TurnBetween(a: Square, q: Square, b: Square)
    requires InBoard(a) && InBoard(b)
    ensures Between(a, q, b) ==> InBoard(q)
    ensures InBoard(q) ==> (Between(TurnSq(a), TurnSq(q), TurnSq(b)) <==> Between(a, q, b))
  {
    Coordinates(a);
    Coordinates(q);
    Coordinates(b);
    TurnSquare(a);
    TurnSquare(b);
    if InBoard(q) {
      TurnSquare(q);
    }
  }

  lemma TurnAligned(a: Square, b: Square)
    requires InBoard(a) && InBoard(b)
    ensures Aligned(TurnSq(a), TurnSq(b)) <==> Aligned(a, b)
    ensures TurnSq(a) == TurnSq(b) <==> a == b
  {
    TurnSquare(a);
    TurnSquare(b);
  }

  lemma TurnClear(c: Placement, a: Square, b: Square)
    requires InBoard(a) && InBoard(b) && ClearLine(c, a, b)
    ensures ClearLine(TurnCells(c), TurnSq(a), TurnSq(b))
  {
    forall q: Square | Between(TurnSq(a), q, TurnSq(b))
      ensures TurnCells(c)[q] == Empty
    {
      TurnSquare(a);
      TurnSquare(b);
      TurnBetween(TurnSq(a), q, TurnSq(b));
      TurnSquare(q);
    }
  }

  lemma TurnScreen(c: Placement, a: Square, b: Square)
    requires InBoard(a) && InBoard(b) && OneScreen(c, a, b)
    ensures OneScreen(TurnCells(c), TurnSq(a), TurnSq(b))
  {
    var s: Square :| ScreenAt(c, a, s, b);
    TurnBetween(a, s, b);
    TurnCellAt(c, s);
    TurnClear(c, a, s);
    TurnClear(c, s, b);
    assert ScreenAt(TurnCells(c), TurnSq(a), TurnSq(s), TurnSq(b));
  }

  lemma TurnSlide(c: Placement, a: Square, b: Square)
    requires InBoard(a) && InBoard(b)
    ensures Aligned(TurnSq(a), TurnSq(b)) <==> Aligned(a, b)
    ensures TurnSq(a) == TurnSq(b) <==> a == b
    ensures ClearLine(c, a, b) ==> ClearLine(TurnCells(c), TurnSq(a), TurnSq(b))
    ensures OneScreen(c, a, b) ==> OneScreen(TurnCells(c), TurnSq(a), TurnSq(b))
  {
    TurnAligned(a, b);
    if ClearLine(c, a, b) {
      TurnClear(c, a, b);
    }
    if OneScreen(c, a, b) {
      TurnScreen(c, a, b);
    }
  }

  // ---- Steps ----

  lemma TurnTarget(c: Placement, side: Side, to: Square, captures: bool)
    requires InBoard(to)
    ensures Target(TurnCells(c), side.Other(), TurnSq(to), captures) <==> Target(c, side, to, captures)
    ensures Enemy(TurnCells(c), side.Other(), TurnSq(to)) <==> Enemy(c, side, to)
  {
    TurnCellAt(c, to);
  }

  lemma TurnFort(p: Square)
    requires InBoard(p)
    ensures InFort(TurnSq(p)) <==> InFort(p)
  {
    TurnSquare(p);
  }

  lemma TurnHalf(a: Square, b: Square)
    requires InBoard(a) && InBoard(b)
    ensures SameHalf(TurnSq(a), TurnSq(b)) <==> SameHalf(a, b)
  {
    TurnSquare(a);
    TurnSquare(b);
  }

  lemma TurnDeltas(d: int)
    ensures d in KING_DELTA <==> -d in KING_DELTA
    ensures d in ADVISOR_DELTA <==> -d in ADVISOR_DELTA
    ensures Span(-d) == Span(d) && KnightPin(-d) == -KnightPin(d)
  {
  }

  lemma TurnVia(c: Placement, from: Square, d: int)
    requires InBoard(from) && BishopVia(c, from, d)
    ensures InBoard(TurnSq(from)) && BishopVia(TurnCells(c), TurnSq(from), -d)
  {
    TurnSquare(from);
    TurnDeltas(d);
    TurnCellAt(c, from + d);
    TurnHalf(from, from + d);
  }

  /** The cell halfway between two cells of the board. */
  lemma Halfway(from: Square, to: Square)
    requires InBoard(from) && InBoard(to) && Span(to - from) == 3
    ensures InBoard((from + to) / 2) && (TurnSq(from) + TurnSq(to)) / 2 == TurnSq((from + to) / 2)
  {
    var d := to - from;
    var dr := if d < 0 then -1 else 1;
    var dc := d / 2 - 16 * dr;
    assert to == from + 16 * (2 * dr) + 2 * dc && (from + to) / 2 == from + 16 * dr + dc;
    Coordinates(from);
    Coordinates(to);
    Shift(from, 2 * dr, 2 * dc);
    Shift(from, dr, dc);
  }

  /** The leg of a knight's jump on the board is on the board. */
  lemma Leg(from: Square, to: Square)
    requires InBoard(from) && InBoard(to) && KnightPin(to - from) != 0
    ensures 0 <= from + KnightPin(to - from) < 256 && InBoard(from + KnightPin(to - from))
  {
    var d := to - from;
    var dr := if d == -33 || d == -31 then -2 else if d == -18 || d == -14 then -1
              else if d == 14 || d == 18 then 1 else 2;
    var dc := d - 16 * dr;
    var pin := KnightPin(d);
    KnightLeg(from, to, dr, dc, if pin == -16 then -1 else if pin == 16 then 1 else 0,
      if pin == -1 then -1 else if pin == 1 then 1 else 0);
  }

  lemma TurnJump(c: Placement, from: Square, to: Square, i: nat)
    requires InBoard(from) && InBoard(to) && i < 4 && to - from in KNIGHT_DELTA[i]
    requires c[from + KING_DELTA[i]] == Empty
    ensures TurnSq(to) - TurnSq(from) in KNIGHT_DELTA[3 - i]
    ensures TurnCells(c)[TurnSq(from) + KING_DELTA[3 - i]] == Empty
  {
    var d := to - from;
    KnightJumps(d, i);
    KnightJumps(-d, 3 - i);
    assert KnightPin(d) == KING_DELTA[i] && KING_DELTA[3 - i] == -KING_DELTA[i];
    Leg(from, to);
    TurnCellAt(c, from + KING_DELTA[i]);
  }

  lemma TurnPawn(king: Square, from: Square, to: Square)
    requires InBoard(king) && InBoard(from) && InBoard(to)
    requires to == Forward(king, from) || (!SameHalf(king, from) && (to == from - 1 || to == from + 1))
    ensures || TurnSq(to) == Forward(TurnSq(king), TurnSq(from))
            || (!SameHalf(TurnSq(king), TurnSq(from))
                && (TurnSq(to) == TurnSq(from) - 1 || TurnSq(to) == TurnSq(from) + 1))
  {
    hide InBoard;
    TurnSquare(king);
    TurnHalf(king, from);
  }

  // ---- Moves and attacks ----

  /** What is generated on a placement is generated, turned round, on the placement turned round. */
  lemma TurnGenerated(c: Placement, king: Square, from: Square, to: Square, captures: bool)
    requires InBoard(from) && InBoard(to) && InBoard(king) && c[from].Man?
    requires Generated(c, king, from, to, captures)
    ensures InBoard(TurnSq(from)) && TurnCells(c)[TurnSq(from)].Man?
    ensures Generated(TurnCells(c), TurnSq(king), TurnSq(from), TurnSq(to), captures)
  {
    TurnCellAt(c, from);
    TurnCellAt(c, to);
    TurnTarget(c, c[from].side, to, captures);
    TurnDeltas(to - from);
    match c[from].kind {
      case King => TurnFort(to);
      case Advisor => TurnFort(to);
      case Bishop =>
        var d :| BishopVia(c, from, d) && to == from + 2 * d;
        TurnVia(c, from, d);
      case Knight =>
        var i: nat :| i < 4 && to - from in KNIGHT_DELTA[i] && c[from + KING_DELTA[i]] == Empty;
        TurnJump(c, from, to, i);
      case Rook => TurnSlide(c, from, to);
      case Cannon => TurnSlide(c, from, to);
      case Pawn => TurnPawn(king, from, to);
    }
  }

  /** What the attack test accepts, it accepts turned round. */
  lemma TurnAttack(c: Placement, king: Square, from: Square, to: Square)
    requires InBoard(from) && InBoard(to) && InBoard(king) && c[from].Man?
    requires Attack(c, king, from, to)
    ensures InBoard(TurnSq(from)) && TurnCells(c)[TurnSq(from)].Man?
    ensures Attack(TurnCells(c), TurnSq(king), TurnSq(from), TurnSq(to))
  {
    hide InBoard, TurnCells, SameHalf, InFort, KnightPin, Aligned;
    TurnCellAt(c, from);
    TurnCellAt(c, to);
    TurnDeltas(to - from);
    match c[from].kind {
      case King =>
        TurnFort(to);
        TurnSlide(c, from, to);
      case Advisor => TurnFort(to);
      case Bishop => TurnBishop(c, from, to);
      case Knight => TurnKnight(c, from, to);
      case Rook => TurnSlide(c, from, to);
      case Cannon => TurnSlide(c, from, to);
      case Pawn => TurnPawn(king, from, to);
    }
  }

  lemma TurnBishop(c: Placement, from: Square, to: Square)
    requires InBoard(from) && InBoard(to) && Span(to - from) == 3 && SameHalf(from, to) && c[(from + to) / 2] == Empty
    ensures Span(TurnSq(to) - TurnSq(from)) == 3 && SameHalf(TurnSq(from), TurnSq(to))
    ensures TurnCells(c)[(TurnSq(from) + TurnSq(to)) / 2] == Empty
  {
    hide SameHalf;
    TurnDeltas(to - from);
    Halfway(from, to);
    TurnHalf(from, to);
    TurnCellAt(c, (from + to) / 2);
  }

  lemma TurnKnight(c: Placement, from: Square, to: Square)
    requires InBoard(from) && InBoard(to) && KnightPin(to - from) != 0 && c[from + KnightPin(to - from)] == Empty
    ensures KnightPin(TurnSq(to) - TurnSq(from)) != 0
    ensures TurnCells(c)[TurnSq(from) + KnightPin(TurnSq(to) - TurnSq(from))] == Empty
  {
    TurnDeltas(to - from);
    Leg(from, to);
    TurnCellAt(c, from + KnightPin(to - from));
  }

  // ---- Positions ----

  /** All men and both kings' squares are on the board. */
  ghost predicate Inside(g: Game) {
    InBoard(g.rk) && InBoard(g.bk) && OnBoard(g.cells)
  }

  lemma ShapedInside(g: Game)
    requires Shaped(g)
    ensures Inside(g)
  {
  }

  lemma TurnedTwice(g: Game)
    requires Inside(g)
    ensures Inside(Turned(g)) && Turned(Turned(g)) == g
  {
    TurnSquare(g.rk);
    TurnSquare(g.bk);
    TurnTwice(g.cells);
  }

  lemma TurnKings(g: Game, s: Side)
    requires Inside(g)
    ensures InBoard(g.KingAt(s)) && Turned(g).KingAt(s.Other()) == TurnSq(g.KingAt(s))
  {
  }

  lemma TurnThreat(g: Game, s: Side, p: Square)
    requires Inside(g) && Threat(g, s, p)
    ensures InBoard(p) && Threat(Turned(g), s.Other(), TurnSq(p))
  {
    hide Attack, TurnCells;
    TurnKings(g, s);
    TurnKings(g, s.Other());
    TurnCellAt(g.cells, p);
    TurnAttack(g.cells, g.KingAt(s.Other()), p, g.KingAt(s));
  }

  /** A side is in check exactly if the other side is in the position turned round. */
  lemma TurnCheck(g: Game, s: Side)
    requires Inside(g)
    ensures InCheck(Turned(g), s.Other()) <==> InCheck(g, s)
  {
    hide Threat, Turned;
    TurnedTwice(g);
    if p: Square :| Threat(g, s, p) {
      TurnThreat(g, s, p);
    }
    if p: Square :| Threat(Turned(g), s.Other(), p) {
      TurnThreat(Turned(g), s.Other(), p);
    }
  }

  lemma TurnPlaced(x: Cell, king: Square, p: Square)
    requires x.Man? && Placed(x, king, p) && InBoard(king)
    ensures InBoard(p) && Placed(TurnCell(x), TurnSq(king), TurnSq(p))
  {
    TurnSquare(p);
    TurnFort(p);
    TurnHalf(p, king);
  }

  lemma TurnShaped(g: Game)
    requires Shaped(g)
    ensures Shaped(Turned(g))
  {
    hide Placed, TurnCells;
    var h := Turned(g);
    TurnSquare(g.rk);
    TurnSquare(g.bk);
    forall p: Square | h.cells[p].Man?
      ensures Placed(h.cells[p], h.KingAt(h.cells[p].side), p)
    {
      TurnManAt(g, p);
    }
  }

  lemma TurnManAt(g: Game, p: Square)
    requires Shaped(g) && Turned(g).cells[p].Man?
    ensures var h := Turned(g); Placed(h.cells[p], h.KingAt(h.cells[p].side), p)
  {
    assert InBoard(p);
    TurnCellAt(g.cells, p);
    var q := TurnSq(p);
    TurnCellAt(g.cells, q);
    TurnPlaced(g.cells[q], g.KingAt(g.cells[q].side), q);
  }

  // ---- Moves of the position turned round ----

  lemma TurnMoveParts(mv: Move)
    requires InBoard(Start(mv)) && InBoard(End(mv))
    ensures Start(TurnMove(mv)) == TurnSq(Start(mv)) && End(TurnMove(mv)) == TurnSq(End(mv))
    ensures InBoard(Start(TurnMove(mv))) && InBoard(End(TurnMove(mv))) && TurnMove(TurnMove(mv)) == mv
  {
    hide InBoard;
    TurnSquare(Start(mv));
    TurnSquare(End(mv));
    PackUnpack(TurnSq(Start(mv)), TurnSq(End(mv)));
    UnpackPack(mv);
  }

  lemma TurnIsGenerated(g: Game, mv: Move, captures: bool)
    requires Shaped(g) && IsGenerated(g, mv, captures)
    ensures InBoard(Start(mv)) && InBoard(End(mv)) && IsGenerated(Turned(g), TurnMove(mv), captures)
  {
    hide Generated, TurnCells;
    GeneratedOnBoard(g, Start(mv), End(mv), captures);
    TurnMoveParts(mv);
    TurnCellAt(g.cells, Start(mv));
    TurnGenerated(g.cells, g.KingAt(g.side), Start(mv), End(mv), captures);
  }

  /** Turning a position round turns its generated moves round, and adds none. */
  lemma TurnMoves(g: Game, mv: Move, captures: bool)
    requires Shaped(g) && InBoard(Start(mv)) && InBoard(End(mv))
    ensures IsGenerated(Turned(g), TurnMove(mv), captures) <==> IsGenerated(g, mv, captures)
  {
    hide IsGenerated, Turned;
    ShapedInside(g);
    TurnedTwice(g);
    TurnShaped(g);
    TurnMoveParts(mv);
    if IsGenerated(g, mv, captures) {
      TurnIsGenerated(g, mv, captures);
    }
    if IsGenerated(Turned(g), TurnMove(mv), captures) {
      TurnIsGenerated(Turned(g), TurnMove(mv), captures);
    }
  }

  lemma TurnPasses(g: Game, mv: Move)
    requires Inside(g) && Pseudo(g, mv)
    ensures InBoard(Start(mv)) && InBoard(End(mv)) && Pseudo(Turned(g), TurnMove(mv))
  {
    hide Attack, TurnCells;
    TurnMoveParts(mv);
    TurnKings(g, g.side);
    TurnCellAt(g.cells, Start(mv));
    TurnCellAt(g.cells, End(mv));
    TurnAttack(g.cells, g.KingAt(g.side), Start(mv), End(mv));
  }

  /** ... and what passes the attack test. */
  lemma TurnPseudo(g: Game, mv: Move)
    requires Inside(g) && InBoard(Start(mv)) && InBoard(End(mv))
    ensures Pseudo(Turned(g), TurnMove(mv)) <==> Pseudo(g, mv)
  {
    hide Pseudo, Turned;
    TurnedTwice(g);
    TurnMoveParts(mv);
    if Pseudo(g, mv) {
      TurnPasses(g, mv);
    }
    if Pseudo(Turned(g), TurnMove(mv)) {
      TurnPasses(Turned(g), TurnMove(mv));
    }
  }

  lemma TurnMoveCells(c: Placement, s: Square, e: Square)
    requires InBoard(s) && InBoard(e)
    ensures MoveCells(TurnCells(c), TurnSq(s), TurnSq(e)) == TurnCells(MoveCells(c, s, e))
  {
    var a, b := MoveCells(TurnCells(c), TurnSq(s), TurnSq(e)), TurnCells(MoveCells(c, s, e));
    TurnCellAt(c, s);
    TurnCellAt(c, e);
    forall p: Square
      ensures a[p] == b[p]
    {
      if InBoard(p) {
        TurnSquare(p);
      }
    }
  }

  lemma TurnShifted(g: Game, mv: Move)
    requires Inside(g) && InBoard(Start(mv)) && InBoard(End(mv))
    ensures Inside(Shifted(g, mv)) && Shifted(Turned(g), TurnMove(mv)) == Turned(Shifted(g, mv))
  {
    hide TurnCells, MoveCells;
    TurnMoveParts(mv);
    TurnMoveCells(g.cells, Start(mv), End(mv));
    TurnCellAt(g.cells, Start(mv));
    ShiftedInside(g, mv);
    TurnSquare(Start(mv));
    TurnSquare(End(mv));
  }

  lemma ShiftedInside(g: Game, mv: Move)
    requires Inside(g) && InBoard(Start(mv)) && InBoard(End(mv))
    ensures Inside(Shifted(g, mv))
  {
  }

  /** A move leaves the own king safe exactly if it does so turned round. */
  lemma TurnSafe(g: Game, mv: Move)
    requires Inside(g) && InBoard(Start(mv)) && InBoard(End(mv))
    ensures Safe(Turned(g), TurnMove(mv)) <==> Safe(g, mv)
  {
    hide InCheck, Shifted;
    TurnShifted(g, mv);
    TurnCheck(Shifted(g, mv), g.side);
  }

  // ---- Pawns ----

  /** The generated moves of a pawn in rows and columns: one row towards the half its own king is not in,
      and beyond the river one column to either side, never back. */
  lemma PawnMoves(g: Game, from: Square, to: Square, captures: bool)
    requires WellPlaced(g) && g.cells[from].Man? && g.cells[from].kind == Pawn
    ensures InBoard(from)
    ensures var own, low := g.cells[from].side, Row(g.KingAt(g.cells[from].side)) >= 8;
            Generated(g.cells, g.KingAt(own), from, to, captures) <==>
              && InBoard(to) && Target(g.cells, own, to, captures)
              && ((Col(to) == Col(from) && Row(to) == Row(from) + (if low then -1 else 1))
                  || (Row(to) == Row(from) && (Col(to) == Col(from) + 1 || Col(to) == Col(from) - 1)
                      && (Row(from) < 8 <==> low)))
  {
    hide Target, ArmySized;
    assert Placed(g.cells[from], g.KingAt(g.cells[from].side), from);
    Coordinates(from);
    Coordinates(to);
    Halves(from);
    Halves(g.KingAt(g.cells[from].side));
  }

  /** In a game played from the start position Red's king stays in the lower half and Black's in the upper. */
  lemma {:induction false} KingsStayHome(k: KeyTable, gs: seq<Game>, mvs: seq<Move>, i: nat)
    requires Run(k, gs, mvs) && gs[0] == StartGame() && i <= |mvs|
    ensures WellPlaced(gs[i]) && Row(gs[i].rk) >= 8 && Row(gs[i].bk) < 8
  {
    hide Pseudo, StartCells, WellPlaced, Step;
    RunLegal(k, gs, mvs, i);
    if i > 0 {
      KingsStayHome(k, gs, mvs, i - 1);
      RunLegal(k, gs, mvs, i - 1);
      assert Step(k, gs[i - 1], mvs[i - 1], gs[i]);
      StayHome(k, gs[i - 1], mvs[i - 1], gs[i]);
    }
  }

  lemma StayHome(k: KeyTable, g: Game, mv: Move, h: Game)
    requires Legal(g) && Step(k, g, mv, h)
    ensures (Row(h.rk) >= 8 <==> Row(g.rk) >= 8) && (Row(h.bk) >= 8 <==> Row(g.bk) >= 8)
  {
    NoKingCapture(g, mv);
    LandsPlaced(g, mv);
    Halves(g.rk);
    Halves(g.bk);
    Halves(h.rk);
    Halves(h.bk);
  }

  /** So there Red's pawns go up the board, or aside in its upper half, and Black's go down it, or aside in
      its lower half: none ever steps back. */
  lemma PawnsAdvance(k: KeyTable, gs: seq<Game>, mvs: seq<Move>, i: nat, mv: Move, captures: bool)
    requires Run(k, gs, mvs) && gs[0] == StartGame() && i <= |mvs|
    requires IsGenerated(gs[i], mv, captures) && gs[i].cells[Start(mv)].kind == Pawn
    ensures var rows := Row(End(mv)) - Row(Start(mv));
            if gs[i].side == Red then rows == -1 || (rows == 0 && Row(Start(mv)) < 8)
            else rows == 1 || (rows == 0 && Row(Start(mv)) >= 8)
  {
    hide WellPlaced, Generated, Run, Target;
    RunLength(k, gs, mvs);
    KingsStayHome(k, gs, mvs, i);
    PawnMoves(gs[i], Start(mv), End(mv), captures);
  }

  // ---- Evaluation ----

  lemma {:induction false} SumConcat(a: seq<int>, b: seq<int>)
    ensures Sum(a + b) == Sum(a) + Sum(b)
  {
    if b == [] {
      assert a + b == a;
    } else {
      assert (a + b)[..|a + b| - 1] == a + b[..|b| - 1];
      SumConcat(a, b[..|b| - 1]);
    }
  }

  /** The same numbers in the opposite order have the same sum. */
  lemma {:induction false} SumBackwards(s: seq<int>, t: seq<int>)
    requires |s| == |t| && forall i :: 0 <= i < |s| ==> t[i] == s[|s| - 1 - i]
    ensures Sum(t) == Sum(s)
  {
    if s != [] {
      var n := |s| - 1;
      assert t == [s[n]] + t[1..];
      SumBackwards(s[..n], t[1..]);
      SumConcat([s[n]], t[1..]);
      assert [s[n]][..0] == [];
    }
  }

  /** A total over a placement is the total over it turned round, if each man counts as before. */
  lemma TurnTotal(c: Placement, f: (Cell, int) -> int, h: (Cell, int) -> int)
    requires forall p: Square :: if InBoard(p) then h(TurnCell(c[p]), TurnSq(p)) == f(c[p], p)
               else f(c[p], p) == 0 && h(Empty, p) == 0
    ensures Total(TurnCells(c), h) == Total(c, f)
  {
    var s, t := Weights(c, f), Weights(TurnCells(c), h);
    forall p: Square | p < 255
      ensures t[p] == s[254 - p]
    {
      if InBoard(p) {
        TurnSquare(p);
        assert t[p] == h(TurnCell(c[TurnSq(p)]), TurnSq(TurnSq(p)));
      } else {
        Outside(p);
      }
    }
    assert s[255] == 0 && t[255] == 0;
    SumBackwards(s[..255], t[..255]);
  }

  lemma Outside(p: Square)
    requires p < 255 && !InBoard(p)
    ensures !InBoard(254 - p)
  {
    if InBoard(254 - p) {
      TurnSquare(254 - p);
    }
  }

  lemma TurnValue(x: Cell, side: Side, p: Square)
    requires InBoard(p)
    ensures MaterialOf(side.Other())(TurnCell(x), TurnSq(p)) == MaterialOf(side)(x, p)
  {
    hide TableValue;
    TurnSquare(p);
  }

  lemma TurnMaterial(c: Placement, side: Side)
    requires OnBoard(c)
    ensures Material(TurnCells(c), side.Other()) == Material(c, side)
  {
    hide TableValue, TurnCells, Total;
    forall p: Square
      ensures if InBoard(p) then MaterialOf(side.Other())(TurnCell(c[p]), TurnSq(p)) == MaterialOf(side)(c[p], p)
              else MaterialOf(side)(c[p], p) == 0 && MaterialOf(side.Other())(Empty, p) == 0
    {
      if InBoard(p) {
        TurnValue(c[p], side, p);
      }
    }
    TurnTotal(c, MaterialOf(side), MaterialOf(side.Other()));
  }

  /** The evaluation is the same from the other end of the board: neither side's men are worth more. */
  lemma TurnEvaluation(g: Game)
    requires Inside(g)
    ensures Evaluation(Turned(g)) == Evaluation(g)
  {
    hide Material;
    TurnMaterial(g.cells, Red);
    TurnMaterial(g.cells, Black);
  }

  lemma TurnCount(c: Placement, m: Cell)
    requires OnBoard(c) && m.Man?
    ensures Count(TurnCells(c), TurnCell(m)) == Count(c, m)
  {
    TurnTotal(c, OneIf(m), OneIf(TurnCell(m)));
  }

  lemma TurnArmy(c: Placement, side: Side)
    requires OnBoard(c) && ArmySized(c, side)
    ensures ArmySized(TurnCells(c), side.Other())
  {
    hide Count, TurnCells;
    forall kind: Kind
      ensures Count(TurnCells(c), Man(side.Other(), kind)) <= ArmyBound(kind)
    {
      TurnCount(c, Man(side, kind));
    }
  }

  /** Turned round, positions of play stay positions of play. */
  lemma TurnLegal(g: Game)
    requires Legal(g)
    ensures Inside(g) && Legal(Turned(g))
  {
    hide ArmySized, InCheck, TurnCells, Placed;
    WellPlacedShaped(g);
    ShapedInside(g);
    TurnShaped(g);
    TurnArmy(g.cells, Red);
    TurnArmy(g.cells, Black);
    TurnCheck(g, g.side.Other());
    TurnKingsPlaced(g);
  }

  lemma TurnKingsPlaced(g: Game)
    requires WellPlaced(g)
    ensures Inside(g)
    ensures var h := Turned(g);
            && h.cells[h.rk] == Man(Red, King) && h.cells[h.bk] == Man(Black, King)
            && InFort(h.rk) && InFort(h.bk) && !SameHalf(h.rk, h.bk)
  {
    TurnCellAt(g.cells, g.rk);
    TurnCellAt(g.cells, g.bk);
    TurnFort(g.rk);
    TurnFort(g.bk);
    TurnHalf(g.rk, g.bk);
  }

  /** The start position is its own image with the colours exchanged, so it is worth the 3 for the move. */
  lemma StartEvaluation()
    ensures TurnCells(StartCells()) == StartCells() && Evaluation(StartGame()) == 3
  {
    hide Material;
    forall p: Square
      ensures TurnCells(StartCells())[p] == StartCells()[p]
    {
      StartTurned(p);
    }
    TurnMaterial(StartCells(), Red);
  }

  lemma StartTurned(p: Square)
    ensures TurnCells(StartCells())[p] == StartCells()[p]
    ensures StartCells()[p].Man? ==> InBoard(p)
  {
    if InBoard(p) {
      TurnSquare(p);
    }
  }

  /** A man alone on the board. */
  function Alone(side: Side, kind: Kind, p: Square): Placement { Nothing()[p := Man(side, kind)] }

  lemma AloneMaterial(side: Side, kind: Kind, p: Square)
    requires InBoard(p)
    ensures Material(Alone(side, kind, p), side) == ManValue(side, kind, p)
  {
    SumZero(Weights(Nothing(), MaterialOf(side)));
    TotalUpdate(Nothing(), MaterialOf(side), p, Man(side, kind));
  }

  /** What a man of either side is worth on the middle file, counted from the far end of the board. */
  function MiddleFile(kind: Kind): seq<int> {
    match kind
    case King => [0, 0, 0, 0, 0, 0, 0, 1, 2, 15]
    case Advisor => [0, 0, 0, 0, 0, 0, 0, 0, 23, 0]
    case Bishop => [0, 0, 0, 0, 0, 0, 0, 23, 0, 0]
    case Knight => [90, 94, 99, 100, 104, 103, 98, 92, 78, 90]
    case Rook => [214, 233, 216, 216, 215, 215, 214, 212, 200, 200]
    case Cannon => [90, 89, 92, 100, 100, 100, 96, 101, 98, 99]
    case Pawn => [13, 44, 37, 30, 29, 16, 15, 0, 0, 0]
  }

  lemma MiddleFileAt(kind: Kind, row: nat)
    requires row < 10
    ensures |MiddleFile(kind)| == 10 && TableValue(kind, 55 + 16 * row) == MiddleFile(kind)[row]
  {
    hide Row, Col;
    MiddleSquare(row);
  }

  lemma MiddleSquare(row: nat)
    requires row < 10
    ensures Row(55 + 16 * row) == 3 + row && Col(55 + 16 * row) == 7
  {
  }

  /** The material of a side with one man, on the middle file: each side counts the rows from the end of
      the board it does not start from. */
  lemma AloneInTheMiddle(side: Side, kind: Kind, row: nat)
    requires row < 10
    ensures var p := if side == Red then 55 + 16 * row else 199 - 16 * row;
            |MiddleFile(kind)| == 10 && Material(Alone(side, kind, p), side) == MiddleFile(kind)[row]
  {
    hide Material, TableValue, MiddleFile, Alone;
    var p := if side == Red then 55 + 16 * row else 199 - 16 * row;
    Shift(55, row, 0);
    Shift(55, 9 - row, 0);
    AloneMaterial(side, kind, p);
    MiddleFileAt(kind, row);
  }

  /** The tables are the same on the left and on the right. */
  lemma TablesMirror(kind: Kind, p: Square)
    requires InBoard(p)
    ensures InBoard(MirrorSq(p)) && TableValue(kind, MirrorSq(p)) == TableValue(kind, p)
  {
    hide Row, Col, MirrorPos, KnightRow, RookRow, CannonRow, PawnRow;
    MirrorSquare(p);
    var row, i := Row(p), Col(p) - 3;
    KnightMirror(row);
    RookMirror(row);
    CannonMirror(row);
    PawnMirror(row);
    PalindromeAt(KnightRow(row), i);
    PalindromeAt(RookRow(row), i);
    PalindromeAt(CannonRow(row), i);
    PalindromeAt(PawnRow(row), i);
  }

  predicate Palindrome(r: seq<int>) {
    |r| == 9 && r[0] == r[8] && r[1] == r[7] && r[2] == r[6] && r[3] == r[5]
  }

  lemma PalindromeAt(r: seq<int>, i: int)
    requires Palindrome(r) && 0 <= i < 9
    ensures r[8 - i] == r[i]
  {
  }

  lemma KnightMirror(row: int)
    requires 3 <= row <= 12
    ensures Palindrome(KnightRow(row))
  {
  }

  lemma RookMirror(row: int)
    requires 3 <= row <= 12
    ensures Palindrome(RookRow(row))
  {
  }

  lemma CannonMirror(row: int)
    requires 3 <= row <= 12
    ensures Palindrome(CannonRow(row))
  {
  }

  lemma PawnMirror(row: int)
    requires 3 <= row <= 12
    ensures Palindrome(PawnRow(row))
  {
  }
}
