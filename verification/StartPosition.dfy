/** The start position: its text is the one reset loads, and it is a legal position
    (cchess_engine/board.h, board.cc). */
module StartPosition {
  import opened Geometry
  import opened Pieces
  import opened Rules
  import opened Play
  import opened Fen

  const BLACK_HALF := "rnbakabnr/9/1c5c1/p1p1p1p1p/9/"

  const RED_HALF := "9/P1P1P1P1P/1C5C1/9/RNBAKABNR w"

  /** The text that reset loads. */
  const START := BLACK_HALF + RED_HALF

  const RANK: seq<Kind> := [Rook, Knight, Bishop, Advisor, King, Advisor, Bishop, Knight, Rook]

  /** The men of the start position, row by row. */
  function StartCell(p: Square): Cell {
    var row, col := Row(p), Col(p);
    if !(3 <= col <= 11) then Empty
    else if row == 3 then Man(Black, RANK[col - 3])
    else if row == 5 && (col == 4 || col == 10) then Man(Black, Cannon)
    else if row == 6 && col % 2 == 1 then Man(Black, Pawn)
    else if row == 9 && col % 2 == 1 then Man(Red, Pawn)
    else if row == 10 && (col == 4 || col == 10) then Man(Red, Cannon)
    else if row == 12 then Man(Red, RANK[col - 3])
    else Empty
  }

  function StartCells(): Placement { seq(256, p requires 0 <= p < 256 => StartCell(p)) }

  /** The text of a row, from cell i on, with a run of n empty cells pending. */
  function RowText(cells: seq<Cell>, i: nat, n: nat): string
    requires |cells| == 9 && i <= 9 && n <= i
    decreases 9 - i
  {
    if i == 9 then EmptyRun(n)
    else if cells[i].Man? then EmptyRun(n) + [Letter(cells[i])] + RowText(cells, i + 1, 0)
    else RowText(cells, i + 1, n + 1)
  }

  function RowOf(c: Placement, row: nat): seq<Cell>
    requires row < 10
  {
    seq(9, i requires 0 <= i < 9 => CellAt(c, row, i))
  }

  function After(c: Placement, side: Side, row: nat): string
    requires row < 10
  {
    if row == 9 then [' ', SideLetter(side)] else "/" + Print(c, side, row + 1, 0, 0)
  }

  lemma {:induction false} PrintRow(c: Placement, side: Side, row: nat, i: nat, n: nat)
    requires row < 10 && i <= 9 && n <= i
    ensures Print(c, side, row, i, n) == RowText(RowOf(c, row), i, n) + After(c, side, row)
    decreases 9 - i
  {
    hide Letter, CellAt, EmptyRun, Print, After;
    if i == 9 {
      PrintLast(c, side, row, n);
    } else {
      assert RowOf(c, row)[i] == CellAt(c, row, i);
      if CellAt(c, row, i).Man? {
        PrintRow(c, side, row, i + 1, 0);
        PrintMan(c, side, row, i, n);
        Regroup(EmptyRun(n), Letter(CellAt(c, row, i)), RowText(RowOf(c, row), i + 1, 0), After(c, side, row));
      } else {
        PrintRow(c, side, row, i + 1, n + 1);
        PrintEmpty(c, side, row, i, n);
      }
    }
  }

  lemma PrintLast(c: Placement, side: Side, row: nat, n: nat)
    requires row < 10 && n <= 9
    ensures Print(c, side, row, 9, n) == EmptyRun(n) + After(c, side, row)
  {
    PrintEnd(c, side, row, n);
  }

  lemma Regroup(run: string, letter: char, rest: string, after: string)
    ensures run + ([letter] + (rest + after)) == run + [letter] + rest + after
  {
  }

  const RED_RANK := [Man(Red, Rook), Man(Red, Knight), Man(Red, Bishop), Man(Red, Advisor), Man(Red, King),
                     Man(Red, Advisor), Man(Red, Bishop), Man(Red, Knight), Man(Red, Rook)]
  const BLACK_RANK := [Man(Black, Rook), Man(Black, Knight), Man(Black, Bishop), Man(Black, Advisor), Man(Black, King),
                       Man(Black, Advisor), Man(Black, Bishop), Man(Black, Knight), Man(Black, Rook)]

  function Cannons(side: Side): seq<Cell> {
    [Empty, Man(side, Cannon), Empty, Empty, Empty, Empty, Empty, Man(side, Cannon), Empty]
  }

  function Pawns(side: Side): seq<Cell> {
    [Man(side, Pawn), Empty, Man(side, Pawn), Empty, Man(side, Pawn), Empty, Man(side, Pawn), Empty, Man(side, Pawn)]
  }

  const NO_MEN: seq<Cell> := [Empty, Empty, Empty, Empty, Empty, Empty, Empty, Empty, Empty]

  lemma RankText(side: Side)
    ensures RowText(if side == Red then RED_RANK else BLACK_RANK, 0, 0)
         == if side == Red then "RNBAKABNR" else "rnbakabnr"
  {
  }

  lemma CannonsText(side: Side)
    ensures RowText(Cannons(side), 0, 0) == if side == Red then "1C5C1" else "1c5c1"
  {
  }

  lemma PawnsText(side: Side)
    ensures RowText(Pawns(side), 0, 0) == if side == Red then "P1P1P1P1P" else "p1p1p1p1p"
  {
  }

  lemma NoMenText()
    ensures RowText(NO_MEN, 0, 0) == "9"
  {
  }

  lemma BlackRows()
    ensures var c := StartCells();
            && RowOf(c, 0) == BLACK_RANK && RowOf(c, 1) == NO_MEN && RowOf(c, 2) == Cannons(Black)
            && RowOf(c, 3) == Pawns(Black) && RowOf(c, 4) == NO_MEN
  {
  }

  lemma RedRows()
    ensures var c := StartCells();
            && RowOf(c, 5) == NO_MEN && RowOf(c, 6) == Pawns(Red) && RowOf(c, 7) == Cannons(Red)
            && RowOf(c, 8) == NO_MEN && RowOf(c, 9) == RED_RANK
  {
  }

  lemma RowThen(c: Placement, row: nat, text: string, rest: string)
    requires row < 9 && RowText(RowOf(c, row), 0, 0) == text && Print(c, Red, row + 1, 0, 0) == rest
    ensures Print(c, Red, row, 0, 0) == text + ("/" + rest)
  {
    hide Print, RowText, RowOf;
    PrintRow(c, Red, row, 0, 0);
  }

  lemma RedHalfRows()
    ensures "9" + ("/" + ("P1P1P1P1P" + ("/" + ("1C5C1" + ("/" + ("9" + ("/" + ("RNBAKABNR" + " w")))))))) == RED_HALF
  {
  }

  lemma BlackHalfRows(rest: string)
    ensures "rnbakabnr" + ("/" + ("9" + ("/" + ("1c5c1" + ("/" + ("p1p1p1p1p" + ("/" + ("9" + ("/" + rest)))))))))
         == BLACK_HALF + rest
  {
    assert "rnbakabnr" + ("/" + ("9" + ("/" + ("1c5c1" + ("/" + ("p1p1p1p1p" + ("/" + ("9" + "/")))))))) == BLACK_HALF;
  }

  lemma RedHalf(c: Placement)
    requires c == StartCells()
    ensures Print(c, Red, 5, 0, 0) == RED_HALF
  {
    hide Print, RowText, StartCells, RowOf, Cannons, Pawns;
    RedRows();
    RankText(Red);
    CannonsText(Red);
    PawnsText(Red);
    NoMenText();
    PrintRow(c, Red, 9, 0, 0);
    var r9 := "RNBAKABNR" + " w";
    var r8 := "9" + ("/" + r9);
    var r7 := "1C5C1" + ("/" + r8);
    var r6 := "P1P1P1P1P" + ("/" + r7);
    RowThen(c, 8, "9", r9);
    RowThen(c, 7, "1C5C1", r8);
    RowThen(c, 6, "P1P1P1P1P", r7);
    RowThen(c, 5, "9", r6);
    RedHalfRows();
  }

  /** The text of the start position is the one that reset loads. */
  lemma StartText()
    ensures Text(StartCells(), Red) == START
  {
    hide Print, RowText, StartCells, RowOf, Cannons, Pawns;
    var c := StartCells();
    RedHalf(c);
    BlackRows();
    RankText(Black);
    CannonsText(Black);
    PawnsText(Black);
    NoMenText();
    var r4 := "9" + ("/" + RED_HALF);
    var r3 := "p1p1p1p1p" + ("/" + r4);
    var r2 := "1c5c1" + ("/" + r3);
    var r1 := "9" + ("/" + r2);
    RowThen(c, 4, "9", RED_HALF);
    RowThen(c, 3, "p1p1p1p1p", r4);
    RowThen(c, 2, "1c5c1", r3);
    RowThen(c, 1, "9", r2);
    RowThen(c, 0, "rnbakabnr", r1);
    BlackHalfRows(RED_HALF);
  }

  // ---- Counting men ----

  ghost function Ones(c: Placement, f: (Cell, int) -> int, n: nat): set<Square> {
    set p: Square | p < n && f(c[p], p) == 1
  }

  lemma {:induction false} SumIsSize(c: Placement, f: (Cell, int) -> int, n: nat)
    requires n <= 256 && forall p: Square :: f(c[p], p) == 0 || f(c[p], p) == 1
    ensures Sum(Weights(c, f)[..n]) == |Ones(c, f, n)|
  {
    if n == 0 {
      assert Ones(c, f, 0) == {};
    } else {
      SumIsSize(c, f, n - 1);
      assert Weights(c, f)[..n][..n - 1] == Weights(c, f)[..n - 1];
      if f(c[n - 1], n - 1) == 1 {
        assert Ones(c, f, n) == Ones(c, f, n - 1) + {n - 1};
      } else {
        assert Ones(c, f, n) == Ones(c, f, n - 1);
      }
    }
  }

  /** A total of ones is at most the size of any set of squares that holds them. */
  lemma TotalWithin(c: Placement, f: (Cell, int) -> int, squares: set<Square>)
    requires forall p: Square :: f(c[p], p) == 0 || (f(c[p], p) == 1 && p in squares)
    ensures Total(c, f) <= |squares|
  {
    SumIsSize(c, f, 256);
    assert Weights(c, f)[..256] == Weights(c, f);
    SubsetSize(Ones(c, f, 256), squares);
  }

  // ---- The start position is legal ----

  function StartGame(): Game { Game(StartCells(), 199, 55, Red, []) }

  /** The squares of one kind in the start position. */
  function Stations(side: Side, kind: Kind): set<Square> {
    var row := if side == Red then 192 else 48;
    match kind
    case King => {row + 7}
    case Advisor => {row + 6, row + 8}
    case Bishop => {row + 5, row + 9}
    case Knight => {row + 4, row + 10}
    case Rook => {row + 3, row + 11}
    case Cannon => if side == Red then {164, 170} else {84, 90}
    case Pawn => if side == Red then {147, 149, 151, 153, 155} else {99, 101, 103, 105, 107}
  }

  lemma StationsHold(p: Square)
    requires StartCell(p).Man?
    ensures p in Stations(StartCell(p).side, StartCell(p).kind)
  {
    assert p == 16 * Row(p) + Col(p);
  }

  lemma StationsSize(side: Side, kind: Kind)
    ensures |Stations(side, kind)| <= ArmyBound(kind)
  {
  }

  lemma StartArmy(side: Side)
    ensures ArmySized(StartCells(), side)
  {
    hide StartCell, Stations, Total;
    var c := StartCells();
    forall kind: Kind
      ensures Count(c, Man(side, kind)) <= ArmyBound(kind)
    {
      forall p: Square | c[p] == Man(side, kind)
        ensures p in Stations(side, kind)
      {
        StationsHold(p);
      }
      TotalWithin(c, OneIf(Man(side, kind)), Stations(side, kind));
      StationsSize(side, kind);
    }
  }

  lemma StartPlaced(p: Square)
    requires StartCell(p).Man?
    ensures Placed(StartCell(p), StartGame().KingAt(StartCell(p).side), p)
  {
    StationsHold(p);
  }

  /** No man on its first square attacks the other side's king on its own, as long as a man stands
      between the two kings. */
  lemma NoThreatFrom(g: Game, s: Side, p: Square)
    requires g.rk == 199 && g.bk == 55 && g.cells[103].Man?
    requires g.cells[p].Man? && g.cells[p].side == s.Other() && p in Stations(s.Other(), g.cells[p].kind)
    ensures !Threat(g, s, p)
  {
    match g.cells[p].kind {
      case King => assert Between(199, 103, 55) && Between(55, 103, 199);
      case _ => StationsFar(s, g.cells[p].kind, p);
    }
  }

  /** No man of the start position attacks the other side's king. */
  lemma StartNoThreat(s: Side, p: Square)
    requires StartCell(p).Man? && StartCell(p).side == s.Other()
    ensures !Threat(StartGame(), s, p)
  {
    hide Stations;
    StationsHold(p);
    assert StartCells()[103] == Man(Black, Pawn);
    NoThreatFrom(StartGame(), s, p);
  }

  lemma StationsFar(s: Side, kind: Kind, p: Square)
    requires kind != King && p in Stations(s.Other(), kind)
    ensures var k := StartGame().KingAt(s);
            && Span(k - p) == 0 && KnightPin(k - p) == 0 && (Aligned(p, k) ==> kind == Pawn)
            && k != p + 1 && k != p - 1 && k != p + 16 && k != p - 16
  {
  }

  lemma StartKings()
    ensures StartCells()[199] == Man(Red, King) && StartCells()[55] == Man(Black, King)
  {
  }

  /** The start position is legal, and neither side is in check. */
  lemma StartLegal()
    ensures Legal(StartGame()) && !InCheck(StartGame(), Red)
  {
    hide StartCell, StartCells, Attack;
    StartArmy(Red);
    StartArmy(Black);
    StartKings();
    forall p: Square | StartCells()[p].Man?
      ensures Placed(StartCells()[p], StartGame().KingAt(StartCells()[p].side), p)
    {
      StartPlaced(p);
    }
    forall s: Side, p: Square | StartCells()[p].Man? && StartCells()[p].side == s.Other()
      ensures !Threat(StartGame(), s, p)
    {
      StartNoThreat(s, p);
    }
  }

  function Army(side: Side): set<Square> { RankSquares(side) + (Stations(side, Cannon) + Stations(side, Pawn)) }

  function RankSquares(side: Side): set<Square> {
    var row := if side == Red then 192 else 48;
    {row + 3, row + 4, row + 5, row + 6, row + 7, row + 8, row + 9, row + 10, row + 11}
  }

  lemma ArmyHolds(side: Side, kind: Kind)
    ensures Stations(side, kind) <= Army(side)
  {
  }

  lemma RankSize(side: Side)
    ensures |RankSquares(side)| <= 9
  {
  }

  lemma UnionSize(a: set<Square>, b: set<Square>)
    ensures |a + b| <= |a| + |b|
  {
    assert |a + b| + |a * b| == |a| + |b|;
  }

  lemma ArmySize(side: Side)
    ensures |Army(side)| <= 16
  {
    hide RankSquares, Stations;
    RankSize(side);
    StationsSize(side, Cannon);
    StationsSize(side, Pawn);
    UnionSize(Stations(side, Cannon), Stations(side, Pawn));
    UnionSize(RankSquares(side), Stations(side, Cannon) + Stations(side, Pawn));
  }

  lemma StartMen(side: Side)
    ensures SideMen(StartCells(), side) <= 16
  {
    hide StartCell, Stations, Army, Total;
    forall p: Square | StartCells()[p].Man? && StartCells()[p].side == side
      ensures p in Army(side)
    {
      StationsHold(p);
      ArmyHolds(side, StartCell(p).kind);
    }
    TotalWithin(StartCells(), OfSide(side), Army(side));
    ArmySize(side);
  }

  /** The text that reset loads holds exactly the start position, Red to move. */
  lemma StartLoads()
    ensures LoadAll(START) == Loaded(StartCells(), Red) && Loadable(START)
    ensures HasKing(StartCells(), Red) && OneKing(StartCells(), Red)
    ensures HasKing(StartCells(), Black) && OneKing(StartCells(), Black)
  {
    hide StartCell, Total, Text, LoadAll;
    StartText();
    StartMen(Red);
    StartMen(Black);
    forall p: Square | StartCells()[p].Man?
      ensures InBoard(p) && (KingOn(StartCells(), Red, p) ==> p == 199) && (KingOn(StartCells(), Black, p) ==> p == 55)
    {
      assert StartCells()[p] == StartCell(p);
      StartPlaced(p);
    }
    StartKings();
    assert KingOn(StartCells(), Red, 199) && KingOn(StartCells(), Black, 55);
    LoadText(StartCells(), Red);
  }

  /** Red can open: the pawn on 147 may step forward. */
  lemma StartMove()
    ensures IsGenerated(StartGame(), Pack(147, 131), false) && Safe(StartGame(), Pack(147, 131))
  {
    hide Stations, Attack;
    PackUnpack(147, 131);
    var g, h := StartGame(), Shifted(StartGame(), Pack(147, 131));
    StartPawn();
    forall p: Square | h.cells[p].Man? && h.cells[p].side == Black
      ensures !Threat(h, Red, p)
    {
      assert h.cells[p] == StartCell(p);
      StationsHold(p);
      NoThreatFrom(h, Red, p);
    }
  }

  lemma StartPawn()
    ensures StartCells()[147] == Man(Red, Pawn) && StartCells()[131] == Empty && StartCells()[103] == Man(Black, Pawn)
    ensures Generated(StartCells(), 199, 147, 131, false)
  {
  }
}
