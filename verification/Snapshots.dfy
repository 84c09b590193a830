/** The piece and player objects, and snapshots of what cells and objects say: the level at
    which undoing a move is the exact inverse of making it
    (cchess_engine/player_piece.h, board.h, board.cc). */
module Snapshots {
  import opened Geometry
  import opened Pieces
  import opened Rules
  import opened Play

  class Piece {
    const side: Side
    const kind: Kind
    var pos: Square
    var show: bool

    constructor (side: Side, kind: Kind, pos: Square)
      ensures this.side == side && this.kind == kind && this.pos == pos && show
    {
      this.side, this.kind, this.pos, this.show := side, kind, pos, true;
    }

    /** The table value of the piece where it stands. */
    function Value(): int
      requires InBoard(pos)
      reads this
    {
      ManValue(side, kind, pos)
    }
  }

  class Player {
    const side: Side
    var value: int
    var king: Piece?
    var pieces: seq<Piece>

    constructor (side: Side)
      ensures this.side == side && value == 0 && king == null && pieces == []
    {
      this.side, value, king, pieces := side, 0, null, [];
    }
  }

  datatype StepRecord = StepRecord(mv: Move, endPiece: Piece?, inCheck: bool, key: bv32)

  const HISTORY_SIZE := 2048

  function Nobody(): seq<Piece?> { seq(256, _ => null) }

  // ---- Snapshots ----

  datatype Flag = Flag(pos: Square, show: bool)

  type Grid = g: seq<Piece?> | |g| == 256 witness seq(256, _ => null)

  /** What the cells and the piece objects say at one moment. */
  datatype Snap = Snap(grid: Grid, flags: map<Piece, Flag>)

  /** Cells and flags tell the same story: exactly the shown pieces are on the grid, where they say they are. */
  ghost predicate Consistent(s: Snap) {
    && (forall q: Square :: s.grid[q] != null ==>
      s.grid[q] in s.flags && s.flags[s.grid[q]] == Flag(q, true) && InBoard(q))
    && (forall m :: m in s.flags && s.flags[m].show ==> s.grid[s.flags[m].pos] == m)
  }

  ghost function Del(s: Snap, p: Square): Snap {
    var m := s.grid[p];
    if m == null || m !in s.flags then s else Snap(s.grid[p := null], s.flags[m := s.flags[m].(show := false)])
  }

  ghost function Add(s: Snap, m: Piece?, p: Square): Snap {
    if m == null then s else Snap(s.grid[p := m], s.flags[m := Flag(p, true)])
  }

  /** The cell changes of makeMove. */
  ghost function MoveSnap(s: Snap, a: Square, b: Square): Snap
    requires Consistent(s)
  {
    var x := Del(s, b);
    Add(Del(x, a), x.grid[a], b)
  }

  /** The cell changes of undoMove. */
  ghost function UndoSnap(s: Snap, a: Square, b: Square, captured: Piece?): Snap
    requires Consistent(s)
  {
    Add(Add(Del(s, b), s.grid[b], a), captured, b)
  }

  lemma DelConsistent(s: Snap, p: Square)
    requires Consistent(s)
    ensures Consistent(Del(s, p)) && Del(s, p).grid[p] == null && Del(s, p).flags.Keys == s.flags.Keys
    ensures s.grid[p] != null ==> Del(s, p).flags[s.grid[p]] == Flag(p, false)
  {
  }

  lemma AddConsistent(s: Snap, m: Piece?, p: Square)
    requires Consistent(s) && InBoard(p) && s.grid[p] == null
    requires m != null ==> m in s.flags && !s.flags[m].show
    ensures Consistent(Add(s, m, p)) && Add(s, m, p).flags.Keys == s.flags.Keys
  {
  }

  lemma MoveConsistent(s: Snap, a: Square, b: Square)
    requires Consistent(s) && InBoard(b)
    ensures Consistent(MoveSnap(s, a, b)) && MoveSnap(s, a, b).flags.Keys == s.flags.Keys
  {
    DelConsistent(s, b);
    var x := Del(s, b);
    DelConsistent(x, a);
    AddConsistent(Del(x, a), x.grid[a], b);
  }

  /** Undoing a move restores the cells, and the square and the show flag of every piece object:
      captures, an empty start square and start == end included. */
  lemma UndoRestores(s: Snap, a: Square, b: Square)
    requires Consistent(s) && InBoard(b)
    ensures Consistent(MoveSnap(s, a, b))
    ensures UndoSnap(MoveSnap(s, a, b), a, b, s.grid[b]) == s
  {
    hide MoveSnap, UndoSnap, Consistent;
    MoveConsistent(s, a, b);
    UndoGrid(s, a, b);
    UndoFlags(s, a, b);
  }

  lemma UndoFlags(s: Snap, a: Square, b: Square)
    requires Consistent(s) && InBoard(b) && Consistent(MoveSnap(s, a, b))
    ensures UndoSnap(MoveSnap(s, a, b), a, b, s.grid[b]).flags == s.flags
  {
  }

  lemma UndoGrid(s: Snap, a: Square, b: Square)
    requires Consistent(s) && InBoard(b) && Consistent(MoveSnap(s, a, b))
    ensures UndoSnap(MoveSnap(s, a, b), a, b, s.grid[b]).grid == s.grid
  {
    hide InBoard;
    var u := UndoSnap(MoveSnap(s, a, b), a, b, s.grid[b]);
    forall q: Square
      ensures u.grid[q] == s.grid[q]
    {
    }
  }

  /** The preconditions makeMove meets on its way. */
  lemma MoveParts(s: Snap, a: Square, b: Square)
    requires Consistent(s) && InBoard(b)
    ensures var x := Del(s, b);
            x.grid[a] != null ==> x.grid[a] in s.flags && !Del(x, a).flags[x.grid[a]].show && Del(x, a).grid[b] == null
  {
    DelConsistent(s, b);
    DelConsistent(Del(s, b), a);
  }

  /** The preconditions undoMove meets on its way back. */
  lemma UndoParts(t: Snap, a: Square, b: Square)
    requires Consistent(t) && InBoard(b)
    ensures Consistent(MoveSnap(t, a, b))
    ensures var s := MoveSnap(t, a, b);
            var m := s.grid[b];
            && (m != null ==> InBoard(a) && m in t.flags && Del(s, b).grid[a] == null && !Del(s, b).flags[m].show)
            && (t.grid[b] != null ==> t.grid[b] in t.flags && Add(Del(s, b), m, a).grid[b] == null
                                      && !Add(Del(s, b), m, a).flags[t.grid[b]].show)
  {
    MoveConsistent(t, a, b);
  }

  /** A null record stands for no cell change at all. */
  lemma NullRecord(s: Snap)
    requires Consistent(s)
    ensures s.grid[0] == null && MoveSnap(s, 0, 0) == s && UndoSnap(s, 0, 0, null) == s
  {
  }

  function CellsOf(g: Grid): Placement {
    seq(256, p requires 0 <= p < 256 => CellOf(g[p]))
  }

  function CellOf(m: Piece?): Cell { if m == null then Empty else Man(m.side, m.kind) }

  lemma CellsOfSet(g: Grid, p: Square, m: Piece?)
    ensures CellsOf(g[p := m]) == CellsOf(g)[p := CellOf(m)]
    ensures CellsOf(g)[p] == CellOf(g[p])
  {
  }

  lemma CellsOfMove(s: Snap, a: Square, b: Square)
    requires Consistent(s)
    ensures CellsOf(MoveSnap(s, a, b).grid) == MoveCells(CellsOf(s.grid), a, b)
  {
  }

  /** Taking one cell out or putting one in changes the running hash and the material of one side. */
  lemma CacheUpdate(k: KeyTable, c: Placement, side: Side, p: Square, x: Cell)
    requires InBoard(p) && (c[p] == Empty || x == Empty)
    ensures x == Empty && c[p].Man? ==>
              && Hash(k, c[p := x], side) == Xor(Hash(k, c, side), k.piece(c[p].side, c[p].kind, p))
              && Material(c[p := x], c[p].side) == Material(c, c[p].side) - ManValue(c[p].side, c[p].kind, p)
              && Material(c[p := x], c[p].side.Other()) == Material(c, c[p].side.Other())
    ensures c[p] == Empty && x.Man? ==>
              && Hash(k, c[p := x], side) == Xor(Hash(k, c, side), k.piece(x.side, x.kind, p))
              && Material(c[p := x], x.side) == Material(c, x.side) + ManValue(x.side, x.kind, p)
              && Material(c[p := x], x.side.Other()) == Material(c, x.side.Other())
  {
    HashSet(k, c, side, p, x);
    TotalUpdate(c, MaterialOf(Red), p, x);
    TotalUpdate(c, MaterialOf(Black), p, x);
    XorLaws(Hash(k, c, side), ZERO, ZERO);
    XorLaws(Xor(Hash(k, c, side), CellKey(k, c[p], p)), ZERO, ZERO);
  }

  /** Changing the side to move changes the hash by the side key. */
  lemma HashFlip(k: KeyTable, c: Placement, side: Side)
    ensures Hash(k, c, side.Other()) == Xor(Hash(k, c, side), k.player)
  {
    hide Xor, PlacementHash;
    XorCancel(PlacementHash(k, c), k.player);
  }

  /** The abstract position read off a snapshot. */
  ghost function ViewOf(s: Snap, rk: Piece, bk: Piece, side: Side, hist: seq<Rec>): Game
    requires rk in s.flags && bk in s.flags
  {
    Game(CellsOf(s.grid), s.flags[rk].pos, s.flags[bk].pos, side, hist)
  }

  /** rk and bk are the only kings among the pieces. */
  ghost predicate OnlyKings(s: Snap, rk: Piece, bk: Piece) {
    && rk in s.flags && bk in s.flags
    && forall m :: m in s.flags && m.kind == King ==> m == if m.side == Red then rk else bk
  }

  lemma KingAfter(s: Snap, k: Piece, a: Square, b: Square)
    requires Consistent(s) && k in s.flags && InBoard(b)
    requires k.kind == King && forall m :: m in s.flags && m.kind == King && m.side == k.side ==> m == k
    ensures k in MoveSnap(s, a, b).flags
    ensures MoveSnap(s, a, b).flags[k].pos == MoveKing(CellsOf(s.grid), s.flags[k].pos, k.side, a, b)
  {
    CellsOfSet(s.grid, a, null);
    assert s.grid[a] == k <==> CellsOf(s.grid)[a] == Man(k.side, King);
  }

  lemma ViewOfMove(s: Snap, rk: Piece, bk: Piece, side: Side, hist: seq<Rec>, mv: Move)
    requires Consistent(s) && OnlyKings(s, rk, bk) && InBoard(End(mv))
    requires rk.side == Red && rk.kind == King && bk.side == Black && bk.kind == King
    ensures OnlyKings(MoveSnap(s, Start(mv), End(mv)), rk, bk)
    ensures ViewOf(MoveSnap(s, Start(mv), End(mv)), rk, bk, side, hist) == Shifted(ViewOf(s, rk, bk, side, hist), mv)
  {
    CellsOfMove(s, Start(mv), End(mv));
    MoveConsistent(s, Start(mv), End(mv));
    KingAfter(s, rk, Start(mv), End(mv));
    KingAfter(s, bk, Start(mv), End(mv));
  }

  function RecsOf(h: seq<StepRecord>): seq<Rec> {
    seq(|h|, i requires 0 <= i < |h| => Rec(h[i].mv, h[i].endPiece != null, h[i].inCheck, h[i].key))
  }
}
