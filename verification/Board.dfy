/** The engine's board: piece objects, two players, the 256-cell array, the running hash and
    material, and the history that lets moves be undone
    (cchess_engine/board.cc, board.h). */
module Boards {
  import opened Geometry
  import opened Pieces
  import opened Rules
  import opened Rays
  import opened Play
  import opened Snapshots
  import opened Repetition
  import opened Mirror
  import opened Fen
  import opened StartPosition

  /** What a user of the board may do to a loaded position. */
  datatype Operation = MakeOp(mv: Move) | PlayOp(mv: Move) | UndoOp | BackOp | NullOp | UndoNullOp | TurnOp

  /** Everything a search must leave as it found it. */
  datatype State = State(snap: Snap, hist: seq<StepRecord>, trail: seq<Snap>, cur: Player, view: Game,
                         zobrist: Zobrist, redValue: int, blackValue: int)

  /** The history of t is one step longer than that of s. */
  ghost predicate OneMore(s: State, t: State) {
    |t.hist| == |s.hist| + 1 && t.hist[..|s.hist|] == s.hist && t.trail == s.trail + [s.snap] && |s.trail| == |s.hist|
  }

  // ---- Runs of operations, on positions ----

  /** What undoing a step brings back. */
  datatype Spot = Spot(cells: Placement, rk: Square, bk: Square)

  /** A position, and what stood on the board before each step of its history. */
  datatype Position = Position(game: Game, past: seq<Spot>)

  function SpotOf(g: Game): Spot { Spot(g.cells, g.rk, g.bk) }

  /** The history has a record of its own for one more step. */
  predicate Free(bounded: bool, g: Game) { bounded ==> |g.hist| < HISTORY_SIZE }

  /** A move can be made: there is a slot, it ends on the board, and the check test after it is defined. */
  predicate Playable(bounded: bool, g: Game, mv: Move) {
    Free(bounded, g) && InBoard(End(mv)) && Determined(Shifted(g, mv), g.side.Other())
  }

  /** One step back, if there is one; whose turn it is does not change. */
  ghost function Back(p: Position): Position {
    if p.past == [] || p.game.hist == [] then p
    else
      var s := p.past[|p.past| - 1];
      Position(Game(s.cells, s.rk, s.bk, p.game.side, p.game.hist[..|p.game.hist| - 1]), p.past[..|p.past| - 1])
  }

  ghost function Turn(p: Position): Position { p.(game := p.game.(side := p.game.side.Other())) }

  /** The position after an operation; one that is not possible does nothing. */
  ghost function Done(k: KeyTable, bounded: bool, p: Position, op: Operation): Position {
    var g := p.game;
    match op
    case MakeOp(mv) => if Playable(bounded, g, mv) then Position(Moved(k, g, mv), p.past + [SpotOf(g)]) else p
    case PlayOp(mv) => if Playable(bounded, g, mv) then Position(Played(k, g, mv), p.past + [SpotOf(g)]) else p
    case UndoOp => Back(p)
    case BackOp => Turn(Back(p))
    case NullOp =>
      if Free(bounded, g) then Position(Passed(k, g).(side := g.side), p.past + [SpotOf(g)]) else p
    case UndoNullOp => if g.hist != [] && g.hist[|g.hist| - 1].mv == 0 then Back(p) else p
    case TurnOp => Turn(p)
  }

  ghost function KingIn(s: Snap, king: Piece?): Square {
    if king != null && king in s.flags then s.flags[king].pos else 0
  }

  /** What a snapshot shows, given the two kings. */
  ghost function SpotIn(s: Snap, rk: Piece?, bk: Piece?): Spot {
    Spot(CellsOf(s.grid), KingIn(s, rk), KingIn(s, bk))
  }

  ghost function PastOf(trail: seq<Snap>, rk: Piece?, bk: Piece?): seq<Spot> {
    seq(|trail|, i requires 0 <= i < |trail| => SpotIn(trail[i], rk, bk))
  }

  /** Taking back the step that led from one position to the next brings the position back, except for whose
      turn it is. */
  lemma StepUndone(p: Position, h: Game)
    requires |p.past| == |p.game.hist| && h.hist != [] && h.hist[..|h.hist| - 1] == p.game.hist
    ensures Back(Position(h, p.past + [SpotOf(p.game)])) == p.(game := p.game.(side := h.side))
  {
  }

  /** Undoing a move, stepping back from a played one and undoing a null move bring the position back. */
  lemma StepsUndone(k: KeyTable, bounded: bool, p: Position, mv: Move)
    requires |p.past| == |p.game.hist|
    ensures Playable(bounded, p.game, mv) ==>
              && Done(k, bounded, Done(k, bounded, p, MakeOp(mv)), UndoOp) == p
              && Done(k, bounded, Done(k, bounded, p, PlayOp(mv)), BackOp) == p
    ensures Free(bounded, p.game) ==> Done(k, bounded, Done(k, bounded, p, NullOp), UndoNullOp) == p
  {
    hide Determined, InCheck, Shifted, Hash, Back, Playable, Free;
    StepUndone(p, Moved(k, p.game, mv));
    StepUndone(p, Played(k, p.game, mv));
    StepUndone(p, Passed(k, p.game).(side := p.game.side));
    StepSides(k, p.game, mv);
  }

  lemma StepSides(k: KeyTable, g: Game, mv: Move)
    ensures Moved(k, g, mv).side == g.side && Played(k, g, mv).side == g.side.Other()
    ensures g.side.Other().Other() == g.side
  {
  }

  ghost function AllDone(k: KeyTable, bounded: bool, p: Position, ops: seq<Operation>): Position {
    if ops == [] then p else Done(k, bounded, AllDone(k, bounded, p, ops[..|ops| - 1]), ops[|ops| - 1])
  }

  class Board {
    const keys: KeyTable
    const bounded: bool // the engine's history has slots of its own only up to 2048; the browser's has no bound
    const red: Player
    const black: Player
    const grid: array<Piece?>
    var cur: Player
    var zobrist: Zobrist
    var hist: seq<StepRecord>
    ghost var men: set<Piece>
    ghost var trail: seq<Snap>

    /** An empty board with Red to move. */
    constructor (keys: KeyTable, bounded: bool)
      ensures Struct() && this.keys == keys && this.bounded == bounded && men == {} && hist == [] && trail == []
        && cur == red
      ensures grid[..] == Nobody() && Cells() == Nothing()
      ensures fresh(red) && fresh(black) && fresh(grid)
    {
      this.keys, this.bounded := keys, bounded;
      var r := new Player(Red);
      red, cur := r, r;
      black := new Player(Black);
      grid := new Piece?[256](_ => null);
      zobrist, hist, men, trail := ZERO, [], {}, [];
      new;
      EmptyCaches(keys);
      assert grid[..] == Nobody();
      assert Cells() == Nothing();
    }

    /** The history has a record of its own for one more step. */
    predicate HasSlot()
      reads this`hist
    {
      bounded ==> |hist| < HISTORY_SIZE
    }

    function PlayerOf(s: Side): Player { if s == Red then red else black }

    ghost function Flags(): map<Piece, Flag>
      reads this`men, men
    {
      map m | m in men :: Flag(m.pos, m.show)
    }

    ghost function Now(): Snap
      requires grid.Length == 256
      reads this`men, grid, men
    {
      Snap(grid[..], Flags())
    }

    function Cells(): Placement
      requires grid.Length == 256
      reads grid
    {
      CellsOf(grid[..])
    }

    /** The players own exactly the pieces, each once, and know their king. */
    ghost predicate Lists()
      reads this`cur, this`men, red`pieces, red`king, black`pieces, black`king
    {
      && red.side == Red && black.side == Black && red != black && (cur == red || cur == black)
      && (forall m :: m in men ==> m in PlayerOf(m.side).pieces)
      && Owns(red) && Owns(black)
    }

    ghost predicate Owns(player: Player)
      reads this`men, player`pieces, player`king
    {
      && (forall i :: 0 <= i < |player.pieces| ==> player.pieces[i] in men && player.pieces[i].side == player.side)
      && (forall i, j :: 0 <= i < j < |player.pieces| ==> player.pieces[i] != player.pieces[j])
      && (player.king != null ==> player.king in men && player.king.side == player.side && player.king.kind == King)
    }

    /** The caches are what recomputation gives: the hash triple of the placement and the side to
        move, and each player's material. */
    ghost predicate Caches()
      requires grid.Length == 256
      reads this, red, black, grid
    {
      && zobrist == Hash(keys, Cells(), cur.side)
      && red.value == Material(Cells(), Red) && black.value == Material(Cells(), Black)
    }

    ghost predicate Struct()
      reads this, red, black, grid, men
    {
      grid.Length == 256 && Lists() && Consistent(Now()) && Caches()
    }

    twostate lemma FlagsChange(piece: Piece)
      requires piece in men && men == old(men)
      requires forall m :: m in men && m != piece ==> m.pos == old(m.pos) && m.show == old(m.show)
      ensures Flags() == old(Flags())[piece := Flag(piece.pos, piece.show)]
    {
    }

    twostate lemma ListsKept()
      requires old(Lists())
      requires men == old(men) && cur == old(cur)
      requires red.pieces == old(red.pieces) && red.king == old(red.king)
      requires black.pieces == old(black.pieces) && black.king == old(black.king)
      ensures Lists()
    {
    }

    /** The field updates of delPiece once a piece was found. */
    method TakeOff(piece: Piece, p: Square)
      requires grid.Length == 256 && InBoard(p) && piece.pos == p && red != black
      modifies this`zobrist, grid, piece`show, PlayerOf(piece.side)`value
      ensures grid[..] == old(grid[..])[p := null]
      ensures !piece.show
      ensures PlayerOf(piece.side).value == old(PlayerOf(piece.side).value) - ManValue(piece.side, piece.kind, p)
      ensures zobrist == Xor(old(zobrist), keys.piece(piece.side, piece.kind, p))
    {
      piece.show := false;
      var player := PlayerOf(piece.side);
      player.value := player.value - piece.Value();
      grid[p] := null;
      zobrist := Xor(zobrist, keys.piece(piece.side, piece.kind, p));
    }

    /** The field updates of addPiece once a piece was given. */
    method PutOn(piece: Piece, p: Square)
      requires grid.Length == 256 && InBoard(p) && red != black
      modifies this`zobrist, grid, piece`show, piece`pos, PlayerOf(piece.side)`value
      ensures grid[..] == old(grid[..])[p := piece]
      ensures piece.show && piece.pos == p
      ensures PlayerOf(piece.side).value == old(PlayerOf(piece.side).value) + ManValue(piece.side, piece.kind, p)
      ensures zobrist == Xor(old(zobrist), keys.piece(piece.side, piece.kind, p))
    {
      piece.show := true;
      piece.pos := p;
      grid[p] := piece;
      var player := PlayerOf(piece.side);
      player.value := player.value + piece.Value();
      zobrist := Xor(zobrist, keys.piece(piece.side, piece.kind, p));
    }

    twostate lemma AfterTakeOff(piece: Piece)
      requires old(Struct())
      requires InBoard(piece.pos) && piece == old(grid[..])[piece.pos]
      requires men == old(men) && cur == old(cur) && red.pieces == old(red.pieces) && red.king == old(red.king)
      requires black.pieces == old(black.pieces) && black.king == old(black.king)
      requires forall m :: m in men && m != piece ==> m.pos == old(m.pos) && m.show == old(m.show)
      requires grid[..] == old(grid[..])[piece.pos := null] && !piece.show
      requires PlayerOf(piece.side).value ==
        old(PlayerOf(piece.side).value) - ManValue(piece.side, piece.kind, piece.pos)
      requires PlayerOf(piece.side.Other()).value == old(PlayerOf(piece.side.Other()).value)
      requires zobrist == Xor(old(zobrist), keys.piece(piece.side, piece.kind, piece.pos))
      ensures Struct()
      ensures Now() == Del(old(Now()), piece.pos)
    {
      var was, p := old(Now()), piece.pos;
      CellsOfSet(was.grid, p, null);
      CacheUpdate(keys, CellsOf(was.grid), cur.side, p, Empty);
      DelConsistent(was, p);
      FlagsChange(piece);
      ListsKept();
      assert was.flags[piece] == Flag(old(piece.pos), old(piece.show));
      assert Now() == Del(was, p);
    }

    twostate lemma AfterPutOn(piece: Piece)
      requires old(Struct()) && piece in men && !old(piece.show) && InBoard(piece.pos)
        && old(grid[..])[piece.pos] == null
      requires men == old(men) && cur == old(cur) && red.pieces == old(red.pieces) && red.king == old(red.king)
      requires black.pieces == old(black.pieces) && black.king == old(black.king)
      requires forall m :: m in men && m != piece ==> m.pos == old(m.pos) && m.show == old(m.show)
      requires grid[..] == old(grid[..])[piece.pos := piece] && piece.show
      requires PlayerOf(piece.side).value ==
        old(PlayerOf(piece.side).value) + ManValue(piece.side, piece.kind, piece.pos)
      requires PlayerOf(piece.side.Other()).value == old(PlayerOf(piece.side.Other()).value)
      requires zobrist == Xor(old(zobrist), keys.piece(piece.side, piece.kind, piece.pos))
      ensures Struct() && Now() == Add(old(Now()), piece, piece.pos)
    {
      var was, p := old(Now()), piece.pos;
      CellsOfSet(was.grid, p, piece);
      CacheUpdate(keys, CellsOf(was.grid), cur.side, p, CellOf(piece));
      AddConsistent(was, piece, p);
      FlagsChange(piece);
      ListsKept();
      assert Now() == Add(was, piece, p);
    }

    lemma ShownAt(p: Square)
      requires Struct() && grid[p] != null
      ensures grid[p] in men && grid[p].pos == p && grid[p].show && InBoard(p)
    {
      assert Now().flags[grid[p]] == Flag(p, true);
    }

    method DelPiece(p: Square) returns (piece: Piece?)
      requires Struct()
      modifies this`zobrist, grid, men`show, red`value, black`value
      ensures Struct()
      ensures piece == old(Now()).grid[p]
      ensures Now() == Del(old(Now()), p)
    {
      piece := grid[p];
      if piece != null {
        ShownAt(p);
        TakeOff(piece, p);
        AfterTakeOff(piece);
      }
    }

    method AddPiece(piece: Piece?, p: Square)
      requires Struct()
      requires piece != null ==> InBoard(p) && piece in men && !piece.show && grid[p] == null
      modifies this`zobrist, grid, men`show, men`pos, red`value, black`value
      ensures Struct()
      ensures Now() == Add(old(Now()), piece, p)
    {
      if piece != null {
        PutOn(piece, p);
        AfterPutOn(piece);
      }
    }

    // ---- Queries ----

    /** Each player has one king, the recorded one. */
    ghost predicate Kings()
      reads this`men, red`king, black`king
    {
      red.king != null && black.king != null && forall m :: m in men && m.kind == King ==> m == PlayerOf(m.side).king
    }

    /** The abstract position: placement, recorded king squares, side to move, history. */
    ghost function View(): Game
      reads this`hist, this`cur, red`king, black`king, grid, red.king, black.king
    {
      Game(if grid.Length == 256 then Cells() else Nothing(), KingPos(red), KingPos(black), cur.side, RecsOf(hist))
    }

    function KingPos(player: Player): Square
      reads player`king, player.king
    {
      if player.king == null then 0 else player.king.pos
    }

    lemma ViewOnBoard()
      requires Struct() && Kings()
      ensures OnBoard(View().cells)
      ensures forall p: Square :: View().cells[p].Man? <==> grid[p] != null
      ensures forall p: Square :: grid[p] != null ==>
                && grid[p] in men && grid[p].show && grid[p].pos == p && InBoard(p)
                && View().cells[p] == Man(grid[p].side, grid[p].kind)
    {
      forall p: Square | grid[p] != null
        ensures grid[p] in men && grid[p].show && grid[p].pos == p && InBoard(p)
      {
        ShownAt(p);
      }
    }

    /** From the square after from, step by the offset until dest or a man. */
    method Walk(from: Square, dest: Square) returns (at: Square)
      requires grid.Length == 256 && from != dest && Aligned(from, dest)
      ensures ClearLine(Cells(), from, at)
      ensures at == dest || (Between(from, at, dest) && Cells()[at] != Empty)
    {
      hide Between, Offset, Aligned, CellsOf, ClearLine;
      var offset := Offset(from, dest);
      WalkStart(from, dest);
      at := from + offset;
      while at != dest && grid[at] == null
        invariant at == dest || Between(from, at, dest)
        invariant ClearLine(Cells(), from, at)
        decreases if from < dest then dest - at else at - dest
      {
        EmptyCell(at);
        InOrder(from, at, dest);
        WalkStep(from, dest, at);
        at := at + offset;
        if at != dest {
          InOrder(from, at, dest);
        }
      }
      EmptyCell(at);
    }

    lemma InOrder(from: Square, at: Square, dest: Square)
      requires Between(from, at, dest)
      ensures from < at < dest || dest < at < from
    {
    }

    lemma EmptyCell(p: Square)
      requires grid.Length == 256
      ensures Cells()[p] == Empty <==> grid[p] == null
    {
    }

    lemma WalkStart(from: Square, dest: Square)
      requires grid.Length == 256 && from != dest && Aligned(from, dest)
      ensures 0 <= from + Offset(from, dest) < 256 && ClearLine(Cells(), from, from + Offset(from, dest))
      ensures from + Offset(from, dest) == dest || Between(from, from + Offset(from, dest), dest)
      ensures Offset(from, dest) != 0 && (Offset(from, dest) > 0 <==> from < dest)
    {
      hide CellsOf;
      OffsetStep(from, dest, from);
      OffsetSign(from, dest);
    }

    /** The cell on at is empty: the cells up to the next one are. */
    lemma WalkStep(from: Square, dest: Square, at: Square)
      requires grid.Length == 256 && from != dest && Aligned(from, dest) && Between(from, at, dest)
      requires ClearLine(Cells(), from, at) && grid[at] == null
      ensures 0 <= at + Offset(from, dest) < 256 && ClearLine(Cells(), from, at + Offset(from, dest))
      ensures at + Offset(from, dest) == dest || Between(from, at + Offset(from, dest), dest)
      ensures Offset(from, dest) != 0 && (Offset(from, dest) > 0 <==> from < dest)
    {
      hide Between, Offset, Aligned;
      OffsetStep(from, dest, at);
      OffsetSign(from, dest);
    }

    lemma OffsetSign(from: Square, dest: Square)
      requires from != dest && Aligned(from, dest)
      ensures Offset(from, dest) != 0 && (Offset(from, dest) > 0 <==> from < dest)
    {
    }

    /** The cannon's walk: to dest with nothing on the way, or over exactly one man. */
    method CannonReaches(from: Square, dest: Square) returns (r: bool)
      requires grid.Length == 256 && from != dest && Aligned(from, dest)
      ensures r <==> (ClearLine(Cells(), from, dest) && Cells()[dest] == Empty) || OneScreen(Cells(), from, dest)
    {
      var at := Walk(from, dest);
      if at == dest {
        NoScreenWhenClear(Cells(), from, dest);
        return grid[dest] == null;
      }
      BetweenAligned(from, at, dest);
      var on := Walk(at, dest);
      ScreenFound(Cells(), from, at, dest, on);
      return on == dest;
    }

    /** The piece stands on the cell it says it stands on. */
    ghost predicate Stands(piece: Piece)
      requires grid.Length == 256
      reads grid, piece
    {
      InBoard(piece.pos) && Cells()[piece.pos] == Man(piece.side, piece.kind)
    }

    /** The walk of a piece tested against its own square: its step is 1, and it does not meet the target. */
    method WalkUp(from: Square, dest: Square) returns (at: Square)
      requires grid.Length == 256 && dest <= from && ManAfter(Cells(), from)
      ensures StopsAt(Cells(), from, at)
    {
      at := from + 1;
      while at != dest && grid[at] == null
        invariant from < at < 256
        invariant forall q: Square :: from < q < at ==> Cells()[q] == Empty
        decreases 256 - at
      {
        at := at + 1;
      }
    }

    /** legalMovePiece for the kinds that walk along a line. */
    method SlideAttacks(piece: Piece, dest: Square) returns (r: bool)
      requires grid.Length == 256 && Stands(piece)
      requires piece.kind in {King, Rook, Cannon} && (dest == piece.pos ==> SelfTestEnds(Cells(), dest))
      ensures forall king :: r <==> Attack(Cells(), king, piece.pos, dest)
    {
      var pos := piece.pos;
      if pos == dest {
        var on := WalkUp(pos, dest);
        if piece.kind == Cannon {
          on := WalkUp(on, dest);
        }
        return false;
      }
      if piece.kind == King && InFort(dest) && Span(dest - pos) == 1 {
        return true;
      }
      if Offset(pos, dest) == 0 {
        return false;
      }
      if piece.kind == Cannon {
        r := CannonReaches(pos, dest);
        return;
      }
      var at := Walk(pos, dest);
      if at != dest {
        return false;
      }
      if piece.kind == King {
        return grid[dest] != null && grid[dest].kind == King;
      }
      return !(grid[dest] != null && grid[dest].side == piece.side);
    }

    /** legalMovePiece: does the piece attack dest? No piece attacks its own square, if the test ends. */
    method LegalMovePiece(piece: Piece, dest: Square) returns (r: bool)
      requires grid.Length == 256 && Kings() && Stands(piece) && (dest == piece.pos ==> SelfTestEnds(Cells(), dest))
      ensures r <==> Attack(Cells(), KingPos(PlayerOf(piece.side)), piece.pos, dest)
    {
      var pos, king := piece.pos, PlayerOf(piece.side).king.pos;
      match piece.kind {
        case Advisor =>
          r := InFort(dest) && Span(dest - pos) == 2;
        case Bishop =>
          r := SameHalf(pos, dest) && Span(dest - pos) == 3 && grid[(pos + dest) / 2] == null;
        case Knight =>
          r := KnightPin(dest - pos) != 0 && grid[pos + KnightPin(dest - pos)] == null;
        case Pawn =>
          r := (!SameHalf(king, pos) && (pos + 1 == dest || pos - 1 == dest)) || dest == Forward(king, pos);
        case _ =>
          r := SlideAttacks(piece, dest);
      }
    }

    lemma ShownMan(piece: Piece)
      requires Struct() && piece in men && piece.show
      ensures grid[piece.pos] == piece && Stands(piece)
    {
      assert Now().flags[piece] == Flag(piece.pos, true);
      ShownAt(piece.pos);
    }

    /** The loop of willKillKing over the other player's pieces. */
    method AnyThreat(pieces: seq<Piece>, player: Player) returns (r: bool)
      requires grid.Length == 256 && Kings() && red.side == Red && black.side == Black
      requires player == red || player == black
      requires forall m :: m in pieces && m.show ==> Stands(m)
      requires forall m :: m in pieces && m.show && m.pos == KingPos(player) ==> SelfTestEnds(Cells(), m.pos)
      requires forall m :: m in pieces ==> m.side == player.side.Other()
      ensures r <==> exists m :: m in pieces && m.show && Threat(View(), player.side, m.pos)
    {
      for i := 0 to |pieces|
        invariant forall m :: m in pieces[..i] && m.show ==> !Threat(View(), player.side, m.pos)
      {
        var p := pieces[i];
        assert pieces[..i + 1] == pieces[..i] + [p];
        if p.show {
          var hit := LegalMovePiece(p, player.king.pos);
          if hit {
            return true;
          }
        }
      }
      assert pieces[..|pieces|] == pieces;
      return false;
    }

    /** willKillKing: is the king of the player attacked? An enemy may stand on the king's recorded
        square, after the king was taken, as long as its test against that square ends in the array. */
    method WillKillKing(player: Player) returns (r: bool)
      requires Struct() && Kings() && (player == red || player == black)
      requires Determined(View(), player.side)
      ensures r == InCheck(View(), player.side)
    {
      var opp := PlayerOf(player.side.Other());
      OthersStand(player.side);
      r := AnyThreat(opp.pieces, player);
      if !r {
        NoThreat(player.side);
      }
    }

    lemma OthersStand(s: Side)
      requires Struct() && Kings() && Determined(View(), s)
      ensures forall m :: m in PlayerOf(s.Other()).pieces && m.show ==> Stands(m)
      ensures forall m :: m in PlayerOf(s.Other()).pieces && m.show && m.pos == KingPos(PlayerOf(s)) ==>
                SelfTestEnds(Cells(), m.pos)
      ensures forall m :: m in PlayerOf(s.Other()).pieces ==> m.side == s.Other()
    {
      forall m | m in PlayerOf(s.Other()).pieces && m.show
        ensures Stands(m) && (m.pos == KingPos(PlayerOf(s)) ==> SelfTestEnds(Cells(), m.pos))
      {
        ShownMan(m);
        assert View().cells[m.pos].Man?;
      }
    }

    lemma NoThreat(s: Side)
      requires Struct() && Kings()
      requires forall m :: m in PlayerOf(s.Other()).pieces && m.show ==> !Threat(View(), s, m.pos)
      ensures !InCheck(View(), s)
    {
      hide Attack;
      ViewOnBoard();
      forall p: Square
        ensures !Threat(View(), s, p)
      {
        if View().cells[p].Man? && View().cells[p].side == s.Other() {
          assert grid[p] in PlayerOf(s.Other()).pieces;
        }
      }
    }

    // ---- Move generation ----

    /** May a generated move of side end on dest? */
    predicate Takes(side: Side, dest: Square, captures: bool)
      requires grid.Length == 256
      ensures Takes(side, dest, captures) == Target(Cells(), side, dest, captures)
      reads grid
    {
      (!captures && grid[dest] == null) || (grid[dest] != null && grid[dest].side != side)
    }

    /** King and advisor: the four steps that stay in a fort. */
    method FortTargets(piece: Piece, delta: seq<int>, captures: bool) returns (ds: seq<Square>)
      requires grid.Length == 256 && Stands(piece) && (delta == KING_DELTA || delta == ADVISOR_DELTA)
      ensures Distinct(ds)
      ensures forall to: Square :: to in ds <==>
                to - piece.pos in delta && InFort(to) && Target(Cells(), piece.side, to, captures)
    {
      ds := [];
      ghost var c := Cells();
      for i := 0 to 4
        invariant Distinct(ds)
        invariant forall to: Square :: to in ds <==>
                    to - piece.pos in delta[..i] && InFort(to) && Target(c, piece.side, to, captures)
      {
        var dest := piece.pos + delta[i];
        DeltaStep(delta, i);
        if InFort(dest) && Takes(piece.side, dest, captures) {
          DistinctAppend(ds, dest);
          ds := ds + [dest];
        }
      }
      assert delta[..4] == delta;
    }

    /** Bishop: over an empty half step on its own side of the river. The landing cell itself is
        not range-checked. */
    method BishopTargets(piece: Piece, captures: bool) returns (ds: seq<Square>)
      requires grid.Length == 256 && Stands(piece)
      ensures Distinct(ds)
      ensures forall to: Square :: to in ds <==>
                (exists d :: BishopVia(Cells(), piece.pos, d) && to == piece.pos + 2 * d)
                && Target(Cells(), piece.side, to, captures)
    {
      ds := [];
      ghost var c := Cells();
      for i := 0 to 4
        invariant Distinct(ds)
        invariant forall to: Square :: to in ds <==>
                    (exists d :: d in ADVISOR_DELTA[..i] && BishopVia(c, piece.pos, d) && to == piece.pos + 2 * d)
                    && Target(c, piece.side, to, captures)
      {
        var d := ADVISOR_DELTA[i];
        var half := piece.pos + d;
        DeltaStep(ADVISOR_DELTA, i);
        if InBoard(half) && SameHalf(piece.pos, half) && grid[half] == null {
          assert BishopVia(c, piece.pos, d);
          var dest := half + d;
          if Takes(piece.side, dest, captures) {
            DistinctAppend(ds, dest);
            ds := ds + [dest];
          }
        }
      }
      assert ADVISOR_DELTA[..4] == ADVISOR_DELTA;
    }

    /** Knight: the two jumps over each free leg. */
    method KnightTargets(piece: Piece, captures: bool) returns (ds: seq<Square>)
      requires grid.Length == 256 && Stands(piece)
      ensures Distinct(ds)
      ensures forall to: Square :: to in ds <==>
                JumpOver(Cells(), piece.pos, 4, to) && InBoard(to) && Target(Cells(), piece.side, to, captures)
    {
      hide JumpOver, Target;
      ds := [];
      ghost var c := Cells();
      NoJump(c, piece.pos);
      for i := 0 to 4
        invariant Distinct(ds)
        invariant forall to: Square :: to in ds <==>
                    JumpOver(c, piece.pos, i, to) && InBoard(to) && Target(c, piece.side, to, captures)
      {
        JumpOverStep(c, piece.pos, i);
        if grid[piece.pos + KING_DELTA[i]] == null {
          var more := JumpTargets(piece, i, captures);
          DistinctConcat(ds, more);
          ds := ds + more;
        }
      }
    }

    /** The two jumps over leg i. */
    method JumpTargets(piece: Piece, i: nat, captures: bool) returns (ds: seq<Square>)
      requires grid.Length == 256 && Stands(piece) && i < 4
      ensures Distinct(ds)
      ensures forall to: Square :: to in ds <==>
                to - piece.pos in KNIGHT_DELTA[i] && InBoard(to) && Target(Cells(), piece.side, to, captures)
    {
      ds := [];
      ghost var c := Cells();
      for j := 0 to 2
        invariant Distinct(ds)
        invariant forall to: Square :: to in ds <==>
                    to - piece.pos in KNIGHT_DELTA[i][..j] && InBoard(to) && Target(c, piece.side, to, captures)
      {
        var dest := piece.pos + KNIGHT_DELTA[i][j];
        DeltaStep(KNIGHT_DELTA[i], j);
        if InBoard(dest) && Takes(piece.side, dest, captures) {
          DistinctAppend(ds, dest);
          ds := ds + [dest];
        }
      }
      assert KNIGHT_DELTA[i][..2] == KNIGHT_DELTA[i];
    }

    /** Pawn: one step ahead, and sideways once it has left its king's half. */
    method PawnTargets(piece: Piece, captures: bool) returns (ds: seq<Square>)
      requires grid.Length == 256 && Stands(piece) && Kings()
      ensures Distinct(ds)
      ensures forall to: Square :: to in ds <==>
                (to == Forward(KingPos(PlayerOf(piece.side)), piece.pos)
                 || (!SameHalf(KingPos(PlayerOf(piece.side)), piece.pos)
                     && (to == piece.pos - 1 || to == piece.pos + 1)))
                && InBoard(to) && Target(Cells(), piece.side, to, captures)
    {
      ds := [];
      var king := PlayerOf(piece.side).king.pos;
      var ahead := Forward(king, piece.pos);
      if InBoard(ahead) && Takes(piece.side, ahead, captures) {
        ds := [ahead];
      }
      if !SameHalf(king, piece.pos) {
        var left, right := piece.pos - 1, piece.pos + 1;
        if InBoard(left) && Takes(piece.side, left, captures) {
          ds := ds + [left];
        }
        if InBoard(right) && Takes(piece.side, right, captures) {
          ds := ds + [right];
        }
      }
    }

    /** Rook: along one ray up to the first man. */
    method RookRay(piece: Piece, d: int, captures: bool) returns (ds: seq<Square>)
      requires grid.Length == 256 && Stands(piece) && d in KING_DELTA
      ensures Distinct(ds)
      ensures forall to: Square :: to in ds <==> RookOnRay(Cells(), piece.side, piece.pos, d, to, captures)
    {
      hide InBoard, Target, RookOnRay, OnRay;
      ds := [];
      ghost var c, pos := Cells(), piece.pos;
      RayStep(pos, d, pos);
      var dest: Square := piece.pos + d;
      while InBoard(dest) && grid[dest] == null
        invariant OnRay(pos, d, dest)
        invariant forall q: Square :: Between(pos, q, dest) ==> InBoard(q) && c[q] == Empty
        invariant Distinct(ds)
        invariant forall to: Square :: to in ds <==> !captures && Between(pos, to, dest)
        decreases if d > 0 then 256 - dest else dest
      {
        RayStep(pos, d, dest);
        if !captures {
          DistinctAppend(ds, dest);
          ds := ds + [dest];
        }
        dest := dest + d;
      }
      RookRayEnds(c, piece.side, pos, d, dest, captures);
      if InBoard(dest) && grid[dest].side != piece.side {
        DistinctAppend(ds, dest);
        ds := ds + [dest];
      }
    }

    /** Cannon: along one ray up to the first man, then the first man behind it. */
    method CannonRay(piece: Piece, d: int, captures: bool) returns (ds: seq<Square>)
      requires grid.Length == 256 && Stands(piece) && d in KING_DELTA
      ensures Distinct(ds)
      ensures forall to: Square :: to in ds <==> CannonOnRay(Cells(), piece.side, piece.pos, d, to, captures)
    {
      hide InBoard, Target, CannonOnRay, OnRay;
      ds := [];
      ghost var c, pos := Cells(), piece.pos;
      RayStep(pos, d, pos);
      var dest: Square := piece.pos + d;
      while InBoard(dest) && grid[dest] == null
        invariant OnRay(pos, d, dest)
        invariant forall q: Square :: Between(pos, q, dest) ==> InBoard(q) && c[q] == Empty
        invariant Distinct(ds)
        invariant forall to: Square :: to in ds <==> !captures && Between(pos, to, dest)
        decreases if d > 0 then 256 - dest else dest
      {
        RayStep(pos, d, dest);
        if !captures {
          DistinctAppend(ds, dest);
          ds := ds + [dest];
        }
        dest := dest + d;
      }
      CannonQuietEnds(c, piece.side, pos, d, dest, captures);
      if InBoard(dest) {
        var target := SecondMan(piece.pos, d, dest);
        CannonCaptureEnds(c, piece.side, pos, d, dest, target);
        if InBoard(target) && grid[target].side != piece.side {
          DistinctAppend(ds, target);
          ds := ds + [target];
        }
      }
    }

    /** The first man behind the screen on the ray, or the first square off the board. */
    method SecondMan(pos: Square, d: int, screen: Square) returns (dest: Square)
      requires grid.Length == 256 && d in KING_DELTA && InBoard(pos) && InBoard(screen) && OnRay(pos, d, screen)
      ensures OnRay(pos, d, dest) && Between(pos, screen, dest)
      ensures forall q: Square :: Between(screen, q, dest) ==> InBoard(q) && Cells()[q] == Empty
      ensures InBoard(dest) ==> Cells()[dest] != Empty
    {
      RayStep(pos, d, screen);
      RayStep(screen, d, screen);
      dest := screen + d;
      while InBoard(dest) && grid[dest] == null
        invariant OnRay(pos, d, dest) && OnRay(screen, d, dest) && Between(pos, screen, dest)
        invariant forall q: Square :: Between(screen, q, dest) ==> InBoard(q) && Cells()[q] == Empty
        decreases if d > 0 then 256 - dest else dest
      {
        RayStep(pos, d, dest);
        RayStep(screen, d, dest);
        dest := dest + d;
      }
    }

    method RookTargets(piece: Piece, captures: bool) returns (ds: seq<Square>)
      requires grid.Length == 256 && Stands(piece)
      ensures Distinct(ds)
      ensures forall to: Square :: to in ds <==>
                piece.pos != to && InBoard(to) && Aligned(piece.pos, to) && ClearLine(Cells(), piece.pos, to)
                && Target(Cells(), piece.side, to, captures)
    {
      ds := [];
      ghost var c, pos := Cells(), piece.pos;
      for i := 0 to 4
        invariant Distinct(ds)
        invariant forall to: Square :: to in ds <==>
                    exists j: nat :: j < i && RookOnRay(c, piece.side, pos, KING_DELTA[j], to, captures)
      {
        var more := RookRay(piece, KING_DELTA[i], captures);
        forall to: Square | to in more
          ensures to !in ds
        {
          RaysCover(pos, to);
        }
        DistinctConcat(ds, more);
        ds := ds + more;
      }
      forall to: Square
        ensures (exists j: nat :: j < 4 && RookOnRay(c, piece.side, pos, KING_DELTA[j], to, captures)) <==>
                pos != to && InBoard(to) && Aligned(pos, to) && ClearLine(c, pos, to)
                && Target(c, piece.side, to, captures)
      {
        RookRaysCover(c, piece.side, pos, to, captures);
      }
    }

    method CannonTargets(piece: Piece, captures: bool) returns (ds: seq<Square>)
      requires grid.Length == 256 && Stands(piece)
      ensures Distinct(ds)
      ensures forall to: Square :: to in ds <==> CannonMove(Cells(), piece.side, piece.pos, to, captures)
    {
      ds := [];
      ghost var c, pos := Cells(), piece.pos;
      for i := 0 to 4
        invariant Distinct(ds)
        invariant forall to: Square :: to in ds <==>
                    exists j: nat :: j < i && CannonOnRay(c, piece.side, pos, KING_DELTA[j], to, captures)
      {
        var more := CannonRay(piece, KING_DELTA[i], captures);
        forall to: Square | to in more
          ensures to !in ds
        {
          RaysCover(pos, to);
        }
        DistinctConcat(ds, more);
        ds := ds + more;
      }
      forall to: Square
        ensures (exists j: nat :: j < 4 && CannonOnRay(c, piece.side, pos, KING_DELTA[j], to, captures)) <==>
                CannonMove(c, piece.side, pos, to, captures)
      {
        CannonRaysCover(c, piece.side, pos, to, captures);
      }
    }

    /** The squares a piece may go to. */
    method Targets(piece: Piece, captures: bool) returns (ds: seq<Square>)
      requires grid.Length == 256 && Kings() && Stands(piece)
      ensures Distinct(ds)
      ensures forall to: Square :: to in ds <==>
                Generated(Cells(), KingPos(PlayerOf(piece.side)), piece.pos, to, captures)
    {
      match piece.kind {
        case King => ds := FortTargets(piece, KING_DELTA, captures);
        case Advisor => ds := FortTargets(piece, ADVISOR_DELTA, captures);
        case Bishop => ds := BishopTargets(piece, captures);
        case Knight =>
          ds := KnightTargets(piece, captures);
          JumpsAre(Cells(), piece.pos);
        case Rook => ds := RookTargets(piece, captures);
        case Cannon => ds := CannonTargets(piece, captures);
        case Pawn => ds := PawnTargets(piece, captures);
      }
    }

    /** generateMoves: exactly the generated moves of a shown piece, each once; none for a hidden one. */
    method GenerateMoves(piece: Piece?, captures: bool) returns (mvs: seq<Move>)
      requires grid.Length == 256 && Kings() && (piece != null && piece.show ==> Stands(piece))
      ensures Distinct(mvs)
      ensures piece == null || !piece.show ==> mvs == []
      ensures piece != null && piece.show ==>
                forall mv: Move :: mv in mvs <==>
                  (Start(mv) == piece.pos
                   && Generated(Cells(), KingPos(PlayerOf(piece.side)), piece.pos, End(mv), captures))
    {
      if piece == null || !piece.show {
        return [];
      }
      var ds := Targets(piece, captures);
      PackAllExact(piece.pos, ds);
      return PackAll(piece.pos, ds);
    }

    /** The loop of generateAllMoves over the player's pieces. */
    method MovesOf(pieces: seq<Piece>, captures: bool) returns (mvs: seq<Move>)
      requires grid.Length == 256 && Kings() && (cur == red || cur == black)
      requires forall m :: m in pieces && m.show ==> Stands(m)
      requires forall i, j :: 0 <= i < j < |pieces| && pieces[i].show && pieces[j].show ==>
        pieces[i].pos != pieces[j].pos
      ensures Distinct(mvs)
      ensures forall mv: Move :: mv in mvs <==>
                exists m :: m in pieces && m.show && MoveOf(m, mv, captures)
    {
      mvs := [];
      for i := 0 to |pieces|
        invariant Distinct(mvs)
        invariant forall mv: Move :: mv in mvs <==>
                    exists m :: m in pieces[..i] && m.show && MoveOf(m, mv, captures)
      {
        var more := GenerateMoves(pieces[i], captures);
        assert pieces[..i + 1] == pieces[..i] + [pieces[i]];
        DistinctConcat(mvs, more);
        mvs := mvs + more;
      }
      assert pieces[..|pieces|] == pieces;
    }

    ghost predicate MoveOf(m: Piece, mv: Move, captures: bool)
      requires grid.Length == 256
      reads this, grid, m, red`king, black`king, red.king, black.king
    {
      Start(mv) == m.pos && Stands(m) && Generated(Cells(), KingPos(PlayerOf(m.side)), m.pos, End(mv), captures)
    }

    /** generateAllMoves: exactly the generated moves of the side to move, each once, and from a
        well-placed position never more than 119 for the 128-entry buffers. */
    method GenerateAllMoves(captures: bool) returns (mvs: seq<Move>)
      requires Struct() && Kings()
      ensures Distinct(mvs)
      ensures forall mv: Move :: mv in mvs <==> IsGenerated(View(), mv, captures)
      ensures WellPlaced(View()) ==> |mvs| <= 119
    {
      hide WellPlaced, Generated;
      OwnStand();
      mvs := MovesOf(cur.pieces, captures);
      OwnMoves(captures);
      if WellPlaced(View()) {
        ListFits(View(), mvs, captures);
      }
    }

    lemma OwnStand()
      requires Struct() && Kings()
      ensures forall m :: m in cur.pieces ==> m in men && m.side == cur.side
      ensures forall m :: m in cur.pieces && m.show ==> Stands(m) && grid[m.pos] == m
      ensures forall i, j :: 0 <= i < j < |cur.pieces| && cur.pieces[i].show && cur.pieces[j].show ==>
                cur.pieces[i].pos != cur.pieces[j].pos
    {
      forall m | m in cur.pieces && m.show
        ensures Stands(m) && grid[m.pos] == m
      {
        ShownMan(m);
      }
    }

    lemma OwnMoves(captures: bool)
      requires Struct() && Kings()
      ensures forall mv: Move :: IsGenerated(View(), mv, captures) <==>
                exists m :: m in cur.pieces && m.show && MoveOf(m, mv, captures)
    {
      OwnStand();
      ViewOnBoard();
      forall mv: Move
        ensures IsGenerated(View(), mv, captures) <==>
                exists m :: m in cur.pieces && m.show && MoveOf(m, mv, captures)
      {
        OwnMove(mv, captures);
      }
    }

    lemma OwnMove(mv: Move, captures: bool)
      requires Struct() && Kings()
      ensures IsGenerated(View(), mv, captures) <==>
              exists m :: m in cur.pieces && m.show && MoveOf(m, mv, captures)
    {
      hide Generated;
      OwnStand();
      ViewOnBoard();
      if IsGenerated(View(), mv, captures) {
        var m := grid[Start(mv)];
        assert m in cur.pieces && MoveOf(m, mv, captures);
      }
    }

    // ---- Making and undoing moves ----

    ghost function SnapAt(i: nat): Snap
      requires grid.Length == 256
      reads this`trail, this`men, grid, men
    {
      if i < |trail| then trail[i] else Now()
    }

    /** Every record of the history undoes the cell changes since the snapshot taken before it. */
    ghost predicate Trailed(i: nat)
      requires grid.Length == 256 && i < |trail| && i < |hist|
      reads this`trail, this`men, this`hist, grid, men
    {
      var mv := hist[i].mv;
      && Consistent(trail[i]) && trail[i].flags.Keys == men
      && (InBoard(End(mv)) || mv == 0)
      && hist[i].endPiece == trail[i].grid[End(mv)]
      && MoveSnap(trail[i], Start(mv), End(mv)) == SnapAt(i + 1)
    }

    ghost predicate Valid()
      reads this, red, black, grid, men
    {
      && Struct() && Kings() && |trail| == |hist|
      && forall i :: 0 <= i < |hist| ==> Trailed(i)
    }

    lemma ViewIs()
      requires Struct() && Kings()
      ensures OnlyKings(Now(), red.king, black.king)
      ensures View() == ViewOf(Now(), red.king, black.king, cur.side, RecsOf(hist))
    {
    }

    /** The cell changes of makeMove. */
    method ShiftMan(mv: Move) returns (endPiece: Piece?)
      requires Struct() && InBoard(End(mv))
      modifies this`zobrist, grid, men`show, men`pos, red`value, black`value
      ensures Struct()
      ensures endPiece == old(Now()).grid[End(mv)]
      ensures Now() == MoveSnap(old(Now()), Start(mv), End(mv))
    {
      MoveParts(Now(), Start(mv), End(mv));
      endPiece := DelPiece(End(mv));
      var retPiece := DelPiece(Start(mv));
      AddPiece(retPiece, End(mv));
    }

    /** The cell changes of makeMove, and whether the move gives check. */
    method ShiftAndTest(mv: Move) returns (endPiece: Piece?, check: bool)
      requires Struct() && Kings() && InBoard(End(mv))
      requires Determined(Shifted(View(), mv), cur.side.Other())
      modifies this`zobrist, grid, men`show, men`pos, red`value, black`value
      ensures Struct()
      ensures endPiece == old(Now()).grid[End(mv)]
      ensures Now() == MoveSnap(old(Now()), Start(mv), End(mv))
      ensures View() == Shifted(old(View()), mv)
      ensures check == InCheck(Shifted(old(View()), mv), cur.side.Other())
    {
      hide Consistent, Caches, Determined, InCheck, Shifted, MoveSnap, RecsOf, Flags;
      ViewIs();
      ViewOfMove(Now(), red.king, black.king, cur.side, RecsOf(hist), mv);
      endPiece := ShiftMan(mv);
      ViewIs();
      check := WillKillKing(PlayerOf(cur.side.Other()));
    }

    lemma HistoryGrown(h: seq<StepRecord>, r: StepRecord)
      ensures RecsOf(h + [r]) == RecsOf(h) + [Rec(r.mv, r.endPiece != null, r.inCheck, r.key)]
    {
    }

    twostate lemma TrailGrown()
      requires old(Valid()) && Struct() && Kings() && men == old(men)
      requires |hist| == |old(hist)| + 1 && hist[..|old(hist)|] == old(hist)
      requires trail == old(trail) + [old(Now())]
      requires var r := hist[|old(hist)|];
               && (InBoard(End(r.mv)) || r.mv == 0)
               && r.endPiece == old(Now()).grid[End(r.mv)]
               && Now() == MoveSnap(old(Now()), Start(r.mv), End(r.mv))
      ensures Valid()
    {
      hide MoveSnap, Caches, Lists, Consistent, Kings;
      assert Trailed(|old(hist)|);
      forall i | 0 <= i < |old(hist)|
        ensures Trailed(i)
      {
        assert old(Trailed(i));
        assert hist[i] == hist[..|old(hist)|][i];
        assert SnapAt(i + 1) == old(SnapAt(i + 1));
      }
    }

    /** makeHistoryStep, with the snapshot the step was made from. */
    method Record(r: StepRecord, ghost was: Snap)
      requires Struct() && Kings() && |trail| == |hist| && HasSlot()
      modifies this`hist, this`trail
      ensures Struct() && Kings() && Now() == old(Now())
      ensures hist == old(hist) + [r] && trail == old(trail) + [was]
      ensures View() == old(View()).(hist := RecsOf(hist))
    {
      hide Consistent, Lists, CellsOf;
      hist := hist + [r];
      trail := trail + [was];
    }

    /** makeMove. A bounded history must be within its first 2048 slots; beyond them slots share one record. */
    method MakeMove(mv: Move)
      requires Valid() && HasSlot() && InBoard(End(mv))
      requires Determined(Shifted(View(), mv), cur.side.Other())
      modifies this`zobrist, this`hist, this`trail, grid, men`show, men`pos, red`value, black`value
      ensures Valid()
      ensures View() == Moved(keys, old(View()), mv)
      ensures trail == old(trail) + [old(Now())]
      ensures |hist| == |old(hist)| + 1 && hist[..|old(hist)|] == old(hist)
    {
      hide Lists, Consistent, Determined, InCheck, MoveSnap, Flags, Shifted;
      ghost var was := Now();
      MoveConsistent(was, Start(mv), End(mv));
      var zkey := zobrist.key;
      var endPiece, check := ShiftAndTest(mv);
      var r := StepRecord(mv, endPiece, check, zkey);
      HistoryGrown(hist, r);
      Record(r, was);
      TrailGrown();
    }

    /** Take the last record off the history. */
    method Unrecord()
      requires Struct() && Kings() && |trail| == |hist| && |hist| > 0
      modifies this`hist, this`trail
      ensures Struct() && Kings() && Now() == old(Now())
      ensures hist == old(hist)[..|old(hist)| - 1] && trail == old(trail)[..|old(hist)| - 1]
    {
      hide Consistent, Lists, CellsOf;
      hist := hist[..|hist| - 1];
      trail := trail[..|trail| - 1];
    }

    twostate lemma TrailShrunk()
      requires old(Valid()) && |old(hist)| > 0 && Struct() && Kings() && men == old(men)
      requires hist == old(hist)[..|old(hist)| - 1] && trail == old(trail)[..|old(hist)| - 1]
      requires Now() == old(trail)[|old(hist)| - 1]
      ensures Valid()
    {
      hide MoveSnap, Caches, Lists, Consistent, Kings, Flags;
      forall i | 0 <= i < |hist|
        ensures Trailed(i)
      {
        assert old(Trailed(i));
        assert SnapAt(i + 1) == old(SnapAt(i + 1));
      }
    }

    /** The cells and flags allow the step (a, b) with the given captured piece to be taken back. */
    ghost predicate CanUndo(a: Square, b: Square, captured: Piece?)
      requires grid.Length == 256
      reads this`men, grid, men
    {
      var s := Now();
      && (s.grid[b] != null ==> InBoard(a) && s.grid[b] in s.flags && s.grid[b] in men
                                && Del(s, b).grid[a] == null && !Del(s, b).flags[s.grid[b]].show)
      && (captured != null ==> InBoard(b) && captured in men && captured in s.flags
                               && Add(Del(s, b), s.grid[b], a).grid[b] == null
                               && !Add(Del(s, b), s.grid[b], a).flags[captured].show)
    }

    /** What the last record says about the present cells. */
    lemma LastRecord()
      requires Valid() && |hist| > 0
      ensures var r, t := hist[|hist| - 1], trail[|hist| - 1];
              && Consistent(Now()) && CanUndo(Start(r.mv), End(r.mv), r.endPiece)
              && UndoSnap(Now(), Start(r.mv), End(r.mv), r.endPiece) == t
    {
      hide MoveSnap, Caches, Lists, Consistent, Kings, UndoSnap, Flags;
      assert Trailed(|hist| - 1);
      var r, t := hist[|hist| - 1], trail[|hist| - 1];
      if r.mv == 0 {
        NullRecord(t);
      } else {
        UndoRestores(t, Start(r.mv), End(r.mv));
        UndoParts(t, Start(r.mv), End(r.mv));
        MoveConsistent(t, Start(r.mv), End(r.mv));
      }
    }

    /** The cell changes of undoMove. */
    method ShiftBack(a: Square, b: Square, captured: Piece?)
      requires Struct() && CanUndo(a, b, captured)
      modifies this`zobrist, grid, men`show, men`pos, red`value, black`value
      ensures Struct() && Now() == UndoSnap(old(Now()), a, b, captured)
    {
      hide Consistent, Lists, Caches, CellsOf;
      var retPiece := DelPiece(b);
      AddPiece(retPiece, a);
      AddPiece(captured, b);
    }

    /** undoMove: cells, piece objects, caches and history are what they were before the last step. */
    method UndoMove()
      requires Valid()
      modifies this`zobrist, this`hist, this`trail, grid, men`show, men`pos, red`value, black`value
      ensures Valid()
      ensures |old(hist)| == 0 ==> Now() == old(Now()) && hist == [] && trail == []
      ensures |old(hist)| > 0 ==>
                && Now() == old(trail)[|old(hist)| - 1]
                && hist == old(hist)[..|old(hist)| - 1] && trail == old(trail)[..|old(hist)| - 1]
    {
      hide Consistent, Lists, MoveSnap, CanUndo, Caches, CellsOf, Flags;
      if |hist| == 0 {
        return;
      }
      LastRecord();
      var step := hist[|hist| - 1];
      Unrecord();
      ShiftBack(Start(step.mv), End(step.mv), step.endPiece);
      TrailShrunk();
    }

    /** The field updates of changeSide. */
    method FlipTurn()
      requires Struct()
      modifies this`cur, this`zobrist
      ensures Struct() && Now() == old(Now()) && cur == PlayerOf(old(cur.side).Other())
    {
      hide Consistent, PlacementHash, Xor, Material, CellsOf;
      HashFlip(keys, Cells(), cur.side);
      cur := PlayerOf(cur.side.Other());
      zobrist := Xor(zobrist, keys.player);
    }

    /** changeSide. */
    method ChangeSide()
      requires Valid()
      modifies this`cur, this`zobrist
      ensures Valid() && Now() == old(Now()) && cur == PlayerOf(old(cur.side).Other())
      ensures View() == old(View()).(side := old(View()).side.Other())
    {
      hide Consistent, MoveSnap, Caches, CellsOf, Flags;
      FlipTurn();
      TrailKept();
    }

    twostate lemma TrailKept()
      requires old(Valid()) && Struct() && Kings() && Now() == old(Now())
      requires men == old(men) && hist == old(hist) && trail == old(trail)
      ensures Valid()
    {
      hide Consistent, MoveSnap, Caches, Lists, Flags, CellsOf, Kings;
      forall i | 0 <= i < |hist|
        ensures Trailed(i)
      {
        assert old(Trailed(i));
      }
    }

    /** play: make the move and pass the turn. */
    method PlayMove(mv: Move)
      requires Valid() && HasSlot() && InBoard(End(mv))
      requires Determined(Shifted(View(), mv), cur.side.Other())
      modifies this`cur, this`zobrist, this`hist, this`trail, grid, men`show, men`pos, red`value, black`value
      ensures Valid()
      ensures View() == Played(keys, old(View()), mv)
      ensures trail == old(trail) + [old(Now())]
    {
      hide Struct, Valid, Kings, Moved, Shifted, Determined, Flags, CellsOf;
      MakeMove(mv);
      ChangeSide();
    }

    /** backOneStep: undo the last step and pass the turn back. */
    method BackOneStep()
      requires Valid()
      modifies this`cur, this`zobrist, this`hist, this`trail, grid, men`show, men`pos, red`value, black`value
      ensures Valid()
      ensures |old(hist)| > 0 ==>
                && Now() == old(trail)[|old(hist)| - 1]
                && hist == old(hist)[..|old(hist)| - 1] && trail == old(trail)[..|old(hist)| - 1]
      ensures |old(hist)| == 0 ==> Now() == old(Now()) && hist == [] && trail == []
      ensures cur.side == old(cur.side).Other()
    {
      UndoMove();
      ChangeSide();
    }

    /** makeNullMove: a record without a move. */
    method MakeNullMove()
      requires Valid() && HasSlot()
      modifies this`hist, this`trail
      ensures Valid() && Now() == old(Now())
      ensures View() == Passed(keys, old(View())).(side := old(View()).side)
      ensures trail == old(trail) + [old(Now())]
      ensures |hist| == |old(hist)| + 1 && hist[..|old(hist)|] == old(hist) && hist[|old(hist)|].mv == 0
    {
      hide Consistent, Lists, MoveSnap, CellsOf;
      NullRecord(Now());
      var r := StepRecord(0, null, false, zobrist.key);
      HistoryGrown(hist, r);
      Record(r, Now());
      TrailGrown();
    }

    /** undoNullMove: drop the record of a null move. */
    method UndoNullMove()
      requires Valid() && |hist| > 0 && hist[|hist| - 1].mv == 0
      modifies this`hist, this`trail
      ensures Valid() && Now() == old(Now())
      ensures Now() == old(trail)[|old(hist)| - 1]
      ensures hist == old(hist)[..|old(hist)| - 1] && trail == old(trail)[..|old(hist)| - 1]
    {
      hide Consistent, Lists, MoveSnap, CellsOf;
      assert Trailed(|hist| - 1);
      NullRecord(trail[|hist| - 1]);
      Unrecord();
      TrailShrunk();
    }

    /** evaluate: the material of the side to move against the other's, plus 3 for the move. */
    function Evaluate(): (v: int)
      requires Struct()
      reads this, red, black, grid, men, red.king, black.king
      ensures v == Evaluation(View())
    {
      cur.value - PlayerOf(cur.side.Other()).value + 3
    }

    /** repetitionStatus. */
    method RepetitionStatus(recur: int) returns (r: int)
      requires Struct()
      ensures r == Status(View().hist, recur, Hash(keys, View().cells, View().side).key)
    {
      ghost var key := zobrist.key;
      var i, own, ownChecks, oppChecks, left := |hist| - 1, false, true, true, recur;
      while i >= 0
        invariant -1 <= i < |hist|
        invariant Status(RecsOf(hist), recur, key) == Scan(RecsOf(hist), i, own, ownChecks, oppChecks, left, key)
      {
        var step := hist[i];
        if step.mv <= 0 || step.endPiece != null {
          return 0;
        }
        if own {
          ownChecks := ownChecks && step.inCheck;
          if step.key == zobrist.key {
            left := left - 1;
            if left == 0 {
              return 1 + (if ownChecks then 2 else 0) + (if oppChecks then 4 else 0);
            }
          }
        } else {
          oppChecks := oppChecks && step.inCheck;
        }
        own := !own;
        i := i - 1;
      }
      return 0;
    }

    /** Equal cells and flags, equal history, same side: the same position. */
    twostate lemma SameView()
      requires old(Struct()) && old(Kings()) && Struct() && Kings()
      requires Now() == old(Now()) && hist == old(hist) && cur == old(cur)
      requires red.king == old(red.king) && black.king == old(black.king)
      ensures View() == old(View())
      ensures zobrist == old(zobrist) && red.value == old(red.value) && black.value == old(black.value)
    {
      ViewIs();
      assert old(Now()).flags[red.king].pos == old(red.king.pos);
      assert old(Now()).flags[black.king].pos == old(black.king.pos);
    }

    /** Make a move, ask whether it leaves the own king in check, and undo it. */
    method LeavesKingSafe(mv: Move) returns (safe: bool)
      requires Valid() && HasSlot() && InBoard(End(mv))
      requires Determined(Shifted(View(), mv), Red) && Determined(Shifted(View(), mv), Black)
      modifies this`zobrist, this`hist, this`trail, grid, men`show, men`pos, red`value, black`value
      ensures Valid() && Now() == old(Now()) && hist == old(hist) && trail == old(trail)
      ensures View() == old(View()) && safe == Safe(View(), mv)
    {
      hide Struct, Moved, Shifted, Determined, Flags, CellsOf, InCheck, Trailed;
      ghost var g := View();
      UnfoldValid();
      MakeMove(mv);
      UnfoldValid();
      MovedDetermined(keys, g, mv, cur.side);
      var attacked := WillKillKing(cur);
      MovedCheck(keys, g, mv, cur.side);
      safe := !attacked;
      UndoMove();
      UnfoldValid();
      SameView();
    }

    lemma UnfoldValid()
      requires Valid()
      ensures Struct() && Kings() && (cur == red || cur == black) && red.side == Red && black.side == Black
    {
    }

    /** legalMove. In a position of play no such move captures a king, so trying it is defined. */
    method TryLegalMove(mv: Move) returns (legal: bool)
      requires Valid() && HasSlot() && InBoard(End(mv)) && Legal(View())
      modifies this`zobrist, this`hist, this`trail, grid, men`show, men`pos, red`value, black`value
      ensures Valid() && Now() == old(Now()) && hist == old(hist) && trail == old(trail)
      ensures View() == old(View()) && legal == LegalMove(View(), mv)
    {
      hide Shifted, Determined, Flags, InCheck, Trailed, Attack, ArmySized, Consistent, Caches;
      var pseudo := TryPseudo(mv);
      legal := false;
      if pseudo {
        TriesDetermined(View(), mv);
        legal := LeavesKingSafe(mv);
      }
    }

    /** The static part of legalMove: own man, target not own, attack test. */
    method TryPseudo(mv: Move) returns (r: bool)
      requires Valid() && InBoard(End(mv))
      ensures r == Pseudo(View(), mv)
    {
      hide Attack, Shifted, Flags, InCheck, Trailed, Caches, Consistent, RecsOf;
      var piece, dest := grid[Start(mv)], End(mv);
      UnfoldValid();
      ViewOnBoard();
      r := false;
      if piece != null && PlayerOf(piece.side) == cur && !(grid[dest] != null && grid[dest].side == piece.side) {
        ShownMan(piece);
        r := LegalMovePiece(piece, dest);
      }
    }

    /** generateAllMovesNoncheck, which despite its name returns the generated moves that leave the
        mover's king safe; each is tried on the board and undone. */
    method GenerateSafeMoves(captures: bool) returns (mvs: seq<Move>)
      requires Valid() && HasSlot() && Legal(View())
      modifies this`zobrist, this`hist, this`trail, grid, men`show, men`pos, red`value, black`value
      ensures Valid() && Now() == old(Now()) && hist == old(hist) && trail == old(trail) && View() == old(View())
      ensures Distinct(mvs)
      ensures forall mv: Move :: mv in mvs <==> IsGenerated(View(), mv, captures) && Safe(View(), mv)
    {
      hide Struct, Shifted, Determined, Flags, InCheck, Trailed, Generated, WellPlaced, Consistent;
      UnfoldValid();
      ghost var g := View();
      var all := GenerateAllMoves(captures);
      mvs := [];
      for i := 0 to |all|
        invariant Valid() && Now() == old(Now()) && hist == old(hist) && trail == old(trail) && View() == g
        invariant Distinct(mvs)
        invariant forall mv: Move :: mv in mvs <==> mv in all[..i] && Safe(g, mv)
      {
        assert all[..i + 1] == all[..i] + [all[i]];
        assert IsGenerated(g, all[i], captures);
        GeneratedTries(g, all[i], captures);
        var safe := LeavesKingSafe(all[i]);
        if safe {
          DistinctAppend(mvs, all[i]);
          mvs := mvs + [all[i]];
        }
      }
      assert all[..|all|] == all;
    }

    /** noWayToMove: mated or stalemated. */
    method NoWayToMove() returns (r: bool)
      requires Valid() && HasSlot() && Legal(View())
      modifies this`zobrist, this`hist, this`trail, grid, men`show, men`pos, red`value, black`value
      ensures Valid() && Now() == old(Now()) && hist == old(hist) && trail == old(trail) && View() == old(View())
      ensures r <==> forall mv: Move :: IsGenerated(View(), mv, false) ==> !Safe(View(), mv)
    {
      hide Struct, Flags, IsGenerated, Safe, Trailed, Legal;
      var mvs := GenerateSafeMoves(false);
      r := |mvs| == 0;
      if !r {
        assert mvs[0] in mvs;
      }
    }

    /** Any nested make/undo sequence goes through the position that the moves lead to, and is the identity
        on cells, piece objects, hash, material and history. */
    method MakeThenUndo(mvs: seq<Move>) returns (ghost inner: Game)
      requires Valid() && (bounded ==> |hist| + |mvs| <= HISTORY_SIZE) && Makeable(keys, View(), mvs)
      modifies this`zobrist, this`hist, this`trail, grid, men`show, men`pos, red`value, black`value
      ensures Valid() && Now() == old(Now()) && hist == old(hist) && trail == old(trail) && View() == old(View())
      ensures zobrist == old(zobrist) && red.value == old(red.value) && black.value == old(black.value)
      ensures inner == AllMoved(keys, old(View()), mvs)
      decreases |mvs|
    {
      hide Struct, Flags, Shifted, Determined, Moved, Trailed, RecsOf, CellsOf;
      inner := View();
      if mvs == [] {
        return;
      }
      UnfoldValid();
      MakeMove(mvs[0]);
      inner := MakeThenUndo(mvs[1..]);
      UndoMove();
      UnfoldValid();
      SameView();
    }

    /** getMirrorZobrist: the hash of the mirrored placement with the same side to move. */
    method MirrorZobrist() returns (z: Zobrist)
      requires Struct()
      ensures z == Hash(keys, MirrorCells(Cells()), cur.side)
    {
      hide Xor, XorAll, CellsOf, Caches, Hash, MirrorCells, MirrorKeys, Lists, Consistent, MirrorPos;
      UnfoldStruct();
      z := ZERO;
      ghost var c := Cells();
      NoKeys(c);
      ghost var ks := MirrorKeys(keys, c);
      for i := 0 to 256
        invariant z == XorAll(ks[..i])
      {
        XorAllNext(ks, i);
        XorLaws(z, ZERO, ZERO);
        MirrorKeyAt(i);
        if InBoard(i) {
          var piece := grid[i];
          if piece != null {
            z := Xor(z, keys.piece(piece.side, piece.kind, MirrorPos(piece.pos)));
          }
        }
      }
      assert ks[..256] == ks;
      MirrorHashIs(c, z);
      if cur.side == Black {
        z := Xor(z, keys.player);
      }
    }

    lemma NoKeys(c: Placement)
      ensures XorAll([]) == ZERO && |MirrorKeys(keys, c)| == 256
    {
    }

    lemma XorAllNext(ks: seq<Zobrist>, i: nat)
      requires i < |ks|
      ensures XorAll(ks[..i + 1]) == Xor(XorAll(ks[..i]), ks[i])
    {
      hide Xor;
      assert ks[..i + 1][..i] == ks[..i];
    }

    /** The key that cell i contributes to the mirrored hash. */
    lemma MirrorKeyAt(i: Square)
      requires Struct()
      ensures |MirrorKeys(keys, Cells())| == 256
      ensures MirrorKeys(keys, Cells())[i] ==
              if InBoard(i)
                && grid[i] != null then keys.piece(grid[i].side, grid[i].kind, MirrorPos(grid[i].pos)) else ZERO
    {
      hide Xor, Caches, Hash, MirrorCells, Lists, MirrorPos;
      if grid[i] != null {
        ShownAt(i);
      }
    }

    lemma MirrorHashIs(c: Placement, z: Zobrist)
      requires Struct() && c == Cells() && z == XorAll(MirrorKeys(keys, c))
      ensures Hash(keys, MirrorCells(c), cur.side) == if cur.side == Black then Xor(z, keys.player) else z
    {
      hide Xor, CellsOf, Caches, Hash, MirrorCells, Lists, MirrorKeys;
      forall p: Square | c[p].Man?
        ensures InBoard(p)
      {
        CellsOfSet(grid[..], p, null);
        ShownAt(p);
      }
      MirrorHashExact(keys, c, cur.side);
    }

    // ---- Whole states ----

    ghost function Whole(): (s: State)
      reads this, red, black, grid, men, red.king, black.king
      ensures s.cur == cur && s.view == View() && s.hist == hist && s.trail == trail
    {
      State(if grid.Length == 256 then Now() else Snap(Nobody(), map[]), hist, trail, cur, View(), zobrist,
            red.value, black.value)
    }

    /** s was a state of this board. */
    ghost predicate Sound(s: State)
      reads red`king, black`king
    {
      && red.king != null && black.king != null && red.king in s.snap.flags && black.king in s.snap.flags
      && s.view == ViewOf(s.snap, red.king, black.king, s.cur.side, RecsOf(s.hist))
      && s.zobrist == Hash(keys, CellsOf(s.snap.grid), s.cur.side)
      && s.redValue == Material(CellsOf(s.snap.grid), Red)
      && s.blackValue == Material(CellsOf(s.snap.grid), Black)
      && (s.cur == red || s.cur == black)
    }

    /** The board is one step further than s, with the turn passed. */
    ghost predicate After(s: State)
      reads this, red, black, grid, men, red.king, black.king
    {
      Sound(s) && OneMore(s, Whole()) && Whole().cur == PlayerOf(s.cur.side.Other())
    }

    lemma WholeSound()
      requires Valid()
      ensures Sound(Whole()) && Whole().view == View() && Whole().hist == hist && Whole().trail == trail
      ensures Whole().cur == cur && Whole().snap == Now() && |trail| == |hist|
    {
      hide Consistent, MoveSnap, Hash, Material, CellsOf;
      ViewIs();
    }

    lemma SameWhole(s: State)
      requires Valid() && Sound(s)
      requires Now() == s.snap && hist == s.hist && trail == s.trail && cur == s.cur
      ensures Whole() == s
    {
      hide Consistent, MoveSnap, Hash, Material, CellsOf;
      ViewIs();
    }

    /** Undo the step that led away from s. */
    method StepBack(ghost s: State)
      requires Valid() && OneMore(s, Whole())
      modifies this`zobrist, this`hist, this`trail, grid, men`show, men`pos, red`value, black`value
      ensures Valid() && Now() == s.snap && hist == s.hist && trail == s.trail
    {
      hide Struct, Kings, Flags;
      UndoMove();
      assert hist == s.hist;
    }

    /** Make a move and keep it only if it leaves the own king safe. */
    method MakeIfSafe(mv: Move) returns (ok: bool)
      requires Valid() && HasSlot() && InBoard(End(mv))
      requires Determined(Shifted(View(), mv), Red) && Determined(Shifted(View(), mv), Black)
      modifies this`zobrist, this`hist, this`trail, grid, men`show, men`pos, red`value, black`value
      ensures Valid() && ok == Safe(old(View()), mv)
      ensures !ok ==> Whole() == old(Whole())
      ensures ok ==> View() == Moved(keys, old(View()), mv) && Sound(old(Whole())) && OneMore(old(Whole()), Whole())
    {
      hide Struct, Moved, Shifted, Determined, Flags, CellsOf, InCheck, Trailed, Whole;
      ghost var g, s := View(), Whole();
      WholeSound();
      UnfoldValid();
      MakeMove(mv);
      UnfoldValid();
      MovedDetermined(keys, g, mv, cur.side);
      var attacked := WillKillKing(cur);
      MovedCheck(keys, g, mv, cur.side);
      ok := !attacked;
      if attacked {
        StepBack(s);
        SameWhole(s);
      }
    }

    /** Pass the turn on the board one step after s. */
    method PassTurn(ghost s: State)
      requires Valid() && Sound(s) && OneMore(s, Whole()) && cur == s.cur
      modifies this`cur, this`zobrist
      ensures Valid() && After(s) && View() == old(View()).(side := old(View()).side.Other())
    {
      hide Struct, Kings, Flags, CellsOf, Trailed, Whole;
      ChangeSide();
    }

    /** Undo the step that led away from s and pass the turn back. */
    method ReturnTo(ghost s: State)
      requires Valid() && After(s)
      modifies this`cur, this`zobrist, this`hist, this`trail, grid, men`show, men`pos, red`value, black`value
      ensures Valid() && Whole() == s
    {
      hide Struct, Kings, Flags, CellsOf, Trailed, Whole;
      UnfoldValid();
      StepBack(s);
      UnfoldValid();
      ChangeSide();
      SameWhole(s);
    }

    /** A null move and the turn passed, from state s. */
    method PassNull(ghost s: State)
      requires Valid() && HasSlot() && s == Whole()
      modifies this`cur, this`zobrist, this`hist, this`trail
      ensures Valid() && After(s) && View() == Passed(keys, old(View())) && hist[|s.hist|].mv == 0
    {
      hide Struct, Kings, Flags, CellsOf, Trailed, Whole;
      WholeSound();
      MakeNullMove();
      PassTurn(s);
    }

    /** Back from a null move. */
    method ReturnFromNull(ghost s: State)
      requires Valid() && After(s) && hist[|s.hist|].mv == 0
      modifies this`cur, this`zobrist, this`hist, this`trail
      ensures Valid() && Whole() == s
    {
      hide Struct, Kings, Flags, CellsOf, Trailed, Whole;
      UnfoldValid();
      UndoNullMove();
      assert hist == s.hist;
      UnfoldValid();
      ChangeSide();
      SameWhole(s);
    }

    // ---- Runs ----

    /** A move can be made if the history has a slot, it ends on the board, and the check test after it
        is defined. */
    predicate CanMake(mv: Move)
      requires grid.Length == 256
      reads this`hist, this`cur, grid, red`king, black`king, red.king, black.king
    {
      var s, e, opp := Start(mv), End(mv), PlayerOf(cur.side.Other());
      && HasSlot() && InBoard(e)
      && TestEnds(MoveCells(Cells(), s, e), MoveKing(Cells(), KingPos(opp), cur.side.Other(), s, e), cur.side.Other())
    }

    lemma CanMakeExact(mv: Move)
      requires Struct() && Kings()
      ensures CanMake(mv) <==> Playable(bounded, View(), mv)
      ensures Playable(bounded, View(), mv) ==> HasSlot()
    {
      hide Consistent, Caches;
    }

    /** A move onto the board is defined while there is a slot, the other side's king stands on its square,
        and the move does not take it. */
    lemma KingStands(mv: Move)
      requires Struct() && Kings() && HasSlot() && InBoard(End(mv))
      requires var opp := PlayerOf(cur.side.Other()); grid[opp.king.pos] == opp.king && End(mv) != opp.king.pos
      ensures CanMake(mv)
    {
      hide Consistent, Caches;
      ViewOnBoard();
      KingStaysDetermined(View(), mv, cur.side.Other());
    }

    /** The position on the board with its past. */
    ghost function At(): Position
      reads this`hist, this`trail, this`cur, red`king, black`king, grid, red.king, black.king
    {
      Position(View(), PastOf(trail, red.king, black.king))
    }

    lemma SpotNow()
      requires Struct() && Kings()
      ensures SpotIn(Now(), red.king, black.king) == SpotOf(View())
    {
      hide Consistent, Lists, Caches, CellsOf;
      ViewIs();
    }

    lemma NoPast()
      requires trail == []
      ensures At() == Position(View(), [])
    {
      hide CellsOf;
    }

    /** The past after a step. */
    twostate lemma PastGrown()
      requires grid.Length == 256 && SpotIn(old(Now()), red.king, black.king) == SpotOf(old(View()))
      requires red.king == old(red.king) && black.king == old(black.king)
      requires trail == old(trail) + [old(Now())]
      ensures At().past == old(At()).past + [SpotOf(old(View()))]
    {
      hide CellsOf, Flags;
    }

    /** The past and the position after a step back. */
    twostate lemma PastShrunk()
      requires |old(hist)| > 0 && |old(trail)| == |old(hist)| && Struct() && Kings()
      requires red.king == old(red.king) && black.king == old(black.king)
      requires Now() == old(trail)[|old(hist)| - 1]
      requires hist == old(hist)[..|old(hist)| - 1] && trail == old(trail)[..|old(hist)| - 1]
      ensures At() == Back(old(At())).(game := Back(old(At())).game.(side := cur.side))
    {
      hide CellsOf, Flags, Consistent, Lists, Caches;
      SpotNow();
      assert RecsOf(hist) == RecsOf(old(hist))[..|old(hist)| - 1];
    }

    /** ... and if nothing was taken back. */
    twostate lemma PastKept()
      requires old(Struct()) && old(Kings()) && Struct() && Kings()
      requires red.king == old(red.king) && black.king == old(black.king)
      requires Now() == old(Now()) && hist == old(hist) && trail == old(trail)
      ensures At() == old(At()).(game := old(At()).game.(side := cur.side))
    {
      hide CellsOf, Consistent, Lists, Caches;
      ViewIs();
      assert old(Now()).flags[red.king].pos == old(red.king.pos);
      assert old(Now()).flags[black.king].pos == old(black.king.pos);
    }

    /** The operations that make a step. */
    method ApplyStep(op: Operation)
      requires Valid() && (op.MakeOp? || op.PlayOp? || op.NullOp?)
      modifies this`cur, this`zobrist, this`hist, this`trail, grid, men`show, men`pos, red`value, black`value
      ensures Valid() && At() == Done(keys, bounded, old(At()), op)
    {
      hide Struct, Kings, CellsOf, Trailed, Determined, Shifted, Moved, Flags, CanMake, SpotIn, Caches;
      UnfoldValid();
      UnfoldStruct();
      SpotNow();
      match op {
        case MakeOp(mv) =>
          CanMakeExact(mv);
          if CanMake(mv) {
            MakeMove(mv);
            PastGrown();
          }
        case PlayOp(mv) =>
          CanMakeExact(mv);
          if CanMake(mv) {
            PlayMove(mv);
            PastGrown();
          }
        case NullOp =>
          if HasSlot() {
            MakeNullMove();
            PastGrown();
          }
      }
    }

    /** The operations that take one back, and the one that passes the turn. */
    method ApplyBack(op: Operation)
      requires Valid() && (op.UndoOp? || op.BackOp? || op.UndoNullOp? || op.TurnOp?)
      modifies this`cur, this`zobrist, this`hist, this`trail, grid, men`show, men`pos, red`value, black`value
      ensures Valid() && At() == Done(keys, bounded, old(At()), op)
    {
      hide Struct, Kings, CellsOf, Trailed, Flags, SpotIn;
      UnfoldValid();
      var back := |hist| > 0 && (op.UndoOp? || op.BackOp? || (op.UndoNullOp? && hist[|hist| - 1].mv == 0));
      match op {
        case UndoOp => UndoMove();
        case BackOp => BackOneStep();
        case UndoNullOp =>
          if back {
            UndoNullMove();
          }
        case TurnOp => ChangeSide();
      }
      UnfoldValid();
      if back {
        PastShrunk();
      } else {
        PastKept();
      }
    }

    /** One operation does to the board what it does to the position. Operations that are not possible when
        they come are skipped. */
    method Apply(op: Operation)
      requires Valid()
      modifies this`cur, this`zobrist, this`hist, this`trail, grid, men`show, men`pos, red`value, black`value
      ensures Valid() && At() == Done(keys, bounded, old(At()), op)
    {
      hide Valid, Done, At;
      if op.MakeOp? || op.PlayOp? || op.NullOp? {
        ApplyStep(op);
      } else {
        ApplyBack(op);
      }
    }

    /** Any run of moves, undos, back-steps, null moves and turn changes: the board goes through the positions
        that the operations give one after the other, where undoing brings back what stood there before, and
        whatever happened, the hash triple is the one recomputed from the cells and the side to move, and
        each player's value is the recomputed material. */
    method RunOperations(ops: seq<Operation>)
      requires Valid()
      modifies this`cur, this`zobrist, this`hist, this`trail, grid, men`show, men`pos, red`value, black`value
      ensures Valid() && At() == AllDone(keys, bounded, old(At()), ops)
      ensures zobrist == Hash(keys, Cells(), cur.side)
      ensures red.value == Material(Cells(), Red) && black.value == Material(Cells(), Black)
    {
      hide Struct, Kings, CellsOf, Trailed, Determined, Shifted, Flags, CanMake, At, Done;
      for i := 0 to |ops|
        invariant Valid() && At() == AllDone(keys, bounded, old(At()), ops[..i])
      {
        assert ops[..i + 1][..i] == ops[..i];
        Apply(ops[i]);
      }
      assert ops[..|ops|] == ops;
      CachesNow();
    }

    lemma CachesNow()
      requires Valid()
      ensures zobrist == Hash(keys, Cells(), cur.side)
      ensures red.value == Material(Cells(), Red) && black.value == Material(Cells(), Black)
    {
    }

    // ---- Text form ----

    /** toFen. */
    method ToFen() returns (fen: string)
      requires grid.Length == 256
      ensures fen == Text(Cells(), cur.side)
    {
      hide Print, Text, CellsOf;
      ghost var c, side := Cells(), cur.side;
      TextIs(c, side);
      fen := "";
      for row := 0 to 10
        invariant row < 10 ==> fen + Print(c, side, row, 0, 0) == Text(c, side)
        invariant row == 10 ==> fen != "" && fen[..|fen| - 1] + [' ', SideLetter(side)] == Text(c, side)
      {
        var line := PrintCells(fen, row);
        fen := line + "/";
        assert fen[..|fen| - 1] == line;
        if row < 9 {
          assert line + ("/" + Print(c, side, row + 1, 0, 0)) == fen + Print(c, side, row + 1, 0, 0);
        }
      }
      fen := fen[..|fen| - 1] + [' ', if cur.side == Red then 'w' else 'b'];
    }

    /** One row of toFen, up to its separator. */
    method PrintCells(before: string, row: nat) returns (fen: string)
      requires grid.Length == 256 && row < 10
      requires before + Print(Cells(), cur.side, row, 0, 0) == Text(Cells(), cur.side)
      ensures fen + (if row == 9 then [' ', SideLetter(cur.side)] else "/" + Print(Cells(), cur.side, row + 1, 0, 0))
              == Text(Cells(), cur.side)
    {
      hide CellsOf, Letter, Text, Print, Digit;
      ghost var c, side := Cells(), cur.side;
      fen := before;
      var number: nat := 0;
      for col := 0 to 9
        invariant number <= col
        invariant fen + Print(c, side, row, col, number) == Text(c, side)
      {
        var pos := ToPos(row, col);
        CellsOfSet(grid[..], pos, null);
        if grid[pos] != null {
          PrintMan(c, side, row, col, number);
          PrintedMan(fen, EmptyRun(number), Letter(CellAt(c, row, col)), Print(c, side, row, col + 1, 0));
          if number > 0 {
            fen := fen + [Digit(number)];
          }
          fen := fen + [Letter(Man(grid[pos].side, grid[pos].kind))];
          number := 0;
        } else {
          PrintEmpty(c, side, row, col, number);
          number := number + 1;
        }
      }
      PrintEnd(c, side, row, number);
      PrintedRun(fen, EmptyRun(number),
        if row == 9 then [' ', SideLetter(side)] else "/" + Print(c, side, row + 1, 0, 0));
      if number > 0 {
        fen := fen + [Digit(number)];
      }
    }

    /** The field updates of resetData. */
    method ClearFields()
      requires grid.Length == 256 && red != black
      modifies this`cur, this`zobrist, this`hist, this`men, this`trail, grid
      modifies red`value, red`king, red`pieces, black`value, black`king, black`pieces
      ensures grid[..] == Nobody() && men == {} && cur == red && hist == [] && trail == [] && zobrist == ZERO
      ensures red.value == 0 && red.king == null && red.pieces == []
      ensures black.value == 0 && black.king == null && black.pieces == []
    {
      red.value, red.king, red.pieces := 0, null, [];
      black.value, black.king, black.pieces := 0, null, [];
      cur := red;
      forall i | 0 <= i < grid.Length {
        grid[i] := null;
      }
      hist, men, trail, zobrist := [], {}, [], ZERO;
    }

    /** resetData. */
    method ResetData()
      requires Struct()
      modifies this`cur, this`zobrist, this`hist, this`men, this`trail, grid
      modifies red`value, red`king, red`pieces, black`value, black`king, black`pieces
      ensures Struct() && Cells() == Nothing() && grid[..] == Nobody() && men == {} && cur == red
      ensures hist == [] && trail == [] && red.pieces == [] && black.pieces == []
      ensures red.king == null && black.king == null
    {
      hide Hash, Material;
      EmptyCaches(keys);
      ClearFields();
      assert Cells() == Nothing();
    }

    /** The field updates of addPieceToBoard and of the player's addPiece. */
    method EnlistFields(piece: Piece)
      requires grid.Length == 256 && InBoard(piece.pos) && red != black
      modifies this`zobrist, this`men, grid
      modifies PlayerOf(piece.side)`value, PlayerOf(piece.side)`king, PlayerOf(piece.side)`pieces
      ensures grid[..] == old(grid[..])[piece.pos := piece] && men == old(men) + {piece}
      ensures PlayerOf(piece.side).pieces == old(PlayerOf(piece.side).pieces) + [piece]
      ensures PlayerOf(piece.side).king == if piece.kind == King then piece else old(PlayerOf(piece.side).king)
      ensures PlayerOf(piece.side).value ==
        old(PlayerOf(piece.side).value) + ManValue(piece.side, piece.kind, piece.pos)
      ensures zobrist == Xor(old(zobrist), keys.piece(piece.side, piece.kind, piece.pos))
    {
      hide ManValue, Xor;
      var player := PlayerOf(piece.side);
      grid[piece.pos] := piece;
      player.pieces := player.pieces + [piece];
      if piece.kind == King {
        player.king := piece;
      }
      player.value := player.value + piece.Value();
      zobrist := Xor(zobrist, keys.piece(piece.side, piece.kind, piece.pos));
      men := men + {piece};
    }

    twostate lemma ListsGrown(piece: Piece)
      requires old(Lists()) && piece !in old(men) && men == old(men) + {piece} && cur == old(cur)
      requires PlayerOf(piece.side).pieces == old(PlayerOf(piece.side).pieces) + [piece]
      requires PlayerOf(piece.side).king == if piece.kind == King then piece else old(PlayerOf(piece.side).king)
      requires PlayerOf(piece.side.Other()).pieces == old(PlayerOf(piece.side.Other()).pieces)
      requires PlayerOf(piece.side.Other()).king == old(PlayerOf(piece.side.Other()).king)
      ensures Lists()
    {
    }

    twostate lemma AfterEnlist(piece: Piece)
      requires old(Struct()) && piece !in old(men) && piece.show && InBoard(piece.pos)
      requires old(grid[..])[piece.pos] == null
      requires cur == old(cur) && men == old(men) + {piece}
      requires grid[..] == old(grid[..])[piece.pos := piece]
      requires forall m :: m in old(men) ==> m.pos == old(m.pos) && m.show == old(m.show)
      requires PlayerOf(piece.side).pieces == old(PlayerOf(piece.side).pieces) + [piece]
      requires PlayerOf(piece.side).king == if piece.kind == King then piece else old(PlayerOf(piece.side).king)
      requires PlayerOf(piece.side).value ==
        old(PlayerOf(piece.side).value) + ManValue(piece.side, piece.kind, piece.pos)
      requires PlayerOf(piece.side.Other()).pieces == old(PlayerOf(piece.side.Other()).pieces)
      requires PlayerOf(piece.side.Other()).king == old(PlayerOf(piece.side.Other()).king)
      requires PlayerOf(piece.side.Other()).value == old(PlayerOf(piece.side.Other()).value)
      requires zobrist == Xor(old(zobrist), keys.piece(piece.side, piece.kind, piece.pos))
      ensures Struct() && Cells() == old(Cells())[piece.pos := CellOf(piece)]
    {
      hide Hash, Material, ManValue, Xor, CellsOf, Consistent, Lists;
      var was := old(Now());
      ListsGrown(piece);
      CellsOfSet(was.grid, piece.pos, piece);
      CacheUpdate(keys, old(Cells()), cur.side, piece.pos, CellOf(piece));
      MenGrown(was, piece);
    }

    /** addPieceToBoard: a king becomes the recorded king, whether or not there was one. */
    method AddPieceToBoard(side: Side, kind: Kind, pos: Square)
      requires Struct() && InBoard(pos) && grid[pos] == null
      requires |PlayerOf(side).pieces| < 16
      modifies this`zobrist, this`men, grid, PlayerOf(side)`value, PlayerOf(side)`king, PlayerOf(side)`pieces
      ensures Struct() && Cells() == old(Cells())[pos := Man(side, kind)]
      ensures |PlayerOf(side).pieces| == |old(PlayerOf(side).pieces)| + 1
      ensures kind != King ==> PlayerOf(side).king == old(PlayerOf(side).king)
      ensures kind == King ==> PlayerOf(side).king != null && PlayerOf(side).king.pos == pos
      ensures old(men) <= men && fresh(men - old(men)) && forall m :: m in men && m !in old(men) ==> m.show
    {
      hide Hash, Material, ManValue, Xor, CellsOf, Consistent, Lists, Caches;
      var piece := new Piece(side, kind, pos);
      Enlist(piece);
    }

    method Enlist(piece: Piece)
      requires Struct() && InBoard(piece.pos) && grid[piece.pos] == null && piece !in men && piece.show
      modifies this`zobrist, this`men, grid
      modifies PlayerOf(piece.side)`value, PlayerOf(piece.side)`king, PlayerOf(piece.side)`pieces
      ensures Struct() && Cells() == old(Cells())[piece.pos := CellOf(piece)]
      ensures PlayerOf(piece.side).pieces == old(PlayerOf(piece.side).pieces) + [piece]
      ensures PlayerOf(piece.side).king == if piece.kind == King then piece else old(PlayerOf(piece.side).king)
      ensures men == old(men) + {piece}
    {
      hide Hash, Material, ManValue, Xor, CellsOf, Consistent, Caches;
      EnlistFields(piece);
      AfterEnlist(piece);
    }

    lemma MenGrown(was: Snap, piece: Piece)
      requires grid.Length == 256 && Consistent(was) && piece !in was.flags && InBoard(piece.pos) && piece.show
      requires was.grid[piece.pos] == null && grid[..] == was.grid[piece.pos := piece]
      requires men == was.flags.Keys + {piece}
      requires forall m :: m in was.flags ==> was.flags[m] == Flag(m.pos, m.show)
      ensures Consistent(Now())
    {
    }

    /** While loading, the lists hold exactly the men on the board. */
    ghost predicate Counted()
      requires grid.Length == 256
      reads this, red, black, grid, men, red.king, black.king
    {
      && Tallied(Cells(), Red, |red.pieces|, red.king != null)
      && Tallied(Cells(), Black, |black.pieces|, black.king != null)
      && Recorded(red, Red) && Recorded(black, Black) && forall m :: m in men ==> m.show
    }

    /** The recorded king of a player is the last one in reading order. */
    ghost predicate Recorded(player: Player, side: Side)
      requires grid.Length == 256
      reads grid, player`king, player.king
    {
      player.king != null ==> LastKing(Cells(), side, player.king.pos)
    }

    /** One letter of the text: a man more on the board. */
    method AddLetter(x: Cell, pos: Square)
      requires Struct() && Counted() && x.Man? && InBoard(pos) && Cells()[pos] == Empty
      requires Fits(Cells()[pos := x]) && forall p: Square :: Cells()[p].Man? ==> p < pos
      modifies this`zobrist, this`men, grid
      modifies red`value, red`king, red`pieces, black`value, black`king, black`pieces
      ensures Struct() && Counted() && Cells() == old(Cells())[pos := x]
      ensures old(men) <= men && fresh(men - old(men))
    {
      hide Consistent, Caches, Lists, CellsOf, Total, Tallied;
      ghost var c := Cells();
      UnfoldStruct();
      CellsOfSet(grid[..], pos, null);
      RoomFor(c, pos, x, PlayerOf(x.side).king != null, |PlayerOf(x.side).pieces|);
      TalliedAdd(c, pos, x, Red, |red.pieces|, red.king != null);
      TalliedAdd(c, pos, x, Black, |black.pieces|, black.king != null);
      AddPieceToBoard(x.side, x.kind, pos);
      LastKingAdd(c, pos, x);
    }

    lemma LastKingAdd(c: Placement, pos: Square, x: Cell)
      requires x.Man? && forall p: Square :: c[p].Man? ==> p < pos
      ensures x.kind == King ==> LastKing(c[pos := x], x.side, pos)
      ensures forall s: Side, k: Square :: LastKing(c, s, k) && x != Man(s, King) ==> LastKing(c[pos := x], s, k)
    {
      var d := c[pos := x];
      forall s: Side, p: Square
        ensures KingOn(d, s, p) <==> (p == pos && x == Man(s, King)) || (p != pos && KingOn(c, s, p))
      {
      }
    }

    /** initFromFen on an empty board. */
    method InitFromFen(fen: string) returns (side: Side)
      requires Struct() && Counted() && Cells() == Nothing() && Loadable(fen)
      modifies this`zobrist, this`men, grid
      modifies red`value, red`king, red`pieces, black`value, black`king, black`pieces
      ensures Struct() && Counted() && Cells() == LoadAll(fen).cells && side == LoadAll(fen).side
      ensures old(men) <= men && fresh(men - old(men))
    {
      hide Struct, Counted, CellsOf, Fits, CellAt, Ahead, Letter, ManOf, IsSpace, IsDigit, IsLetter;
      var row, col, i := 0, 0, 0;
      assert fen[0..] == fen;
      UnfoldStruct();
      LoadStarts(fen);
      while !IsSpace(fen[i])
        invariant 0 <= i < |fen| && 0 <= row && 0 <= col
        invariant old(men) <= men && fresh(men - old(men))
        invariant Struct() && Counted() && grid.Length == 256 && Ahead(Cells(), row, col)
        invariant Load(fen[i..], row, col, Cells()) == LoadAll(fen)
        decreases |fen| - i
      {
        LoadStep(fen[i..], row, col, Cells());
        assert fen[i..][1..] == fen[i + 1..];
        var ch := fen[i];
        if IsDigit(ch) {
          col := col + DigitValue(ch);
        } else if IsLetter(ch) {
          AddLetter(ManOf(ch), ToPos(row, col));
          UnfoldStruct();
          col := col + 1;
        } else if ch == '/' {
          row := row + 1;
          col := 0;
        }
        i := i + 1;
      }
      LoadStops(fen[i..], row, col, Cells());
      i := i + 1;
      if i < |fen| && fen[i] == 'b' {
        side := Black;
      } else {
        side := Red;
      }
    }

    lemma UnfoldStruct()
      requires Struct()
      ensures grid.Length == 256 && red != black
    {
    }

    /** resetFromFen. */
    method ResetFromFen(fen: string)
      requires Struct() && Loadable(fen)
      modifies this`cur, this`zobrist, this`hist, this`men, this`trail, grid
      modifies red`value, red`king, red`pieces, black`value, black`king, black`pieces
      ensures Struct() && Cells() == LoadAll(fen).cells && cur.side == LoadAll(fen).side
      ensures hist == [] && trail == [] && fresh(men)
      ensures var c := Cells();
              && (red.king != null <==> HasKing(c, Red)) && (black.king != null <==> HasKing(c, Black))
              && (red.king != null ==> LastKing(c, Red, red.king.pos))
              && (black.king != null ==> LastKing(c, Black, black.king.pos))
              && (Kings() <==> HasKing(c, Red) && HasKing(c, Black) && OneKing(c, Red) && OneKing(c, Black))
      ensures Kings() ==> Valid()
    {
      hide Consistent, Caches, CellsOf, Loadable, LoadAll, KingOn, HasKing, OneKing, LastKing, Total, Flags;
      ResetData();
      EmptyCounted();
      var side := InitFromFen(fen);
      KingsCounted();
      if side == Black {
        FlipTurn();
      }
    }

    /** While all men show, the kings are in order exactly if each side has one on the board. */
    lemma KingsCounted()
      requires Struct() && Counted()
      ensures var c := Cells();
              Kings() <==> HasKing(c, Red) && HasKing(c, Black) && OneKing(c, Red) && OneKing(c, Black)
    {
      hide Caches, Total, Consistent;
      forall m | m in men
        ensures 0 <= m.pos < 256 && grid[m.pos] == m && Cells()[m.pos] == Man(m.side, m.kind)
      {
        ShownMan(m);
      }
      forall p: Square | grid[p] != null
        ensures grid[p] in men && grid[p].pos == p && Cells()[p] == Man(grid[p].side, grid[p].kind)
      {
        ShownAt(p);
      }
      forall p: Square
        ensures Cells()[p].Man? <==> grid[p] != null
      {
      }
      if Kings() {
        assert KingOn(Cells(), Red, red.king.pos) && KingOn(Cells(), Black, black.king.pos);
        forall s: Side, p: Square | KingOn(Cells(), s, p)
          ensures p == PlayerOf(s).king.pos
        {
          assert grid[p] != null && grid[p] in men && grid[p].kind == King && grid[p].side == s;
        }
      }
      if red.king != null && black.king != null && OneKing(Cells(), Red) && OneKing(Cells(), Black) {
        forall m | m in men && m.kind == King
          ensures m == PlayerOf(m.side).king
        {
          assert KingOn(Cells(), m.side, m.pos) && KingOn(Cells(), m.side, PlayerOf(m.side).king.pos);
        }
      }
    }

    /** reset: the start position. The history is empty, Red is to move, and the position is legal. */
    method Reset()
      requires Struct()
      modifies this`cur, this`zobrist, this`hist, this`men, this`trail, grid
      modifies red`value, red`king, red`pieces, black`value, black`king, black`pieces
      ensures Valid() && View() == StartGame() && Legal(View())
      ensures hist == [] && trail == [] && cur == red && fresh(men)
    {
      hide Consistent, Caches, CellsOf, Loadable, LoadAll, KingOn, Total, Flags, WellPlaced, InCheck, StartCells;
      ResetData();
      EmptyCounted();
      StartLoads();
      var side := InitFromFen(START);
      StartKings();
      StartLegal();
      KingsCounted();
      KingsAreAt(199, 55);
    }

    /** The recorded kings of counted pieces stand where the placement shows them. */
    lemma KingsAreAt(rk: Square, bk: Square)
      requires Struct() && Counted() && Kings() && Cells()[rk] == Man(Red, King) && Cells()[bk] == Man(Black, King)
      ensures KingPos(red) == rk && KingPos(black) == bk
    {
      hide Total, Caches;
      ViewIs();
      ViewOnBoard();
    }

    lemma EmptyCounted()
      requires grid.Length == 256 && Cells() == Nothing() && red.pieces == [] && black.pieces == []
      requires red.king == null && black.king == null && men == {}
      ensures Counted()
    {
      hide Total, CellsOf;
      SideMenNone(Red);
      SideMenNone(Black);
    }

    /** Printing a position and loading the text again restores placement, side, hash and material. */
    method Reload() returns (fen: string)
      requires Struct() && SideMen(Cells(), Red) <= 16 && SideMen(Cells(), Black) <= 16
      modifies this`cur, this`zobrist, this`hist, this`men, this`trail, grid
      modifies red`value, red`king, red`pieces, black`value, black`king, black`pieces
      ensures Struct() && Cells() == old(Cells()) && cur.side == old(cur.side)
      ensures zobrist == old(zobrist) && red.value == old(red.value) && black.value == old(black.value)
      ensures |fen| <= 85 && fen == Text(old(Cells()), old(cur.side))
      ensures hist == [] && trail == [] && fresh(men)
    {
      hide Consistent, Hash, Material, CellsOf, LoadAll, Fen.Text, KingOn, Total, Men;
      OwnTextLoads();
      fen := ToFen();
      ResetFromFen(fen);
    }

    lemma OwnTextLoads()
      requires Struct() && SideMen(Cells(), Red) <= 16 && SideMen(Cells(), Black) <= 16
      ensures LoadAll(Text(Cells(), cur.side)) == Loaded(Cells(), cur.side) && Loadable(Text(Cells(), cur.side))
      ensures |Text(Cells(), cur.side)| <= 85
    {
      hide Text, LoadAll, Total, Caches;
      forall p: Square | grid[p] != null
        ensures InBoard(p) && grid[p] in men && grid[p].pos == p && Cells()[p] == Man(grid[p].side, grid[p].kind)
      {
        ShownAt(p);
      }
      LoadText(Cells(), cur.side);
      MenBySide(Cells());
      TextFits(Cells(), cur.side);
    }
  }
}
