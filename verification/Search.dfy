/** The search: moves made and unmade in place on one board, quiescence and principal-variation
    search (cchess_engine/search_engine.cc, search_engine.h). */
module Search {
  import opened Geometry
  import opened Pieces
  import opened Rules
  import opened Rays
  import opened Play
  import opened Snapshots
  import opened Boards
  import opened Picker
  import opened Quiescence

  const HISTORY_TABLE_SIZE := 65536
  const NULL_SAFE_MARGIN := 400
  const NULL_OKAY_MARGIN := 200
  const NULL_DEPTH := 2

  /** Two killer moves of one depth; 0 is an empty slot. */
  datatype Killers = Killers(first: Move, second: Move)

  /** All slots are empty. */
  predicate NoKillers(slots: seq<Killers>) {
    forall i :: 0 <= i < |slots| ==> slots[i] == Killers(0, 0)
  }

  /** mv may come up at a node: it passes the attack test, or the table offered it. */
  ghost predicate Tried(g: Game, table: Move, mv: Move) {
    Pseudo(g, mv) || (mv == table && mv != 0)
  }

  /** A slot is empty or holds a move that ends on the board. */
  predicate OnBoardSlot(mv: Move) { mv == 0 || InBoard(End(mv)) }

  // ---- Scores in the transposition table ----

  datatype Bound = UpperBound | LowerBound | Exact

  datatype Item = Item(depth: int, flag: Bound, value: int, mv: Move)

  const WIN_VALUE := 9800

  /** Every score the table can hold, whichever positions it came from. */
  predicate InTable(value: int) { -9999 <= value <= 9999 }

  /** A score a node at this distance can have, other than being mated on the spot. */
  predicate Reachable(value: int, distance: int) { distance - 9999 <= value <= 9999 - distance }

  /** transpositionTableGrab on a matching item: the score, -MATE_VALUE for none, and the value the
      item is left with, since mate scores are rewritten in place. */
  function Grab(item: Item, alpha: int, beta: int, depth: int, distance: int): (int, int) {
    if WIN_VALUE < item.value <= BAN_VALUE || -BAN_VALUE <= item.value < -WIN_VALUE then (-MATE_VALUE, item.value)
    else if item.value > WIN_VALUE then (Grabbed(item.flag, item.value - distance, alpha, beta), item.value - distance)
    else if item.value < -WIN_VALUE then (Grabbed(item.flag, item.value + distance, alpha, beta), item.value + distance)
    else if item.value == DrawValue(distance) || item.depth < depth then (-MATE_VALUE, item.value)
    else (Grabbed(item.flag, item.value, alpha, beta), item.value)
  }

  function Grabbed(flag: Bound, value: int, alpha: int, beta: int): int {
    match flag
    case LowerBound => if value >= beta then value else -MATE_VALUE
    case UpperBound => if value <= alpha then value else -MATE_VALUE
    case Exact => value
  }

  /** What transpositionTableInsert stores for a score, if it stores it. */
  function Stored(value: int, distance: int): int {
    if value > WIN_VALUE then value + distance else if value < -WIN_VALUE then value - distance else value
  }

  /** However often mate scores are rewritten, the table answers no score that a node at this distance
      could not have. */
  lemma GrabBound(item: Item, alpha: int, beta: int, depth: int, distance: nat)
    requires InTable(item.value) && distance <= LIMIT_DEPTH
    ensures var (r, left) := Grab(item, alpha, beta, depth, distance);
            InTable(left) && (r == -MATE_VALUE || Reachable(r, distance))
  {
  }

  lemma StoredBound(value: int, distance: nat)
    requires Reachable(value, distance) && distance <= LIMIT_DEPTH
    ensures InTable(Stored(value, distance))
  {
  }

  /** What an item says about the value q of its node. */
  predicate Claims(flag: Bound, value: int, q: int) {
    match flag
    case LowerBound => value <= q
    case UpperBound => q <= value
    case Exact => q == value
  }

  /** What the table answers if it holds this item. A score out of the range of all scores is none. */
  function Answer(item: Item, alpha: int, beta: int, depth: int, distance: int): int {
    if InTable(item.value) then Grab(item, alpha, beta, depth, distance).0 else -MATE_VALUE
  }

  /** The move it offers, if that can be tried here. */
  function Offer(item: Item, g: Game): Move { if Tryable(g, item.mv) then item.mv else 0 }

  /** v is what the moves of a node are worth: below beta it bounds the worth of every direct move, above alpha
      it is the worth of the move it comes from, if that is direct, and it is the mate value exactly if no move
      tried is safe. */
  ghost predicate ByMoves(k: KeyTable, g: Game, d: nat, depth: int, alpha: int, beta: int, table: Move, v: int,
                          from: Move)
    requires d < LIMIT_DEPTH
  {
    && (v == MateValue(d) ==> forall m: Move :: !Wanted(g, m))
    && (v != MateValue(d) ==> Safe(g, from) && Tried(g, table, from))
    && (v < beta ==> forall m: Move :: Wanted(g, m) && Direct(k, g, m, depth) ==> Worth(k, g, d, m) <= v)
    && (v > alpha && v != MateValue(d) && Direct(k, g, from, depth) ==>
          if v < beta then Worth(k, g, d, from) == v else Worth(k, g, d, from) >= v)
  }

  /** v cuts a node after a null move: only out of check, with material above 200; v is a value the side to
      move reaches by passing if the search after the null move is quiet, and with material up to 400 the node
      itself is worth beta if the verification search is. */
  ghost predicate ByNull(k: KeyTable, g: Game, d: nat, depth: int, beta: int, v: int)
    requires d < LIMIT_DEPTH
  {
    && v >= beta && !InCheck(g, g.side) && Material(g.cells, g.side) > 200
    && (depth <= 3 ==> v <= -Quiet(k, Passed(k, g), d + 1))
    && (depth <= 2 && Material(g.cells, g.side) <= 400 ==> beta <= Quiet(k, g, d))
  }

  /** What those searches say if there is no cut. */
  ghost predicate NoNull(k: KeyTable, g: Game, d: nat, depth: int, beta: int)
    requires d < LIMIT_DEPTH
  {
    !InCheck(g, g.side) && Material(g.cells, g.side) > 200 ==>
      && (depth <= 3 && Material(g.cells, g.side) > 400 ==> -Quiet(k, Passed(k, g), d + 1) < beta)
      && (depth <= 2 ==> -Quiet(k, Passed(k, g), d + 1) < beta || Quiet(k, g, d) < beta)
  }

  /** v is the value of a node above the horizon that does not repeat: the table's answer, if it has one; else
      the evaluation at the depth limit; else that of a null move, if it cuts; else that of the moves. */
  ghost predicate NodeValue(k: KeyTable, g: Game, item: Item, d: nat, depth: int, alpha: int, beta: int, noNull: bool,
                            v: int)
    requires d <= LIMIT_DEPTH
  {
    var answer := Answer(item, alpha, beta, depth, d);
    if answer > -MATE_VALUE then v == answer
    else if d == LIMIT_DEPTH then v == Evaluation(g)
    else
      || (!noNull && ByNull(k, g, d, depth, beta, v))
      || ((noNull || NoNull(k, g, d, depth, beta))
          && exists from: Move :: ByMoves(k, g, d, depth, alpha, beta, Offer(item, g), v, from))
  }

  /** The flag a score is stored with, for the window it was searched in. */
  function FlagFor(value: int, alpha: int, beta: int): Bound {
    if value >= beta then LowerBound else if value > alpha then Exact else UpperBound
  }

  /** A fail-soft score stored with its flag says something true. */
  lemma FlagClaims(value: int, q: int, alpha: int, beta: int)
    requires alpha < beta && FailSoft(value, q, alpha, beta)
    ensures Claims(FlagFor(value, alpha, beta), value, q)
  {
  }

  /** If what the item says is true, taken as a score at this distance, then the table's answer is
      fail-soft in every window. */
  lemma TableAnswer(item: Item, alpha: int, beta: int, depth: int, distance: int, q: int)
    requires alpha < beta && Claims(item.flag, Grab(item, alpha, beta, depth, distance).1, q)
    ensures var r := Grab(item, alpha, beta, depth, distance).0; r == -MATE_VALUE || FailSoft(r, q, alpha, beta)
  {
  }

  /** An exact score stored at distance d and read at distance e. A mate keeps its distance from the node
      and is read at any depth, the score of a perpetual check is never read, and any other score is read
      as it is, unless it looks like a draw or was searched less deep. */
  lemma StoredThenRead(value: int, d: nat, was: int, mv: Move, alpha: int, beta: int, depth: int, e: nat)
    requires Reachable(value, d) && d <= LIMIT_DEPTH && e <= LIMIT_DEPTH
    ensures var (r, left) := Grab(Item(was, Exact, Stored(value, d), mv), alpha, beta, depth, e);
            && (value > 9900 - d ==> r == value + d - e)
            && (value < d - 9900 ==> r == value - d + e)
            && (9800 < value <= 9900 - d || d - 9900 <= value < -9800 ==> r == -10000)
            && (-9800 <= value <= 9800 ==>
                  r == if value == (if e % 2 == 0 then -20 else 20) || was < depth then -10000 else value)
  {
  }

  /** Reading rewrites a mate score in place: reading it a second time gives the same answer exactly if
      the distance is 0 or the score is no mate. */
  lemma ReadAgainExact(value: int, was: int, mv: Move, alpha: int, beta: int, depth: int, e: nat)
    requires InTable(value) && e <= LIMIT_DEPTH
    ensures var (r, left) := Grab(Item(was, Exact, value, mv), alpha, beta, depth, e);
            Grab(Item(was, Exact, left, mv), alpha, beta, depth, e).0 == r <==> e == 0 || -9900 <= value <= 9900
  {
  }

  // ---- Ordering ----

  function AttackValue(kind: Kind): int {
    match kind
    case King => 5
    case Advisor => 1
    case Bishop => 1
    case Knight => 3
    case Rook => 4
    case Cannon => 3
    case Pawn => 2
  }

  /** Most valuable victim, least valuable attacker. */
  function MvvLva(c: Placement, mv: Move): int {
    (if c[End(mv)].Man? then AttackValue(c[End(mv)].kind) * 10 else 0)
    - (if c[Start(mv)].Man? then AttackValue(c[Start(mv)].kind) else 0)
  }

  /** A man of kind x is dearer than one of kind y. */
  predicate Dearer(x: Kind, y: Kind) {
    match x
    case King => y != King
    case Rook => y in {Knight, Cannon, Pawn, Advisor, Bishop}
    case Knight => y in {Pawn, Advisor, Bishop}
    case Cannon => y in {Pawn, Advisor, Bishop}
    case Pawn => y in {Advisor, Bishop}
    case Advisor => false
    case Bishop => false
  }

  /** Of two captures the one of the dearer man comes first, and of two captures of equally dear men the
      one by the less dear man. */
  lemma CaptureOrder(c: Placement, a: Move, b: Move)
    requires c[Start(a)].Man? && c[End(a)].Man? && c[Start(b)].Man? && c[End(b)].Man?
    ensures MvvLva(c, a) > MvvLva(c, b) <==>
            || Dearer(c[End(a)].kind, c[End(b)].kind)
            || (!Dearer(c[End(b)].kind, c[End(a)].kind) && Dearer(c[Start(b)].kind, c[Start(a)].kind))
  {
    DearerIs(c[End(a)].kind, c[End(b)].kind);
    DearerIs(c[End(b)].kind, c[End(a)].kind);
    DearerIs(c[Start(b)].kind, c[Start(a)].kind);
    hide AttackValue, Dearer;
  }

  lemma DearerIs(x: Kind, y: Kind)
    ensures Dearer(x, y) <==> AttackValue(x) > AttackValue(y)
    ensures 1 <= AttackValue(x) <= 5 && 1 <= AttackValue(y) <= 5
  {
  }

  function ByCapture(c: Placement): Move -> int { (mv: Move) => MvvLva(c, mv) }

  function ByHistory(table: seq<int>): Move -> int {
    (mv: Move) => if mv < |table| then table[mv] else 0
  }

  ghost predicate Descending(s: seq<Move>, key: Move -> int) {
    forall i, j :: 0 <= i < j < |s| ==> key(s[i]) >= key(s[j])
  }

  /** Move lists are sorted in descending order of a key; the order of equal keys is left open by the source. */
  method SortMoves(mvs: seq<Move>, key: Move -> int) returns (r: seq<Move>)
    ensures multiset(r) == multiset(mvs) && Descending(r, key)
    ensures forall mv: Move :: mv in r <==> mv in mvs
    ensures Distinct(mvs) ==> Distinct(r)
  {
    r := [];
    for i := 0 to |mvs|
      invariant multiset(r) == multiset(mvs[..i]) && Descending(r, key)
    {
      assert mvs[..i + 1] == mvs[..i] + [mvs[i]];
      r := Insert(r, mvs[i], key);
    }
    assert mvs[..|mvs|] == mvs;
    PermutedSame(mvs, r);
  }

  method Insert(s: seq<Move>, mv: Move, key: Move -> int) returns (r: seq<Move>)
    requires Descending(s, key)
    ensures multiset(r) == multiset(s) + multiset([mv]) && Descending(r, key)
  {
    hide Descending;
    var at := 0;
    while at < |s| && key(s[at]) >= key(mv)
      invariant 0 <= at <= |s|
      invariant forall j :: 0 <= j < at ==> key(s[j]) >= key(mv)
    {
      at := at + 1;
    }
    assert s == s[..at] + s[at..];
    r := s[..at] + [mv] + s[at..];
    InsertDescending(s, at, mv, key);
  }

  lemma InsertDescending(s: seq<Move>, at: nat, mv: Move, key: Move -> int)
    requires at <= |s| && Descending(s, key)
    requires forall j :: 0 <= j < at ==> key(s[j]) >= key(mv)
    requires at < |s| ==> key(s[at]) < key(mv)
    ensures Descending(s[..at] + [mv] + s[at..], key)
  {
  }

  lemma PermutedSame(s: seq<Move>, t: seq<Move>)
    requires multiset(s) == multiset(t)
    ensures forall mv: Move :: mv in t <==> mv in s
    ensures Distinct(s) ==> Distinct(t)
  {
    forall mv: Move
      ensures mv in t <==> mv in s
    {
      assert mv in s <==> mv in multiset(s);
      assert mv in t <==> mv in multiset(t);
    }
    if Distinct(s) {
      DistinctOnce(s);
      OnceDistinct(t);
    }
  }

  lemma {:induction false} DistinctOnce(s: seq<Move>)
    requires Distinct(s)
    ensures forall mv: Move :: multiset(s)[mv] <= 1
  {
    if s != [] {
      var n := |s| - 1;
      assert s == s[..n] + [s[n]];
      DistinctOnce(s[..n]);
      assert s[n] !in s[..n];
      assert s[n] !in multiset(s[..n]);
    }
  }

  lemma OnceDistinct(s: seq<Move>)
    requires forall mv: Move :: multiset(s)[mv] <= 1
    ensures Distinct(s)
  {
    forall i, j | 0 <= i < j < |s|
      ensures s[i] != s[j]
    {
      if s[i] == s[j] {
        TwiceCounted(s, i, j);
      }
    }
  }

  lemma TwiceCounted(s: seq<Move>, i: nat, j: nat)
    requires i < j < |s| && s[i] == s[j]
    ensures multiset(s)[s[i]] >= 2
  {
    var tail := s[i + 1..];
    assert s == s[..i] + [s[i]] + tail;
    assert tail[j - i - 1] == s[i];
    assert s[i] in multiset(tail);
  }

  class SearchEngine {
    const board: Board
    var distance: int
    var allNodes: nat
    var mvBest: Move
    var history: seq<int>
    var killers: seq<Killers>
    const items: nat -> Item // the item the table holds for the n-th node when it is asked
    ghost var overran: bool // a killer slot beyond the table was accessed

    constructor (board: Board, items: nat -> Item)
      ensures this.items == items
      ensures this.board == board && distance == 0 && allNodes == 0 && Tables() && SlotsOnBoard() && !overran
      ensures history == seq(HISTORY_TABLE_SIZE, _ => 0) && killers == seq(LIMIT_DEPTH, _ => Killers(0, 0))
    {
      this.board, this.items, distance, allNodes, overran := board, items, 0, 0, false;
      history := seq(HISTORY_TABLE_SIZE, _ => 0);
      killers := seq(LIMIT_DEPTH, _ => Killers(0, 0));
    }

    /** The tables have their sizes. */
    predicate Tables()
      reads this`history, this`killers
    {
      |history| == HISTORY_TABLE_SIZE && |killers| == LIMIT_DEPTH
    }

    /** The killer slots hold nothing or moves that end on the board, as all moves stored by a search do. */
    predicate SlotsOnBoard()
      reads this`killers
    {
      forall i :: 0 <= i < |killers| ==> OnBoardSlot(killers[i].first) && OnBoardSlot(killers[i].second)
    }

    /** There is a history slot for every step down to the depth limit. */
    predicate Room()
      reads this`distance, board`hist
    {
      0 <= distance <= LIMIT_DEPTH && |board.hist| + (LIMIT_DEPTH - distance) <= HISTORY_SIZE
    }

    ghost predicate Ready()
      reads this`distance, this`history, this`killers, board, board.red, board.black, board.grid, board.men
    {
      board.Valid() && Legal(board.View()) && Room() && Tables()
    }

    /** makeMove: make the move, take it back if it leaves the own king attacked, else pass the turn. */
    method TryMove(mv: Move) returns (ok: bool)
      requires Ready() && distance < LIMIT_DEPTH && Tryable(board.View(), mv)
      modifies this`distance, board`cur, board`zobrist, board`hist, board`trail
      modifies board.grid, board.men`show, board.men`pos, board.red`value, board.black`value
      ensures Ready() && ok == Safe(old(board.View()), mv)
      ensures !ok ==> board.Whole() == old(board.Whole()) && distance == old(distance)
      ensures ok ==> distance == old(distance) + 1 && board.After(old(board.Whole()))
                     && board.View() == Played(board.keys, old(board.View()), mv)
    {
      hide Moved, Shifted, Determined, InCheck, WellPlaced, Attack, CellsOf, Board.Valid, Board.Whole, Board.After;
      ghost var g, s := board.View(), board.Whole();
      ok := board.MakeIfSafe(mv);
      if ok {
        distance := distance + 1;
        board.PassTurn(s);
        TryableExact(board.keys, g, mv);
      }
    }

    /** willKillSelfKing. */
    method SelfInCheck() returns (check: bool)
      requires Ready()
      ensures check == InCheck(board.View(), board.View().side)
    {
      hide InCheck, CellsOf;
      board.UnfoldValid();
      WellPlacedDetermined(board.View(), board.View().side);
      check := board.WillKillKing(board.cur);
    }

    /** undoMove: back to the state s the last move was made in. */
    method TakeBack(ghost s: State)
      requires Ready() && distance > 0 && board.After(s) && Legal(s.view)
      modifies this`distance, board`cur, board`zobrist, board`hist, board`trail
      modifies board.grid, board.men`show, board.men`pos, board.red`value, board.black`value
      ensures Ready() && board.Whole() == s && distance == old(distance) - 1
    {
      hide InCheck, WellPlaced, CellsOf, Board.Valid, Board.Whole, Tables, Board.Sound;
      board.ReturnTo(s);
      distance := distance - 1;
    }

    /** searchQuiescence. For every position, distance and window the result is a fail-soft answer
        for the value the full recursion gives, and the board is as it was. */
    method SearchQuiescence(alpha: int, beta: int) returns (value: int)
      requires Ready() && alpha < beta
      modifies this`distance, this`allNodes, board`cur, board`zobrist, board`hist, board`trail
      modifies board.grid, board.men`show, board.men`pos, board.red`value, board.black`value
      ensures Ready() && board.Whole() == old(board.Whole()) && distance == old(distance)
      ensures FailSoft(value, Quiet(board.keys, old(board.View()), distance), alpha, beta)
      ensures MateValue(distance) <= value <= 9999 - distance
      ensures beta <= MateValue(distance) ==> value == MateValue(distance)
      ensures allNodes > old(allNodes)
      ensures distance == LIMIT_DEPTH || beta <= MateValue(distance) ==> allNodes == old(allNodes) + 1
      ensures RepetitionOf(board.keys, old(board.View())) > 0 ==> allNodes == old(allNodes) + 1
      decreases LIMIT_DEPTH - distance, 3
    {
      hide InCheck, WellPlaced, CellsOf, Quiet, Board.Valid, Board.Whole, Board.View, Tables, FailSoft;
      allNodes := allNodes + 1;
      value := QuietNode(alpha, beta);
    }

    /** What searchQuiescence does once the node is counted: the cuts that need no move. */
    method QuietNode(alpha: int, beta: int) returns (value: int)
      requires Ready() && alpha < beta
      modifies this`distance, this`allNodes, board`cur, board`zobrist, board`hist, board`trail
      modifies board.grid, board.men`show, board.men`pos, board.red`value, board.black`value
      ensures Ready() && board.Whole() == old(board.Whole()) && distance == old(distance)
      ensures FailSoft(value, Quiet(board.keys, old(board.View()), distance), alpha, beta)
      ensures MateValue(distance) <= value <= 9999 - distance
      ensures beta <= MateValue(distance) ==> value == MateValue(distance)
      ensures allNodes >= old(allNodes)
      ensures distance == LIMIT_DEPTH || beta <= MateValue(distance) ==> allNodes == old(allNodes)
      ensures RepetitionOf(board.keys, old(board.View())) > 0 ==> allNodes == old(allNodes)
      decreases LIMIT_DEPTH - distance, 2
    {
      hide InCheck, WellPlaced, CellsOf, Evaluation, RepetitionValue, Best, Board.Valid, Board.Whole, Tables;
      ghost var g := board.View();
      board.UnfoldValid();
      QuietBound(board.keys, g, distance);
      value := MateValue(distance);
      if value >= beta {
        return;
      }
      var rep := board.RepetitionStatus(1);
      if rep > 0 {
        value := RepetitionValue(distance, rep);
      } else if distance == LIMIT_DEPTH {
        value := board.Evaluate();
      } else {
        value := QuietExpand(alpha, beta);
      }
    }

    /** The rest of searchQuiescence: stand pat unless in check, then the moves. */
    method QuietExpand(alpha: int, beta: int) returns (value: int)
      requires Ready() && alpha < beta && distance < LIMIT_DEPTH && MateValue(distance) < beta
      requires RepetitionOf(board.keys, board.View()) <= 0
      modifies this`distance, this`allNodes, board`cur, board`zobrist, board`hist, board`trail
      modifies board.grid, board.men`show, board.men`pos, board.red`value, board.black`value
      ensures Ready() && board.Whole() == old(board.Whole()) && distance == old(distance)
      ensures FailSoft(value, Quiet(board.keys, old(board.View()), distance), alpha, beta)
      ensures MateValue(distance) <= value <= 9999 - distance && allNodes >= old(allNodes)
      decreases LIMIT_DEPTH - distance, 1
    {
      hide InCheck, WellPlaced, CellsOf, Evaluation, Quiet, RepetitionOf, Seen, Board.Valid, Board.Whole, Tables;
      hide Pseudo, IsGenerated, Descending, Board.Sound, Board.After, Board.Struct, Board.Kings, Candidate;
      ghost var g := board.View();
      board.UnfoldValid();
      var check := SelfInCheck();
      var best, low := -MATE_VALUE, alpha;
      if !check {
        value := board.Evaluate();
        EvaluationBound(g);
        StandPatIsBelow(board.keys, g, distance);
        if value > best {
          if value >= beta {
            return;
          }
          best := value;
          low := if value > low then value else low;
        }
      }
      SeenStart(board.keys, g, distance, !check, alpha);
      var mvs := OrderedMoves(check);
      value := QuietMoves(mvs, !check, low, beta, best, alpha);
    }

    /** The moves a quiescence node looks at: all of them in check, captures otherwise. */
    method OrderedMoves(check: bool) returns (mvs: seq<Move>)
      requires Ready()
      ensures Distinct(mvs) && forall mv: Move :: mv in mvs <==> IsGenerated(board.View(), mv, !check)
      ensures Descending(mvs, if check then ByHistory(history) else ByCapture(board.View().cells))
    {
      hide IsGenerated, InCheck, WellPlaced, CellsOf, Descending;
      board.UnfoldValid();
      mvs := board.GenerateAllMoves(!check);
      if check {
        mvs := SortMoves(mvs, ByHistory(history));
      } else {
        mvs := SortMoves(mvs, ByCapture(board.Cells()));
      }
    }

    /** The loop of searchQuiescence. */
    method QuietMoves(mvs: seq<Move>, ghost captures: bool, low: int, beta: int, stand: int, ghost alpha: int)
      returns (value: int)
      requires Ready() && distance < LIMIT_DEPTH && alpha < beta && stand < beta && low < beta
      requires Searched(board.keys, board.View(), distance, captures)
      requires forall mv: Move :: mv in mvs <==> IsGenerated(board.View(), mv, captures)
      requires Seen(board.keys, board.View(), distance, captures, [], alpha, low, stand)
      modifies this`distance, this`allNodes, board`cur, board`zobrist, board`hist, board`trail
      modifies board.grid, board.men`show, board.men`pos, board.red`value, board.black`value
      ensures Ready() && board.Whole() == old(board.Whole()) && distance == old(distance)
      ensures FailSoft(value, Quiet(board.keys, old(board.View()), distance), alpha, beta)
      ensures MateValue(distance) <= value <= 9999 - distance && allNodes >= old(allNodes)
      decreases LIMIT_DEPTH - distance, 0
    {
      hide Tryable, InCheck, WellPlaced, CellsOf, Best, Quiet, IsGenerated, Safe, Pseudo, Played, Seen, StandPat;
      hide RepetitionOf, Board.Valid, Board.Whole, Board.Sound, Board.View, Tables;
      ghost var k, g, d, s := board.keys, board.View(), distance, board.Whole();
      var best, a := stand, low;
      for i := 0 to |mvs|
        invariant Ready() && distance == d && board.Whole() == s && board.View() == g && best < beta && a < beta
        invariant allNodes >= old(allNodes)
        invariant Seen(k, g, d, captures, mvs[..i], alpha, a, best)
      {
        var mv := mvs[i];
        assert mvs[..i + 1] == mvs[..i] + [mv];
        GeneratedTries(g, mv, captures);
        var ok := TryMove(mv);
        if ok {
          var v := SearchQuiescence(-beta, -a);
          v := -v;
          TakeBack(s);
          SeenStep(k, g, d, captures, mvs[..i], mv, alpha, a, best, beta, v);
          if v > best {
            if v >= beta {
              CutIsBelow(k, g, d, captures, mv);
              return v;
            }
            best := v;
            a := if v > a then v else a;
          }
        } else {
          SeenSkip(k, g, d, captures, mvs[..i], mv, alpha, a, best);
        }
      }
      assert mvs[..|mvs|] == mvs;
      SeenAll(k, g, d, captures, mvs, alpha, a, best, beta);
      if best == -MATE_VALUE {
        return MateValue(distance);
      }
      return best;
    }

    function KillerAt(which: int): Move
      requires Tables() && 0 <= distance < LIMIT_DEPTH
      reads this`history, this`killers, this`distance
    {
      if which == 0 then killers[distance].first else killers[distance].second
    }

    /** legalMove on the engine's board, which it leaves as it was. What it answers for a move that
        ends off the board is left open. */
    method TryKiller(mv: Move) returns (legal: bool)
      requires Ready() && distance < LIMIT_DEPTH
      modifies board`zobrist, board`hist, board`trail, board.grid, board.men`show, board.men`pos
      modifies board.red`value, board.black`value
      ensures Ready() && board.Whole() == old(board.Whole())
      ensures InBoard(End(mv)) ==> legal == LegalMove(old(board.View()), mv)
    {
      hide InCheck, WellPlaced, Pseudo, Safe, CellsOf, Board.Valid, Tables, Board.Whole, Board.Sound;
      if InBoard(End(mv)) {
        ghost var s := board.Whole();
        board.WholeSound();
        legal := board.TryLegalMove(mv);
        board.SameWhole(s);
      } else {
        legal := *;
      }
    }

    /** All generated moves, best history first. */
    method HistoryMoves() returns (mvs: seq<Move>)
      requires Ready()
      ensures Listed(board.View(), mvs) && Descending(mvs, ByHistory(history))
    {
      hide IsGenerated, InCheck, WellPlaced, CellsOf, Descending;
      mvs := OrderedMoves(true);
    }

    // ---- Full search ----

    /** What the transposition table answers. Which item it holds for a node is left open: any score in its
        range, whichever positions it came from, and any move word, of which those count that can be tried
        in this position. */
    method Probe(alpha: int, beta: int, depth: int) returns (value: int, mv: Move)
      requires Ready()
      ensures value == Answer(items(allNodes), alpha, beta, depth, distance)
        && mv == Offer(items(allNodes), board.View())
      ensures value == -MATE_VALUE || Reachable(value, distance)
      ensures mv == 0 || Tryable(board.View(), mv)
    {
      hide Tryable, WellPlaced, InCheck, CellsOf, Board.Valid, Grab;
      var item := items(allNodes);
      value := -MATE_VALUE;
      if InTable(item.value) {
        GrabBound(item, alpha, beta, depth, distance);
        value := Grab(item, alpha, beta, depth, distance).0;
      }
      mv := item.mv;
      board.UnfoldValid();
      board.UnfoldStruct();
      var g := Game(board.Cells(), board.KingPos(board.red), board.KingPos(board.black), board.cur.side, []);
      TryableIgnoresHistory(g, board.View(), mv);
      if !Tryable(g, mv) {
        mv := 0;
      }
    }

    method DoNullMove(ghost s: State)
      requires Ready() && distance < LIMIT_DEPTH && s == board.Whole() && !InCheck(s.view, s.view.side)
      modifies this`distance, board`cur, board`zobrist, board`hist, board`trail
      ensures Ready() && distance == old(distance) + 1 && board.After(s) && board.hist[|s.hist|].mv == 0
      ensures board.View() == Passed(board.keys, s.view)
    {
      hide WellPlaced, InCheck, CellsOf, Board.Valid, Board.Whole, Board.View, Board.Sound;
      PassedLegal(board.keys, board.View());
      distance := distance + 1;
      board.PassNull(s);
    }

    method UndoNullMove(ghost s: State)
      requires Ready() && distance > 0 && board.After(s) && board.hist[|s.hist|].mv == 0 && Legal(s.view)
      modifies this`distance, board`cur, board`zobrist, board`hist, board`trail
      ensures Ready() && distance == old(distance) - 1 && board.Whole() == s
    {
      hide InCheck, WellPlaced, CellsOf, Board.Valid, Board.Whole, Tables, Board.Sound;
      distance := distance - 1;
      board.ReturnFromNull(s);
    }

    /** setBestMove: the history table is indexed by the move, the killer table by the depth, and
        slot 0 must already hold the move for the slots to change. Depth 64 is one row past the
        killer table: the model leaves the table alone then and records the overrun. */
    method SetBestMove(mv: Move, depth: int)
      requires Tables() && SlotsOnBoard() && 0 <= depth <= LIMIT_DEPTH
      modifies this`history, this`killers, this`overran
      ensures Tables() && SlotsOnBoard() && history == old(history)[mv := old(history)[mv] + depth * depth]
      ensures killers == if depth < LIMIT_DEPTH && old(killers)[depth].first == mv
                         then old(killers)[depth := Killers(mv, mv)] else old(killers)
      ensures overran <==> old(overran) || depth == LIMIT_DEPTH
    {
      history := history[mv := history[mv] + depth * depth];
      if depth < LIMIT_DEPTH {
        var slots := killers[depth];
        if mv == slots.first {
          killers := killers[depth := Killers(mv, slots.first)];
        }
      } else {
        overran := true;
      }
    }

    /** searchFull. Whatever the table answers, the search ends, never goes below the depth limit,
        and leaves the board as it found it: the measure is the distance left, then the depth. */
    method SearchFull(alpha: int, beta: int, depth: int, noNull: bool) returns (value: int)
      requires Ready() && SlotsOnBoard() && depth <= LIMIT_DEPTH && alpha < beta
      modifies this`distance, this`allNodes, this`history, this`killers, this`overran
      modifies board`cur, board`zobrist, board`hist, board`trail
      modifies board.grid, board.men`show, board.men`pos, board.red`value, board.black`value
      ensures Ready() && SlotsOnBoard() && board.Whole() == old(board.Whole()) && distance == old(distance)
      ensures MateValue(distance) <= value <= 9999 - distance
      ensures depth <= 0 || RepetitionOf(board.keys, old(board.View())) > 0 ==>
                FailSoft(value, Quiet(board.keys, old(board.View()), distance), alpha, beta)
      ensures beta <= MateValue(distance) ==> value == MateValue(distance)
      ensures depth > 0 && MateValue(distance) < beta && RepetitionOf(board.keys, old(board.View())) > 0 ==>
                value == RepetitionValue(distance, RepetitionOf(board.keys, old(board.View())))
      ensures depth > 0 && MateValue(distance) < beta && RepetitionOf(board.keys, old(board.View())) <= 0 ==>
                NodeValue(board.keys, old(board.View()), items(old(allNodes) + 1), distance, depth, alpha, beta, noNull,
                          value)
      ensures TablesKept(old(overran), old(killers), old(history), depth) && allNodes > old(allNodes)
      decreases LIMIT_DEPTH - distance, if depth > 0 then depth else 0, 3
    {
      hide InCheck, WellPlaced, CellsOf, Quiet, FailSoft, RepetitionValue, RepetitionOf, NodeValue;
      hide Board.Valid, Board.Whole, Board.View, Tables, SlotsOnBoard, Room;
      if depth <= 0 {
        value := SearchQuiescence(alpha, beta);
      } else {
        VisitAnswers(alpha, beta);
        value := VisitNode(alpha, beta, depth, noNull);
      }
    }

    /** Of a repeated position the mate cut and the repetition score are fail-soft answers. */
    lemma VisitAnswers(alpha: int, beta: int)
      requires Ready() && alpha < beta
      ensures var k, g, d := board.keys, board.View(), distance;
              RepetitionOf(k, g) > 0 ==>
                && (beta <= MateValue(d) ==> FailSoft(MateValue(d), Quiet(k, g, d), alpha, beta))
                && FailSoft(RepetitionValue(d, RepetitionOf(k, g)), Quiet(k, g, d), alpha, beta)
    {
      hide RepetitionOf, RepetitionValue, Quiet, Legal, CellsOf, Board.Valid;
      var k, g, d := board.keys, board.View(), distance;
      QuietBound(k, g, d);
      if RepetitionOf(k, g) > 0 {
        RepeatedValue(k, g, d);
      }
    }

    /** Only a search of depth 64 can access a killer slot beyond the table, and as long as the slots are
        empty nothing is ever stored in them: setBestMove changes a row only if its first slot holds the
        very move to be stored. No entry of the history table ever gets smaller. */
    ghost predicate TablesKept(before: bool, slots: seq<Killers>, h: seq<int>, depth: int)
      reads this`overran, this`killers, this`history
    {
      && (before ==> overran) && (overran ==> before || depth == LIMIT_DEPTH)
      && (NoKillers(slots) ==> NoKillers(killers)) && Grown(h)
    }

    ghost predicate Grown(h: seq<int>)
      reads this`history
    {
      |h| == |history| && forall m :: 0 <= m < |h| ==> h[m] <= history[m]
    }

    /** The history entry of a move got its bonus. */
    ghost predicate Credited(h: seq<int>, mv: Move, depth: int)
      reads this`history
    {
      mv < |h| == |history| && history[mv] >= h[mv] + depth * depth
    }

    /** searchFull above the horizon: the node is counted, then cut by the mate value or a repetition. */
    method VisitNode(alpha: int, beta: int, depth: int, noNull: bool) returns (value: int)
      requires Ready() && SlotsOnBoard() && 0 < depth <= LIMIT_DEPTH && alpha < beta
      modifies this`distance, this`allNodes, this`history, this`killers, this`overran
      modifies board`cur, board`zobrist, board`hist, board`trail
      modifies board.grid, board.men`show, board.men`pos, board.red`value, board.black`value
      ensures Ready() && SlotsOnBoard() && board.Whole() == old(board.Whole()) && distance == old(distance)
      ensures MateValue(distance) <= value <= 9999 - distance
      ensures beta <= MateValue(distance) ==> value == MateValue(distance)
      ensures MateValue(distance) < beta && RepetitionOf(board.keys, old(board.View())) > 0 ==>
                value == RepetitionValue(distance, RepetitionOf(board.keys, old(board.View())))
      ensures MateValue(distance) < beta && RepetitionOf(board.keys, old(board.View())) <= 0 ==>
                NodeValue(board.keys, old(board.View()), items(old(allNodes) + 1), distance, depth, alpha, beta, noNull,
                          value)
      ensures TablesKept(old(overran), old(killers), old(history), depth) && allNodes > old(allNodes)
      decreases LIMIT_DEPTH - distance, depth, 2
    {
      hide InCheck, WellPlaced, CellsOf, RepetitionValue, NodeValue, Board.Valid, Board.Whole, Tables, SlotsOnBoard;
      allNodes := allNodes + 1;
      value := MateValue(distance);
      if beta <= value {
        return;
      }
      var rep := Repetition();
      if rep > 0 {
        RepetitionBound(distance, rep);
        return RepetitionValue(distance, rep);
      }
      value := FullNode(alpha, beta, depth, noNull);
    }

    /** repetitionStatus(1) of the position on the board. */
    method Repetition() returns (rep: int)
      requires Ready()
      ensures rep == RepetitionOf(board.keys, board.View())
    {
      hide InCheck, WellPlaced, CellsOf;
      board.UnfoldValid();
      rep := board.RepetitionStatus(1);
    }

    /** searchFull after the repetition test: table, depth limit, null move. */
    method FullNode(alpha: int, beta: int, depth: int, noNull: bool) returns (value: int)
      requires Ready() && SlotsOnBoard() && 0 < depth <= LIMIT_DEPTH && MateValue(distance) < beta && alpha < beta
      modifies this`distance, this`allNodes, this`history, this`killers, this`overran
      modifies board`cur, board`zobrist, board`hist, board`trail
      modifies board.grid, board.men`show, board.men`pos, board.red`value, board.black`value
      ensures Ready() && SlotsOnBoard() && board.Whole() == old(board.Whole()) && distance == old(distance)
      ensures MateValue(distance) <= value <= 9999 - distance
      ensures NodeValue(board.keys, old(board.View()), items(old(allNodes)), distance, depth, alpha, beta, noNull,
        value)
      ensures TablesKept(old(overran), old(killers), old(history), depth) && allNodes >= old(allNodes)
      decreases LIMIT_DEPTH - distance, depth, 1
    {
      hide Tryable, ByNull, NoNull, ByMoves, Grab, Offer;
      hide InCheck, WellPlaced, CellsOf, Pseudo, Evaluation, Board.Valid, Board.Whole, Board.View, Tables, SlotsOnBoard;
      var table;
      value, table := Probe(alpha, beta, depth);
      if value > -MATE_VALUE {
        return;
      }
      if distance == LIMIT_DEPTH {
        board.UnfoldValid();
        EvaluationBound(board.View());
        value := board.Evaluate();
        return;
      }
      if !noNull {
        var cut;
        cut, value := TryNull(alpha, beta, depth);
        if cut {
          return;
        }
      }
      var flag;
      ghost var from;
      value, flag, from := FullMoves(alpha, beta, depth, table);
    }

    /** The cached value of the side to move, which nullOkay and nullSafe ask for. */
    lemma OwnMaterial()
      requires Ready()
      ensures board.cur.value == Material(board.View().cells, board.View().side)
    {
      hide InCheck, WellPlaced, CellsOf, Material;
      board.CachesNow();
    }

    /** A position after a null move repeats nothing. */
    lemma PassedFresh(k: KeyTable, g: Game)
      ensures RepetitionOf(k, Passed(k, g)) == 0
    {
      hide Hash;
    }

    /** Null-move pruning, with the verification search of the same node when material is low. */
    method TryNull(alpha: int, beta: int, depth: int) returns (cut: bool, value: int)
      requires Ready() && SlotsOnBoard() && 0 < depth <= LIMIT_DEPTH && alpha < beta && distance < LIMIT_DEPTH
      modifies this`distance, this`allNodes, this`history, this`killers, this`overran
      modifies board`cur, board`zobrist, board`hist, board`trail
      modifies board.grid, board.men`show, board.men`pos, board.red`value, board.black`value
      ensures Ready() && SlotsOnBoard() && board.Whole() == old(board.Whole()) && distance == old(distance)
      ensures Reachable(value, distance) && (cut ==> value >= beta)
      ensures cut ==> ByNull(board.keys, old(board.View()), distance, depth, beta, value)
      ensures !cut ==> NoNull(board.keys, old(board.View()), distance, depth, beta)
      ensures cut && depth > 3 && MateValue(distance + 1) <= -beta ==>
                NodeValue(board.keys, Passed(board.keys, old(board.View())), items(old(allNodes) + 1), distance + 1,
                          depth - 3, -beta, 1 - beta, true, -value)
      ensures TablesKept(old(overran), old(killers), old(history), depth) && allNodes >= old(allNodes)
      decreases LIMIT_DEPTH - distance, depth, 0
    {
      hide InCheck, WellPlaced, CellsOf, Board.Valid, Board.Whole, Board.View, Board.Sound, Tables, SlotsOnBoard;
      hide Quiet, Passed, Material, RepetitionOf, RepetitionValue, NodeValue;
      PassedFresh(board.keys, board.View());
      ghost var s := board.Whole();
      cut, value := false, 0;
      OwnMaterial();
      var check := SelfInCheck();
      if !check && board.cur.value > NULL_OKAY_MARGIN {
        DoNullMove(s);
        value := SearchFull(-beta, 1 - beta, depth - NULL_DEPTH - 1, true);
        value := -value;
        UndoNullMove(s);
        OwnMaterial();
        if value >= beta {
          cut := board.cur.value > NULL_SAFE_MARGIN;
          if !cut {
            var verified := SearchFull(alpha, beta, depth - NULL_DEPTH, true);
            cut := verified >= beta;
          }
        }
      }
    }

    /** The moves of searchFull: principal-variation search with the check extension. */
    method FullMoves(alpha: int, beta: int, depth: int, table: Move)
      returns (best: int, flag: Bound, ghost from: Move)
      requires Ready() && SlotsOnBoard() && 0 < depth <= LIMIT_DEPTH && alpha < beta && distance < LIMIT_DEPTH
      requires table == 0 || Tryable(board.View(), table)
      modifies this`distance, this`allNodes, this`history, this`killers, this`overran
      modifies board`cur, board`zobrist, board`hist, board`trail
      modifies board.grid, board.men`show, board.men`pos, board.red`value, board.black`value
      ensures Ready() && SlotsOnBoard() && board.Whole() == old(board.Whole()) && distance == old(distance)
      ensures MateValue(distance) <= best <= 9999 - distance
      ensures ByMoves(board.keys, old(board.View()), distance, depth, alpha, beta, table, best, from)
      ensures best != MateValue(distance) ==> flag == FlagFor(best, alpha, beta)
      ensures best != MateValue(distance) && best > alpha ==> Credited(old(history), from, depth)
      ensures TablesKept(old(overran), old(killers), old(history), depth) && allNodes >= old(allNodes)
      decreases LIMIT_DEPTH - distance, depth, 0
    {
      hide Tryable, InCheck, WellPlaced, CellsOf, Pseudo, Safe, Board.Valid, Board.Whole, Board.View, Board.Sound;
      hide Tables;
      hide SlotsOnBoard, Tried, Covered, Picking, Sorter.Valid, IsGenerated, Scored, Answers, Direct, Worth;
      hide ByMoves, FlagFor;
      var sorter := new Sorter(this, table);
      var bestMove;
      best, bestMove, flag, from := MoveLoop(sorter, alpha, beta, depth);
      if best == -MATE_VALUE {
        best := MateValue(distance);
        return;
      }
      StoredBound(best, distance);
      if bestMove > 0 {
        Remember(bestMove, depth);
      }
    }

    /** The loop of searchFull over the moves the picker gives; -10000 stands for no move. */
    method MoveLoop(sorter: Sorter, alpha: int, beta: int, depth: int)
      returns (best: int, bestMove: Move, flag: Bound, ghost from: Move)
      requires Ready() && SlotsOnBoard() && 0 < depth <= LIMIT_DEPTH && alpha < beta && distance < LIMIT_DEPTH
      requires sorter.engine == this && sorter.Valid(board.View()) && sorter.given == []
      requires OnBoardSlot(sorter.killer1) && OnBoardSlot(sorter.killer2)
      requires sorter.table == 0 || Tryable(board.View(), sorter.table)
      modifies sorter, this`distance, this`allNodes, this`history, this`killers, this`overran
      modifies board`cur, board`zobrist, board`hist, board`trail
      modifies board.grid, board.men`show, board.men`pos, board.red`value, board.black`value
      ensures Ready() && SlotsOnBoard() && board.Whole() == old(board.Whole()) && distance == old(distance)
      ensures best == -MATE_VALUE || Reachable(best, distance)
      ensures ByMoves(board.keys, old(board.View()), distance, depth, alpha, beta, sorter.table,
                      if best == -MATE_VALUE then MateValue(distance) else best, from)
      ensures best != -MATE_VALUE ==> flag == FlagFor(best, alpha, beta) && from > 0
      ensures best != -MATE_VALUE ==> bestMove == if best > alpha then from else 0
      ensures TablesKept(old(overran), old(killers), old(history), depth) && allNodes >= old(allNodes)
      decreases LIMIT_DEPTH - distance, 0, 1
    {
      hide Tryable, InCheck, WellPlaced, CellsOf, Pseudo, Safe, Board.Valid, Board.Whole, Board.View, Board.Sound;
      hide Tables;
      hide SlotsOnBoard, Tried, Covered, Picking, Sorter.Valid, IsGenerated, Scored, Answers, Direct, Worth;
      ghost var s, k, d := board.Whole(), board.keys, distance;
      var a := alpha;
      best, bestMove, flag, from := -MATE_VALUE, 0, UpperBound, 0;
      ghost var tried: seq<Move> := [];
      ScoredStart(k, s.view, d, depth, alpha);
      var mv := sorter.NextMove();
      while mv > 0
        invariant Ready() && SlotsOnBoard() && distance == d && board.Whole() == s && a < beta
        invariant sorter.Valid(s.view)
        invariant if mv > 0 then sorter.given == tried + [mv] else sorter.given == tried && Covered(s.view, tried)
        invariant best == -MATE_VALUE || (Reachable(best, distance) && best < beta && Tried(s.view, sorter.table, from))
        invariant Scored(k, s.view, d, depth, tried, alpha, a, best, from)
        invariant a == if best == -MATE_VALUE then alpha else Max(alpha, best)
        invariant flag == if best == -MATE_VALUE then UpperBound else FlagFor(best, alpha, beta)
        invariant best != -MATE_VALUE ==> from > 0
        invariant bestMove == if best != -MATE_VALUE && best > alpha then from else 0
        invariant TablesKept(old(overran), old(killers), old(history), depth) && allNodes >= old(allNodes)
        decreases mv > 0, 4 - sorter.stage.Rank(), |sorter.mvs| - sorter.idx
      {
        assert mv in sorter.given;
        sorter.GivenCanBeTried(s.view, mv);
        var ok, value := SearchMove(mv, a, beta, depth, best == -MATE_VALUE, s);
        ScoredStep(k, s.view, d, depth, tried, mv, alpha, a, best, from, beta, ok, value);
        tried := tried + [mv];
        if ok && value > best {
          best, from := value, mv;
          if value >= beta {
            bestMove, flag := mv, LowerBound;
            break;
          }
          if value > a {
            a := value;
            bestMove, flag := mv, Exact;
          }
        }
        mv := sorter.NextMove();
      }
      if best == -MATE_VALUE || best < beta {
        ScoredAll(k, s.view, d, depth, tried, alpha, a, best, from);
      }
    }

    lemma ScoredStart(k: KeyTable, g: Game, d: nat, depth: int, alpha: int)
      requires d < LIMIT_DEPTH
      ensures Scored(k, g, d, depth, [], alpha, alpha, -MATE_VALUE, 0)
    {
    }

    /** After all wanted moves. */
    lemma ScoredAll(k: KeyTable, g: Game, d: nat, depth: int, tried: seq<Move>, alpha0: int, alpha: int, best: int,
                    from: Move)
      requires d < LIMIT_DEPTH && Scored(k, g, d, depth, tried, alpha0, alpha, best, from) && Covered(g, tried)
      ensures best == -MATE_VALUE ==> forall m: Move :: !Wanted(g, m)
      ensures best != -MATE_VALUE ==> Safe(g, from)
      ensures forall m: Move :: Wanted(g, m) && Direct(k, g, m, depth) ==> Worth(k, g, d, m) <= best
      ensures best != -MATE_VALUE && best > alpha0 && Direct(k, g, from, depth) ==> Worth(k, g, d, from) == best
    {
      hide Safe, IsGenerated, Direct, Worth;
    }

    method Remember(mv: Move, depth: int)
      requires Ready() && SlotsOnBoard() && 0 <= depth <= LIMIT_DEPTH
      modifies this`history, this`killers, this`overran
      ensures Ready() && SlotsOnBoard() && board.Whole() == old(board.Whole())
      ensures TablesKept(old(overran), old(killers), old(history), depth) && (depth == LIMIT_DEPTH ==> overran)
      ensures Credited(old(history), mv, depth)
    {
      hide InCheck, WellPlaced, CellsOf, Board.Valid, Board.Whole, Board.View;
      assert depth * depth >= 0;
      SetBestMove(mv, depth);
    }

    /** The position after mv, searched from the other side: in the window turned round, with the answer's
        sign changed. */
    method SearchChild(alpha: int, beta: int, newDepth: int, noNull: bool, ghost g: Game, ghost mv: Move,
                       ghost depth: int)
      returns (value: int)
      requires Ready() && SlotsOnBoard() && newDepth <= depth <= LIMIT_DEPTH && alpha < beta && distance > 0
      requires board.View() == Played(board.keys, g, mv)
      requires newDepth == if InCheck(board.View(), board.View().side) then depth else depth - 1
      modifies this`distance, this`allNodes, this`history, this`killers, this`overran
      modifies board`cur, board`zobrist, board`hist, board`trail
      modifies board.grid, board.men`show, board.men`pos, board.red`value, board.black`value
      ensures Ready() && SlotsOnBoard() && board.Whole() == old(board.Whole()) && distance == old(distance)
      ensures Reachable(value, distance - 1)
      ensures Answers(board.keys, g, distance - 1, mv, depth, alpha, beta, value)
      ensures TablesKept(old(overran), old(killers), old(history), depth) && allNodes > old(allNodes)
      decreases LIMIT_DEPTH - distance, if newDepth > 0 then newDepth else 0, 4
    {
      hide InCheck, WellPlaced, CellsOf, Played, FailSoft, Quiet, RepetitionOf, RepetitionValue, Answers;
      hide Board.Valid, Board.Whole, Board.View, Tables, SlotsOnBoard;
      value := SearchFull(-beta, -alpha, newDepth, noNull);
      ChildAnswers(board.keys, g, distance - 1, mv, depth, newDepth, alpha, beta, value);
      value := -value;
    }

    /** The windows of searchFull: a full one for the first move, a null window for the others and a full one
        again if that fails inside. At the root, where beta is 10000, full windows forbid the null move. */
    method SearchWindows(alpha: int, beta: int, newDepth: int, first: bool, noNull: bool, ghost g: Game,
                         ghost mv: Move, ghost depth: int)
      returns (value: int)
      requires Ready() && SlotsOnBoard() && newDepth <= depth <= LIMIT_DEPTH && alpha < beta && distance > 0
      requires board.View() == Played(board.keys, g, mv)
      requires newDepth == if InCheck(board.View(), board.View().side) then depth else depth - 1
      modifies this`distance, this`allNodes, this`history, this`killers, this`overran
      modifies board`cur, board`zobrist, board`hist, board`trail
      modifies board.grid, board.men`show, board.men`pos, board.red`value, board.black`value
      ensures Ready() && SlotsOnBoard() && board.Whole() == old(board.Whole()) && distance == old(distance)
      ensures Reachable(value, distance - 1)
      ensures Answers(board.keys, g, distance - 1, mv, depth, alpha, beta, value)
      ensures TablesKept(old(overran), old(killers), old(history), depth) && allNodes > old(allNodes)
      decreases LIMIT_DEPTH - distance, if newDepth > 0 then newDepth else 0, 5
    {
      hide InCheck, WellPlaced, CellsOf, Played, FailSoft, Quiet, RepetitionOf, RepetitionValue, Answers;
      hide Board.Valid, Board.Whole, Board.View, Tables, SlotsOnBoard;
      if first {
        value := SearchChild(alpha, beta, newDepth, noNull, g, mv, depth);
      } else {
        value := SearchChild(alpha, alpha + 1, newDepth, false, g, mv, depth);
        if alpha < value < beta {
          value := SearchChild(alpha, beta, newDepth, noNull, g, mv, depth);
        } else {
          NullWindow(board.keys, g, distance - 1, mv, depth, alpha, beta, value);
        }
      }
    }

    /** One move of searchFull, extended if it gives check. */
    method SearchMove(mv: Move, alpha: int, beta: int, depth: int, first: bool, ghost s: State)
      returns (ok: bool, value: int)
      requires Ready() && SlotsOnBoard() && 0 < depth <= LIMIT_DEPTH && alpha < beta && distance < LIMIT_DEPTH
      requires s == board.Whole() && Tryable(s.view, mv)
      modifies this`distance, this`allNodes, this`history, this`killers, this`overran
      modifies board`cur, board`zobrist, board`hist, board`trail
      modifies board.grid, board.men`show, board.men`pos, board.red`value, board.black`value
      ensures Ready() && SlotsOnBoard() && board.Whole() == s && distance == old(distance)
      ensures ok == Safe(s.view, mv) && Reachable(value, distance)
      ensures ok ==> Answers(board.keys, s.view, distance, mv, depth, alpha, beta, value)
      ensures TablesKept(old(overran), old(killers), old(history), depth) && allNodes >= old(allNodes)
      decreases LIMIT_DEPTH - distance, 0, 0
    {
      hide Tryable, InCheck, WellPlaced, CellsOf, Pseudo, Safe, Played, FailSoft, Quiet, RepetitionOf, RepetitionValue;
      hide Answers;
      hide Board.Valid, Board.Whole, Board.View, Board.Sound, Tables, SlotsOnBoard;
      value := 0;
      ok := TryMove(mv);
      if ok {
        var check := SelfInCheck();
        var newDepth := if check then depth else depth - 1;
        value := SearchWindows(alpha, beta, newDepth, first, false, s.view, mv, depth);
        TakeBack(s);
      }
    }

    /** searchRoot: the board is left as it was. The best move is a generated move that leaves the own
        king safe, and one is found exactly if there is one. The last step writes killer row depth,
        which is beyond the table exactly at depth 64. */
    method SearchRoot(depth: int) returns (best: int)
      requires Ready() && SlotsOnBoard() && distance == 0 && 0 < depth <= LIMIT_DEPTH
      modifies this, board`cur, board`zobrist, board`hist, board`trail
      modifies board.grid, board.men`show, board.men`pos, board.red`value, board.black`value
      ensures Ready() && SlotsOnBoard() && board.Whole() == old(board.Whole()) && distance == 0
      ensures if best == -MATE_VALUE then mvBest == old(mvBest) else Wanted(board.View(), mvBest)
      ensures best == -MATE_VALUE <==> forall m: Move :: !Wanted(board.View(), m)
      ensures forall m: Move :: Wanted(board.View(), m) && Direct(board.keys, board.View(), m, depth) ==>
                Worth(board.keys, board.View(), 0, m) <= best
      ensures best != -MATE_VALUE && Direct(board.keys, board.View(), mvBest, depth) ==>
                Worth(board.keys, board.View(), 0, mvBest) == best
      ensures Credited(old(history), mvBest, depth)
      ensures overran <==> old(overran) || depth == LIMIT_DEPTH
      ensures NoKillers(old(killers)) ==> NoKillers(killers)
    {
      hide Tryable, InCheck, WellPlaced, CellsOf, Pseudo, Safe, IsGenerated, Board.Valid, Board.Whole, Board.View;
      hide Tables;
      hide SlotsOnBoard, Scored, Answers, Direct, Worth;
      ghost var s, k := board.Whole(), board.keys;
      var mvs := HistoryMoves();
      best := -MATE_VALUE;
      ScoredStart(k, s.view, 0, depth, -MATE_VALUE);
      ghost var from: Move := 0;
      for i := 0 to |mvs|
        invariant Ready() && SlotsOnBoard() && distance == 0 && board.Whole() == s && -MATE_VALUE <= best < MATE_VALUE
        invariant if best == -MATE_VALUE then mvBest == old(mvBest) else mvBest == from
        invariant Scored(k, s.view, 0, depth, mvs[..i], -MATE_VALUE, best, best, from)
        invariant TablesKept(old(overran), old(killers), old(history), depth)
      {
        assert mvs[..i + 1] == mvs[..i] + [mvs[i]];
        GeneratedTries(s.view, mvs[i], false);
        var ok, value := SearchRootMove(mvs[i], best, depth, s);
        ScoredStep(k, s.view, 0, depth, mvs[..i], mvs[i], -MATE_VALUE, best, best, from, MATE_VALUE, ok, value);
        if ok && value > best {
          best, from := value, mvs[i];
          SetBest(mvs[i]);
        }
      }
      assert mvs[..|mvs|] == mvs;
      ListedCovers(s.view, mvs);
      ScoredAll(k, s.view, 0, depth, mvs, -MATE_VALUE, best, best, from);
      ScoredFrom(k, s.view, 0, depth, mvs, -MATE_VALUE, best, best, from);
      Remember(mvBest, depth);
    }

    lemma ListedCovers(g: Game, mvs: seq<Move>)
      requires Listed(g, mvs)
      ensures Covered(g, mvs)
    {
      hide Safe, IsGenerated;
    }

    lemma ScoredFrom(k: KeyTable, g: Game, d: nat, depth: int, mvs: seq<Move>, alpha0: int, alpha: int, best: int,
                     from: Move)
      requires d < LIMIT_DEPTH && Scored(k, g, d, depth, mvs, alpha0, alpha, best, from) && Listed(g, mvs)
      ensures best != -MATE_VALUE ==> Wanted(g, from)
    {
      hide Safe, IsGenerated, Direct, Worth;
    }

    /** The tables are cleared, the best move of the last search is not. */
    method Reset()
      modifies this`distance, this`allNodes, this`history, this`killers, this`overran
      ensures Tables() && SlotsOnBoard() && NoKillers(killers) && distance == 0 && allNodes == 0 && !overran
      ensures forall m :: 0 <= m < HISTORY_TABLE_SIZE ==> history[m] == 0
    {
      distance, allNodes, overran := 0, 0, false;
      history := seq(HISTORY_TABLE_SIZE, _ => 0);
      killers := seq(LIMIT_DEPTH, _ => Killers(0, 0));
    }

    /** search without a book hit: one depth after the other until the clock, a decided game or depth
        64 ends it, so only the last value can be one of a decided game. Whenever it stops,
          the move is a generated one that leaves the own king safe, if
        there is one. Each depth below 64 stays inside the killer table; the search leaves it exactly
        if depth 64 is reached. All killer slots are as empty after the search as after reset. Whatever the
        table held: if the move found is direct at the last depth, it is worth as much as any direct move.
        So a search stopped after depth 1, in a position where no move gives check, returns a move of the
        greatest quiet worth; and at any depth a move into a repetition is never preferred to another one
        that is worth more. */
    method Search() returns (mv: Move, depth: int, ghost values: seq<int>)
      requires board.Valid() && Legal(board.View()) && |board.hist| + LIMIT_DEPTH <= HISTORY_SIZE
      modifies this, board`cur, board`zobrist, board`hist, board`trail
      modifies board.grid, board.men`show, board.men`pos, board.red`value, board.black`value
      ensures Ready() && board.Whole() == old(board.Whole()) && distance == 0
      ensures (exists m: Move :: Wanted(board.View(), m)) ==> Wanted(board.View(), mv)
      ensures (forall m: Move :: !Wanted(board.View(), m)) ==> mv == old(mvBest) && depth == 1
      ensures 1 <= depth <= 64 && (overran <==> depth == 64) && NoKillers(killers)
      ensures |values| == depth && forall i :: 0 <= i < depth - 1 ==> -9800 <= values[i] <= 9800
      ensures Wanted(board.View(), mv) && Direct(board.keys, board.View(), mv, depth) ==>
                && Worth(board.keys, board.View(), 0, mv) == values[depth - 1]
                && forall m: Move :: Wanted(board.View(), m) && Direct(board.keys, board.View(), m, depth) ==>
                     Worth(board.keys, board.View(), 0, m) <= values[depth - 1]
    {
      hide InCheck, WellPlaced, CellsOf, Safe, IsGenerated, Board.Valid, Board.Whole, Board.View, Tables, SlotsOnBoard;
      hide Direct, Worth;
      ghost var s := board.Whole();
      Reset();
      depth := 1;
      var value := SearchRoot(depth);
      values := [value];
      while depth < LIMIT_DEPTH && -WIN_VALUE <= value <= WIN_VALUE
        invariant Ready() && SlotsOnBoard() && board.Whole() == s && distance == 0 && 1 <= depth <= LIMIT_DEPTH
        invariant if value == -MATE_VALUE then mvBest == old(mvBest) && depth == 1 else Wanted(s.view, mvBest)
        invariant value == -MATE_VALUE <==> forall m: Move :: !Wanted(s.view, m)
        invariant forall m: Move :: Wanted(s.view, m) && Direct(board.keys, s.view, m, depth) ==>
                    Worth(board.keys, s.view, 0, m) <= value
        invariant value != -MATE_VALUE && Direct(board.keys, s.view, mvBest, depth) ==>
                    Worth(board.keys, s.view, 0, mvBest) == value
        invariant (overran <==> depth == LIMIT_DEPTH) && NoKillers(killers)
        invariant |values| == depth && values[depth - 1] == value
        invariant forall i :: 0 <= i < depth - 1 ==> -WIN_VALUE <= values[i] <= WIN_VALUE
      {
        var timeUp: bool := *;
        if timeUp {
          break;
        }
        depth := depth + 1;
        value := SearchRoot(depth);
        values := values + [value];
      }
      mv := mvBest;
    }

    method SetBest(mv: Move)
      requires Ready()
      modifies this`mvBest
      ensures mvBest == mv && Ready() && board.Whole() == old(board.Whole())
    {
      hide InCheck, WellPlaced, CellsOf, Board.Valid, Board.Whole, Board.View, Tables;
      mvBest := mv;
    }

    /** One move of searchRoot, searched against the best value so far without an upper bound. */
    method SearchRootMove(mv: Move, best: int, depth: int, ghost s: State) returns (ok: bool, value: int)
      requires Ready() && SlotsOnBoard() && 0 < depth <= LIMIT_DEPTH && distance == 0
        && -MATE_VALUE <= best < MATE_VALUE
      requires s == board.Whole() && Tryable(s.view, mv)
      modifies this`distance, this`allNodes, this`history, this`killers, this`overran
      modifies board`cur, board`zobrist, board`hist, board`trail
      modifies board.grid, board.men`show, board.men`pos, board.red`value, board.black`value
      ensures Ready() && SlotsOnBoard() && board.Whole() == s && distance == 0
      ensures ok == Safe(s.view, mv) && Reachable(value, 0)
      ensures ok ==> Answers(board.keys, s.view, 0, mv, depth, best, MATE_VALUE, value)
      ensures TablesKept(old(overran), old(killers), old(history), depth)
    {
      hide Tryable, InCheck, WellPlaced, CellsOf, Pseudo, Safe, Played, FailSoft, Quiet, RepetitionOf, RepetitionValue;
      hide Answers;
      hide Board.Valid, Board.Whole, Board.View, Board.Sound, Tables, SlotsOnBoard;
      value := 0;
      ok := TryMove(mv);
      if ok {
        var check := SelfInCheck();
        var newDepth := if check then depth else depth - 1;
        value := SearchWindows(best, MATE_VALUE, newDepth, best == -MATE_VALUE, true, s.view, mv, depth);
        TakeBack(s);
      }
    }

    /** Calling next_move until 0, for any table move and any killer slots, in check or not: no move
        comes twice, and every generated move that leaves the own king safe comes. */
    method PickAll(table: Move) returns (given: seq<Move>)
      requires Ready() && distance < LIMIT_DEPTH
      modifies board`zobrist, board`hist, board`trail, board.grid, board.men`show, board.men`pos
      modifies board.red`value, board.black`value
      ensures Ready() && board.Whole() == old(board.Whole())
      ensures Distinct(given) && Covered(old(board.View()), given)
      ensures forall mv :: mv in given ==>
                || mv == table || LegalMove(old(board.View()), mv) || IsGenerated(old(board.View()), mv, false)
                || !InBoard(End(mv))
    {
      hide InCheck, WellPlaced, CellsOf, Pseudo, Safe, Board.Valid, Board.Whole, Board.View, Board.Sound, Tables;
      hide Covered;
      hide IsGenerated, LegalMove;
      ghost var s := board.Whole();
      var sorter := new Sorter(this, table);
      given := [];
      var mv := sorter.NextMove();
      while mv != 0
        invariant Ready() && distance == old(distance) && board.Whole() == s && sorter.Valid(s.view)
        invariant if mv != 0 then sorter.given == given + [mv] else sorter.given == given && Covered(s.view, given)
        decreases mv != 0, 4 - sorter.stage.Rank(), |sorter.mvs| - sorter.idx
      {
        given := given + [mv];
        mv := sorter.NextMove();
      }
    }
  }

  /** The staged move picker of one node. */
  class Sorter {
    const engine: SearchEngine
    const table: Move
    var stage: Stage
    var mvs: seq<Move>
    var idx: nat
    const killer1: Move
    const killer2: Move
    ghost var given: seq<Move>

    ghost predicate Valid(g: Game)
      reads this
    {
      && Picking(g, Hints(table, killer1, killer2), stage, mvs, idx, given)
      && (stage == Table ==> given == []) && (stage != Rest ==> idx == 0)
    }

    /** moves_generate_sorter_init: in check the hints count only if they were generated. */
    constructor (engine: SearchEngine, table: Move)
      requires engine.Ready() && engine.distance < LIMIT_DEPTH
      ensures this.engine == engine && this.table == table && given == [] && Valid(engine.board.View())
      ensures engine.SlotsOnBoard() ==> OnBoardSlot(killer1) && OnBoardSlot(killer2)
    {
      hide InCheck, WellPlaced, IsGenerated, Safe, CellsOf, Board.Valid, Board.View;
      var check := engine.SelfInCheck();
      var k1, k2 := engine.KillerAt(0), engine.KillerAt(1);
      var at, list := Table, [];
      if check {
        list := engine.HistoryMoves();
        at := Rest;
        if k2 != 0 && k2 in list {
          at := Killer2;
        } else {
          k2 := 0;
        }
        if k1 != 0 && k1 in list {
          at := Killer1;
        } else if !(table != 0 && table in list) {
          k1 := 0; // the first killer also stays when only the table move was generated
        }
        if table != 0 && table in list {
          at := Table;
        }
      }
      this.engine, this.table := engine, table;
      stage, mvs, idx, killer1, killer2, given := at, list, 0, k1, k2, [];
    }

    /** STATE_TT. */
    method GiveTable(ghost g: Game) returns (mv: Move)
      requires Valid(g) && stage == Table
      modifies this
      ensures Valid(g) && stage == Killer1 && mv == table
      ensures given == if mv != 0 then old(given) + [mv] else old(given)
    {
      hide Picking;
      GivesTable(g, Hints(table, killer1, killer2), mvs, idx);
      stage := Killer1;
      mv := table;
      if mv != 0 {
        given := [table];
      }
    }

    /** STATE_KILLER1. */
    method GiveKiller1() returns (mv: Move)
      requires engine.Ready() && engine.distance < LIMIT_DEPTH && Valid(engine.board.View()) && stage == Killer1
      modifies this`stage, this`given, engine.board`zobrist, engine.board`hist, engine.board`trail
      modifies engine.board.grid, engine.board.men`show, engine.board.men`pos
      modifies engine.board.red`value, engine.board.black`value
      ensures engine.Ready() && engine.board.Whole() == old(engine.board.Whole()) && Valid(engine.board.View())
      ensures stage == Killer2 && given == if mv != 0 then old(given) + [mv] else old(given)
    {
      hide Picking, WellPlaced, InCheck, LegalMove, CellsOf, Board.Valid, Board.View, Board.Whole, SearchEngine.Tables;
      ghost var g := engine.board.View();
      var legal := false;
      mv := 0;
      if killer1 != 0 && killer1 != table {
        legal := engine.TryKiller(killer1);
      }
      GivesKiller1(g, Hints(table, killer1, killer2), mvs, idx, given, legal);
      if legal {
        mv := killer1;
      }
      PassStage(Killer2, mv);
    }

    /** STATE_KILLER2. */
    method GiveKiller2() returns (mv: Move)
      requires engine.Ready() && engine.distance < LIMIT_DEPTH && Valid(engine.board.View()) && stage == Killer2
      modifies this`stage, this`given, engine.board`zobrist, engine.board`hist, engine.board`trail
      modifies engine.board.grid, engine.board.men`show, engine.board.men`pos
      modifies engine.board.red`value, engine.board.black`value
      ensures engine.Ready() && engine.board.Whole() == old(engine.board.Whole()) && Valid(engine.board.View())
      ensures stage == Generate && given == if mv != 0 then old(given) + [mv] else old(given)
    {
      hide Picking, WellPlaced, InCheck, LegalMove, CellsOf, Board.Valid, Board.View, Board.Whole, SearchEngine.Tables;
      ghost var g := engine.board.View();
      var legal := false;
      mv := 0;
      if killer2 != 0 && killer2 != table && killer2 != killer1 {
        legal := engine.TryKiller(killer2);
      }
      GivesKiller2(g, Hints(table, killer1, killer2), mvs, idx, given, legal);
      if legal {
        mv := killer2;
      }
      PassStage(Generate, mv);
    }

    method PassStage(next: Stage, mv: Move)
      modifies this`stage, this`given
      ensures stage == next && given == if mv != 0 then old(given) + [mv] else old(given)
    {
      stage := next;
      if mv != 0 {
        given := given + [mv];
      }
    }

    /** STATE_GENE. */
    method GenerateRest()
      requires engine.Ready() && Valid(engine.board.View()) && stage == Generate
      modifies this`stage, this`mvs
      ensures Valid(engine.board.View()) && stage == Rest && engine.Ready()
    {
      hide Wanted, WellPlaced, InCheck, IsGenerated, CellsOf, Board.Valid, Board.View, SearchEngine.Tables;
      var list := engine.HistoryMoves();
      stage, mvs := Rest, list;
    }

    /** STATE_REST: the next listed move that is none of the three hints. */
    method GiveRest(ghost g: Game) returns (mv: Move)
      requires Valid(g) && stage == Rest
      modifies this`idx, this`given
      ensures Valid(g)
      ensures mv != 0 ==> given == old(given) + [mv] && old(idx) < idx <= |mvs|
      ensures mv == 0 ==> given == old(given) && Covered(g, given)
    {
      hide Wanted, Picking;
      mv := 0;
      RestInRange(g);
      while idx < |mvs|
        invariant Valid(g) && old(idx) <= idx <= |mvs| && given == old(given)
      {
        GivesRest(g, Hints(table, killer1, killer2), mvs, idx, given);
        mv := mvs[idx];
        idx := idx + 1;
        if mv != table && mv != killer1 && mv != killer2 {
          given := given + [mv];
          return;
        }
      }
      RestCovers(g, Hints(table, killer1, killer2), mvs, given);
      mv := 0;
    }

    lemma RestInRange(g: Game)
      requires Valid(g) && stage == Rest
      ensures idx <= |mvs|
    {
    }

    lemma GivenCanBeTried(g: Game, mv: Move)
      requires Valid(g) && mv in given && Legal(g) && (table == 0 || Tryable(g, table))
      requires OnBoardSlot(killer1) && OnBoardSlot(killer2)
      ensures mv != 0 ==> Tried(g, table, mv) && Tryable(g, mv)
    {
      hide Picking, WellPlaced, Pseudo, Tryable, InCheck;
      GivenPseudo(g, Hints(table, killer1, killer2), stage, mvs, idx, given, mv);
      if mv != table {
        PseudoTryable(g, mv);
      }
    }

    /** moves_generate_sorter_next_move: a move not given before, or 0 when every wanted move was given. */
    method NextMove() returns (mv: Move)
      requires engine.Ready() && engine.distance < LIMIT_DEPTH && Valid(engine.board.View())
      modifies this, engine.board`zobrist, engine.board`hist, engine.board`trail
      modifies engine.board.grid, engine.board.men`show, engine.board.men`pos
      modifies engine.board.red`value, engine.board.black`value
      ensures engine.Ready() && engine.board.Whole() == old(engine.board.Whole()) && Valid(engine.board.View())
      ensures mv != 0 ==> given == old(given) + [mv]
      ensures old(stage) == Table && table != 0 ==> mv == table
      ensures mv != 0 ==>
        old(stage.Rank()) < stage.Rank() || (mvs == old(mvs) && stage == old(stage) && old(idx) < idx <= |mvs|)
      ensures mv == 0 ==> given == old(given) && Covered(engine.board.View(), given)
    {
      hide InCheck, WellPlaced, CellsOf, Picking, Covered, Board.Valid, Board.View, Board.Whole, SearchEngine.Tables;
      mv := 0;
      if stage == Table {
        mv := GiveTable(engine.board.View());
      }
      if mv == 0 && stage == Killer1 {
        mv := GiveKiller1();
      }
      if mv == 0 && stage == Killer2 {
        mv := GiveKiller2();
      }
      if mv == 0 && stage == Generate {
        GenerateRest();
      }
      if mv == 0 {
        mv := GiveRest(engine.board.View());
      }
    }
  }
}
