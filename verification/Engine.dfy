/** The engine put together: a new board, a run of operations or a search on it, and the search with
    the opening book in front (cchess_engine/search_engine.cc, board.h). */
module Engine {
  import opened Geometry
  import opened Pieces
  import opened Rules
  import opened Play
  import opened Mirror
  import opened Snapshots
  import opened Boards
  import opened Fen
  import opened StartPosition
  import opened Picker
  import opened Quiescence
  import opened Search
  import Book
  import History

  // ---- From a new board ----

  /** Any run of operations from the start position of a new board. */
  method PlayFromStart(k: KeyTable, bounded: bool, ops: seq<Operation>) returns (b: Board)
    ensures b.Valid() && b.keys == k && b.zobrist == Hash(k, b.Cells(), b.cur.side)
    ensures b.red.value == Material(b.Cells(), Red) && b.black.value == Material(b.Cells(), Black)
    ensures b.At() == AllDone(k, bounded, Position(StartGame(), []), ops)
  {
    hide Board.Valid, Board.Struct, Board.Kings, Legal, StartGame, AllDone, Board.View, Board.At;
    b := new Board(k, bounded);
    b.Reset();
    b.NoPast();
    b.RunOperations(ops);
  }

  /** Any run of operations from a loaded text in which each side has one king. */
  method PlayFromText(k: KeyTable, bounded: bool, fen: string, ops: seq<Operation>) returns (b: Board, ok: bool)
    requires Loadable(fen)
    ensures ok ==> b.Valid() && b.zobrist == Hash(k, b.Cells(), b.cur.side)
    ensures ok ==> b.red.value == Material(b.Cells(), Red) && b.black.value == Material(b.Cells(), Black)
    ensures var c := LoadAll(fen).cells; ok <==>
      HasKing(c, Red) && OneKing(c, Red) && HasKing(c, Black) && OneKing(c, Black)
    ensures !ok ==> b.Struct() && b.Cells() == LoadAll(fen).cells
  {
    hide Board.Valid, Board.Struct, Board.Kings, Loadable, LoadAll, HasKing, OneKing;
    b := new Board(k, bounded);
    b.ResetFromFen(fen);
    StructLength(b);
    var c := b.Cells();
    ok := HasKing(c, Red) && OneKing(c, Red) && HasKing(c, Black) && OneKing(c, Black);
    if ok {
      b.RunOperations(ops);
    }
  }

  lemma StructLength(b: Board)
    requires b.Struct()
    ensures b.grid.Length == 256
  {
  }

  /** A search from the start position of a new board finds a generated move that leaves the own king
      safe, whenever the clock stops it. */
  method SearchFromStart(k: KeyTable, bounded: bool, items: nat -> Item) returns (mv: Move)
    ensures IsGenerated(StartGame(), mv, false) && Safe(StartGame(), mv)
  {
    hide Board.Valid, Board.Struct, Board.Kings, Board.Whole, SearchEngine.Ready, Legal, IsGenerated, Safe, StartCells;
    var b := new Board(k, bounded);
    b.Reset();
    var engine := new SearchEngine(b, items);
    StartMove();
    assert Wanted(b.View(), Pack(147, 131));
    var depth;
    ghost var values;
    mv, depth, values := engine.Search();
  }

  /** The engine's history has the slots that read back as a plain stack. */
  lemma OwnSlots()
    ensures HISTORY_SIZE == 2048 && History.INITIAL_SIZE == 2048
  {
  }

  // ---- The book in front ----

  /** The word can be made on the board and both check tests after it are defined. */
  predicate Testable(g: Game, mv: int) {
    0 <= mv < 65536 && InBoard(End(mv)) && Determined(Shifted(g, mv), Red) && Determined(Shifted(g, mv), Black)
  }

  /** What the book may answer for g: a word listed for it, or the mirrored word of one listed for its
      mirror image. */
  ghost predicate Answer(k: KeyTable, items: seq<Book.Entry>, g: Game, mv: int) {
    var lock, mirrorLock := Book.LockOf(k, g.cells, g.side), Book.LockOf(k, MirrorCells(g.cells), g.side);
    if Book.Known(items, lock) then 0 <= mv < 65536 && Book.Lists(items, lock, mv)
    else exists m: Move :: Book.Lists(items, mirrorLock, m) && mv == MirrorMove(m)
  }

  lemma GeneratedTestable(g: Game, mv: int)
    requires Legal(g) && Book.Offers(g, mv)
    ensures mv != 0 && Testable(g, mv)
  {
    hide IsGenerated, Legal, Determined, WellPlaced;
    Book.OffersNonzero(g, mv);
    GeneratedTries(g, mv, false);
  }

  /** An answer of a book whose listed moves are generated in the positions they are listed for. */
  lemma HonestAnswer(k: KeyTable, items: seq<Book.Entry>, g: Game, mv: int)
    requires Legal(g) && Book.Honest(k, items, g) && Book.Honest(k, items, MirrorGame(g))
    requires Answer(k, items, g, mv)
    ensures Book.Offers(g, mv)
  {
    hide Book.LockOf, Book.Known, IsGenerated, WellPlaced;
    var lock, mirrorLock := Book.LockOf(k, g.cells, g.side), Book.LockOf(k, MirrorCells(g.cells), g.side);
    if !Book.Known(items, lock) {
      var m: Move :| Book.Lists(items, mirrorLock, m) && mv == MirrorMove(m);
      Book.MirrorOffers(g, m);
    }
  }

  /** The book branch of search: the answer is made on the board, kept as the result if it leaves the own
      king safe, and undone. */
  method BookTry(b: Board, book: Book.OpenBook, draw: nat) returns (mv: int, booked: bool)
    requires b.Valid() && Legal(b.View()) && b.HasSlot() && Book.Sorted(book.items)
    requires forall m :: Answer(b.keys, book.items, b.View(), m) && m != 0 ==> Testable(b.View(), m)
    modifies b`zobrist, b`hist, b`trail, b.grid, b.men`show, b.men`pos, b.red`value, b.black`value
    ensures b.Valid() && b.Whole() == old(b.Whole())
    ensures booked ==>
      mv != 0 && Answer(b.keys, book.items, b.View(), mv) && Testable(b.View(), mv) && Safe(b.View(), mv)
    ensures (exists m :: Answer(b.keys, book.items, b.View(), m))
            && (forall m :: Answer(b.keys, book.items, b.View(), m) ==>
              m != 0 && Testable(b.View(), m) && Safe(b.View(), m)) ==>
              booked
  {
    hide Board.Valid, Board.Whole, Board.Sound, Legal, Safe, Shifted, Determined, Hash, MirrorCells, Answer;
    hide Book.Known, Book.Lists;
    ghost var g := b.View();
    var lock := b.zobrist.lock2 as int;
    LockIs(b);
    b.UnfoldValid();
    var mirror := b.MirrorZobrist();
    mv := book.FindBestMove(lock, mirror.lock2 as int, draw);
    AnswerIs(b.keys, book.items, g, mv);
    booked := false;
    if mv != 0 {
      booked := TryWord(b, mv);
    }
  }

  /** Make a move, ask whether it leaves the own king safe, and undo it. */
  method TryWord(b: Board, mv: Move) returns (safe: bool)
    requires b.Valid() && b.HasSlot() && Testable(b.View(), mv)
    modifies b`zobrist, b`hist, b`trail, b.grid, b.men`show, b.men`pos, b.red`value, b.black`value
    ensures b.Valid() && b.Whole() == old(b.Whole()) && safe == Safe(b.View(), mv)
  {
    hide Board.Valid, Board.Whole, Board.Sound, Safe, Shifted, Determined;
    ghost var s := b.Whole();
    b.WholeSound();
    safe := b.LeavesKingSafe(mv);
    b.SameWhole(s);
  }

  lemma LockIs(b: Board)
    requires b.Valid()
    ensures b.zobrist == Hash(b.keys, b.View().cells, b.View().side) && b.View().cells == b.Cells()
    ensures b.View().side == b.cur.side
  {
    b.CachesNow();
  }

  /** What findBestMove returns is an answer, or 0 if there is none. */
  lemma AnswerIs(k: KeyTable, items: seq<Book.Entry>, g: Game, mv: int)
    requires var lock, mirrorLock := Book.LockOf(k, g.cells, g.side), Book.LockOf(k, MirrorCells(g.cells), g.side);
             && (Book.Known(items, lock) ==> 0 <= mv < 65536 && Book.Lists(items, lock, mv))
             && (!Book.Known(items, lock) && Book.Known(items, mirrorLock) ==>
                   exists m: Move :: Book.Lists(items, mirrorLock, m) && mv == MirrorMove(m))
             && (!Book.Known(items, lock) && !Book.Known(items, mirrorLock) ==> mv == 0)
    ensures Answer(k, items, g, mv) || (mv == 0 && forall m :: !Answer(k, items, g, m))
  {
    hide Book.LockOf;
  }

  /** search: a book hit that leaves the own king safe is played, generated or not; otherwise the search
      decides. So if some generated move leaves the own king safe, the move returned is such a one exactly
      if it is no book hit that is not generated; and if the moves listed for the position and for its
      mirror image are generated in them, it always is. */
  method BestMove(engine: SearchEngine, book: Book.OpenBook, draw: nat) returns (mv: int, booked: bool)
    requires engine.board.Valid() && Legal(engine.board.View())
    requires |engine.board.hist| + LIMIT_DEPTH <= HISTORY_SIZE && Book.Sorted(book.items)
    requires forall m :: Answer(engine.board.keys, book.items, engine.board.View(), m) && m != 0 ==>
               Testable(engine.board.View(), m)
    modifies engine, engine.board`cur, engine.board`zobrist, engine.board`hist, engine.board`trail
    modifies engine.board.grid, engine.board.men`show, engine.board.men`pos
    modifies engine.board.red`value, engine.board.black`value
    ensures engine.board.Valid() && engine.board.Whole() == old(engine.board.Whole())
    ensures booked ==> mv != 0 && Answer(engine.board.keys, book.items, engine.board.View(), mv)
                       && Testable(engine.board.View(), mv) && Safe(engine.board.View(), mv)
    ensures !booked ==> 0 <= mv < 65536
                        && ((exists m: Move :: Wanted(engine.board.View(), m)) ==> Wanted(engine.board.View(), mv))
    ensures (exists m: Move :: Wanted(engine.board.View(), m)) ==>
              (0 <= mv < 65536 && Wanted(engine.board.View(), mv) <==>
                (booked ==> Book.Offers(engine.board.View(), mv)))
    ensures Book.Honest(engine.board.keys, book.items, engine.board.View())
            && Book.Honest(engine.board.keys, book.items, MirrorGame(engine.board.View()))
            && (exists m: Move :: Wanted(engine.board.View(), m)) ==>
              0 <= mv < 65536 && Wanted(engine.board.View(), mv)
  {
    hide Board.Valid, Board.Whole, Legal, IsGenerated, Safe, Determined, Answer, Shifted, SearchEngine.Tables;
    hide Book.LockOf, Book.Known, Book.Lists, Book.Honest, Book.Sorted;
    ghost var g := engine.board.View();
    LegalKings(g);
    mv, booked := BookTry(engine.board, book, draw);
    if booked {
      if Book.Honest(engine.board.keys, book.items, g) && Book.Honest(engine.board.keys, book.items, MirrorGame(g)) {
        HonestAnswer(engine.board.keys, book.items, g, mv);
      }
    } else {
      var depth;
      ghost var values;
      mv, depth, values := engine.Search();
    }
  }

  lemma LegalKings(g: Game)
    requires Legal(g)
    ensures InBoard(g.rk) && InBoard(g.bk)
  {
    WellPlacedShaped(g);
  }

  /** A word that is no move at all, under the lock word of the start position: the tests let it pass,
      so the book branch plays it. */
  lemma CollisionPlayed(k: KeyTable, items: seq<Book.Entry>, mv: Move)
    requires mv == Pack(135, 136) && items == [Book.Entry(Book.LockOf(k, StartCells(), Red), mv)]
    ensures Book.Sorted(items) && mv != 0 && Answer(k, items, StartGame(), mv)
    ensures Testable(StartGame(), mv) && Safe(StartGame(), mv) && !IsGenerated(StartGame(), mv, false)
  {
    hide WellPlaced, Generated, Attack;
    PackUnpack(135, 136);
    StartLegal();
    StartKings();
    EmptyMiddle();
    assert items[0] == Book.Entry(Book.LockOf(k, StartCells(), Red), mv);
    assert Shifted(StartGame(), mv) == StartGame();
  }

  lemma EmptyMiddle()
    ensures StartCells()[135] == Empty && StartCells()[136] == Empty
    ensures StartCells()[136 := Empty] == StartCells()
  {
  }
}
