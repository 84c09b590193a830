/** The opening book: entries sorted by a lock word of the position's hash, looked up for the position
    and for its mirror image (cchess_engine/search_engine.h). */
module Book {
  import opened Geometry
  import opened Pieces
  import opened Rules
  import opened Play
  import opened Mirror

  datatype Entry = Entry(lock: int, mv: Move)

  /** The lock word of a position, as the number the book is sorted by. */
  function LockOf(k: KeyTable, c: Placement, side: Side): int { Hash(k, c, side).lock2 as int }

  ghost predicate Sorted(items: seq<Entry>) {
    forall i, j :: 0 <= i < j < |items| ==> items[i].lock <= items[j].lock
  }

  /** Some entry pairs the lock word with the move. */
  ghost predicate Lists(items: seq<Entry>, lock: int, mv: Move) {
    exists i :: 0 <= i < |items| && items[i] == Entry(lock, mv)
  }

  ghost predicate Known(items: seq<Entry>, lock: int) {
    exists i :: 0 <= i < |items| && items[i].lock == lock
  }

  /** Every move listed for the lock word of g is generated in g. */
  ghost predicate Honest(k: KeyTable, items: seq<Entry>, g: Game) {
    forall mv: Move :: Lists(items, LockOf(k, g.cells, g.side), mv) ==> IsGenerated(g, mv, false)
  }

  /** mv, which need not be a move, is a generated move of g. */
  ghost predicate Offers(g: Game, mv: int) {
    0 <= mv < 65536 && IsGenerated(g, mv, false)
  }

  /** Mirroring any move word, on the board or not: the mirrored word is generated in g exactly if the
      word itself is generated in the mirror image of g. */
  lemma MirrorOffers(g: Game, m: Move)
    requires WellPlaced(g)
    ensures Offers(g, MirrorMove(m)) <==> IsGenerated(MirrorGame(g), m, false)
  {
    hide IsGenerated, WellPlaced;
    WellPlacedShaped(g);
    MirrorShaped(g);
    if IsGenerated(MirrorGame(g), m, false) {
      MirrorIsGenerated(MirrorGame(g), m, false);
    }
    if Offers(g, MirrorMove(m)) {
      MirrorIsGenerated(g, MirrorMove(m), false);
      MirrorBack(m);
    }
  }

  /** A square whose mirror image is on the board is the mirror image of that image. */
  lemma MirrorPosBack(p: Square)
    ensures -1 <= MirrorPos(p) < 255
    ensures 0 <= MirrorPos(p) && InBoard(MirrorPos(p)) ==> MirrorPos(MirrorPos(p)) == p
  {
    Coordinates(p);
    var q := MirrorPos(p);
    assert q == 16 * Row(p) + 14 - Col(p);
    if 0 <= q {
      Coordinates(q);
      assert Col(p) < 15 ==> Row(q) == Row(p) && Col(q) == 14 - Col(p);
      assert Col(p) == 15 ==> Col(q) == 15;
    }
  }

  /** A word whose mirror image is a move on the board is the mirror image of that move. */
  lemma MirrorBack(m: Move)
    requires 0 <= MirrorMove(m) < 65536
    requires InBoard(Start(MirrorMove(m))) && InBoard(End(MirrorMove(m)))
    ensures MirrorMove(MirrorMove(m)) == m
  {
    hide MirrorPos;
    var a, b := MirrorPos(Start(m)), MirrorPos(End(m));
    MirrorPosBack(Start(m));
    MirrorPosBack(End(m));
    BothBytes(a, b);
    UnpackPack(m);
  }

  lemma BothBytes(a: int, b: int)
    requires -1 <= a < 255 && -1 <= b < 255 && 0 <= a + b * 256 < 65536 && InBoard(Start(a + b * 256))
    ensures 0 <= a && 0 <= b && Start(a + b * 256) == a && End(a + b * 256) == b
  {
    if a >= 0 {
      PackUnpack(a, b);
    }
  }

  class OpenBook {
    var items: seq<Entry>

    constructor (items: seq<Entry>)
      ensures this.items == items
    {
      this.items := items;
    }

    /** std::lower_bound: the first entry whose lock word is not below the given one. */
    method LowerBound(lock: int) returns (at: nat)
      requires Sorted(items)
      ensures at <= |items|
      ensures forall i :: 0 <= i < at ==> items[i].lock < lock
      ensures forall i :: at <= i < |items| ==> lock <= items[i].lock
    {
      var lo, hi := 0, |items|;
      while lo < hi
        invariant 0 <= lo <= hi <= |items|
        invariant forall i :: 0 <= i < lo ==> items[i].lock < lock
        invariant forall i :: hi <= i < |items| ==> lock <= items[i].lock
      {
        var mid := (lo + hi) / 2;
        if items[mid].lock < lock {
          lo := mid + 1;
        } else {
          hi := mid;
        }
      }
      at := lo;
    }

    /** findBestMoveInner: one of the moves listed for the lock word; the random draw is given. */
    method FindInner(lock: int, draw: nat) returns (found: bool, mv: Move)
      requires Sorted(items)
      ensures found <==> Known(items, lock)
      ensures found ==> Lists(items, lock, mv)
    {
      var at := LowerBound(lock);
      var best: seq<Move> := [];
      ghost var from := at;
      while at < |items| && items[at].lock == lock
        invariant from <= at <= |items| && |best| == at - from
        invariant forall i :: 0 <= i < |best| ==> items[from + i] == Entry(lock, best[i])
      {
        best := best + [items[at].mv];
        at := at + 1;
      }
      found, mv := false, 0;
      if best != [] {
        var pick := draw % |best|;
        assert items[from + pick] == Entry(lock, best[pick]);
        found, mv := true, best[pick];
      }
    }

    /** findBestMove: a move listed for the position, else the mirrored move of one listed for its
        mirror image, else 0. */
    method FindBestMove(lock: int, mirrorLock: int, draw: nat) returns (mv: int)
      requires Sorted(items)
      ensures Known(items, lock) ==> 0 <= mv < 65536 && Lists(items, lock, mv)
      ensures !Known(items, lock) && Known(items, mirrorLock) ==>
                exists m: Move :: Lists(items, mirrorLock, m) && mv == MirrorMove(m)
      ensures !Known(items, lock) && !Known(items, mirrorLock) ==> mv == 0
    {
      mv := 0;
      var found, m := FindInner(lock, draw);
      if found {
        mv := m;
      } else {
        found, m := FindInner(mirrorLock, draw);
        if found {
          mv := MirrorMove(m);
        }
      }
    }

    /** A book hit for a position, under its hash or the hash of its mirror image: a listed move, or the
        mirrored image of one, which is generated here exactly if the listed one is generated there.
        So where the moves listed for the two positions are generated in them, the answer is generated. */
    method BookMove(k: KeyTable, g: Game, draw: nat) returns (mv: int)
      requires Sorted(items) && WellPlaced(g)
      ensures var lock, mirrorLock := LockOf(k, g.cells, g.side), LockOf(k, MirrorCells(g.cells), g.side);
              && (Known(items, lock) ==> 0 <= mv < 65536 && Lists(items, lock, mv))
              && (!Known(items, lock) && Known(items, mirrorLock) ==>
                    exists m: Move :: Lists(items, mirrorLock, m) && mv == MirrorMove(m)
                                 && (Offers(g, mv) <==> IsGenerated(MirrorGame(g), m, false)))
              && (!Known(items, lock) && !Known(items, mirrorLock) ==> mv == 0)
      ensures Honest(k, items, g) && Honest(k, items, MirrorGame(g)) && mv != 0 ==> Offers(g, mv)
      ensures Honest(k, items, g) && Honest(k, items, MirrorGame(g)) && mv == 0 ==>
                && !Known(items, LockOf(k, g.cells, g.side))
                && !Known(items, LockOf(k, MirrorCells(g.cells), g.side))
    {
      hide LockOf, IsGenerated, Known, Lists, WellPlaced, Offers;
      var lock, mirrorLock := LockOf(k, g.cells, g.side), LockOf(k, MirrorCells(g.cells), g.side);
      mv := FindBestMove(lock, mirrorLock, draw);
      if Known(items, lock) {
        if Honest(k, items, g) {
          GeneratedOffers(g, mv);
        }
      } else if Known(items, mirrorLock) {
        ghost var m: Move :| Lists(items, mirrorLock, m) && mv == MirrorMove(m);
        MirrorOffers(g, m);
        if Offers(g, mv) {
          OffersNonzero(g, mv);
        }
      }
    }
  }

  lemma GeneratedOffers(g: Game, mv: Move)
    requires IsGenerated(g, mv, false)
    ensures Offers(g, mv) && mv != 0
  {
  }

  lemma OffersNonzero(g: Game, mv: int)
    requires Offers(g, mv)
    ensures mv != 0
  {
  }
}
