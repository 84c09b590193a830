/** The rules of the game as the engine implements them, stated on placements: the attack
    test, the move generator, what a move does, and what a well-placed position is
    (cchess_engine/board.cc, board.h). */
module Rules {
  import opened Geometry
  import opened Pieces

  /** One step of the history: the move, whether it captured, whether it gave check, and the
      hash key of the position it was made in. */
  datatype Rec = Rec(mv: Move, capture: bool, check: bool, key: bv32)

  /** A position with its history. The two kings' squares are kept apart because the engine
      goes on reading the square of a captured king. */
  datatype Game = Game(cells: Placement, rk: Square, bk: Square, side: Side, hist: seq<Rec>) {
    function KingAt(s: Side): Square { if s == Red then rk else bk }
  }

  predicate ClearLine(c: Placement, a: Square, b: Square) {
    forall q: Square | Between(a, q, b) :: c[q] == Empty
  }

  /** s is the only man strictly between a and b. */
  predicate ScreenAt(c: Placement, a: Square, s: Square, b: Square) {
    Between(a, s, b) && c[s] != Empty && ClearLine(c, a, s) && ClearLine(c, s, b)
  }

  predicate OneScreen(c: Placement, a: Square, b: Square) {
    exists s: Square :: ScreenAt(c, a, s, b)
  }

  /** A pawn moves away from its own king's half. */
  function Forward(king: Square, from: int): int {
    if king >= 128 then from - 16 else from + 16
  }

  predicate Enemy(c: Placement, side: Side, to: Square) {
    c[to].Man? && c[to].side != side
  }

  /** A square a generated move may end on: an enemy man, or an empty one unless only captures are wanted. */
  predicate Target(c: Placement, side: Side, to: Square, captures: bool) {
    Enemy(c, side, to) || (!captures && c[to] == Empty)
  }

  /** The attack test: may the man on from go to to, whatever colour stands there? */
  predicate Attack(c: Placement, king: Square, from: Square, to: Square)
    requires c[from].Man? && InBoard(from)
  {
    match c[from].kind
    case King =>
      (InFort(to) && Span(to - from) == 1)
      || (from != to && Aligned(from, to) && ClearLine(c, from, to) && c[to].Man? && c[to].kind == King)
    case Advisor => InFort(to) && Span(to - from) == 2
    case Bishop => SameHalf(from, to) && Span(to - from) == 3 && c[(from + to) / 2] == Empty
    case Knight => KnightPin(to - from) != 0 && c[from + KnightPin(to - from)] == Empty
    case Rook =>
      from != to && Aligned(from, to) && ClearLine(c, from, to) && !(c[to].Man? && c[to].side == c[from].side)
    case Cannon =>
      from != to && Aligned(from, to)
      && ((ClearLine(c, from, to) && c[to] == Empty) || OneScreen(c, from, to))
    case Pawn =>
      (!SameHalf(king, from) && (to == from + 1 || to == from - 1)) || to == Forward(king, from)
  }

  /** The half step of a bishop move in direction d is on the board, on its own half, and empty. */
  predicate BishopVia(c: Placement, from: Square, d: int)
    requires InBoard(from)
  {
    d in ADVISOR_DELTA && InBoard(from + d) && SameHalf(from, from + d) && c[from + d] == Empty
  }

  /** The generator: is there a generated move of the man on from to to? */
  ghost predicate Generated(c: Placement, king: Square, from: Square, to: Square, captures: bool)
    requires c[from].Man? && InBoard(from)
  {
    var side := c[from].side;
    match c[from].kind
    case King => to - from in KING_DELTA && InFort(to) && Target(c, side, to, captures)
    case Advisor => to - from in ADVISOR_DELTA && InFort(to) && Target(c, side, to, captures)
    case Bishop =>
      (exists d :: BishopVia(c, from, d) && to == from + 2 * d) && Target(c, side, to, captures)
    case Knight =>
      (exists i: nat :: i < 4 && to - from in KNIGHT_DELTA[i] && c[from + KING_DELTA[i]] == Empty)
      && InBoard(to) && Target(c, side, to, captures)
    case Rook =>
      from != to && InBoard(to) && Aligned(from, to) && ClearLine(c, from, to) && Target(c, side, to, captures)
    case Cannon =>
      from != to && InBoard(to) && Aligned(from, to)
      && ((ClearLine(c, from, to) && !captures && c[to] == Empty) || (OneScreen(c, from, to) && Enemy(c, side, to)))
    case Pawn =>
      (to == Forward(king, from) || (!SameHalf(king, from) && (to == from - 1 || to == from + 1)))
      && InBoard(to) && Target(c, side, to, captures)
  }

  // ---- Positions ----

  ghost predicate OnBoard(c: Placement) {
    forall p: Square :: c[p].Man? ==> InBoard(p)
  }

  /** An enemy of side s on p attacks the square recorded for the king of s. */
  predicate Threat(g: Game, s: Side, p: Square) {
    g.cells[p].Man? && InBoard(p) && g.cells[p].side == s.Other()
      && Attack(g.cells, g.KingAt(s.Other()), p, g.KingAt(s))
  }

  predicate InCheck(g: Game, s: Side) {
    exists p: Square :: Threat(g, s, p)
  }

  /** Where a man of one kind and side may stand, given its king. */
  predicate Placed(x: Cell, king: Square, p: Square) {
    x.Man? ==>
      && InBoard(p)
      && (x.kind == King ==> p == king)
      && (x.kind == Advisor ==> InFort(p) && SameHalf(p, king))
      && (x.kind == Bishop ==> BishopSquare(p) && SameHalf(p, king))
  }

  predicate WellPlaced(g: Game) {
    && g.cells[g.rk] == Man(Red, King) && g.cells[g.bk] == Man(Black, King)
    && InFort(g.rk) && InFort(g.bk) && !SameHalf(g.rk, g.bk)
    && (forall p: Square :: g.cells[p].Man? ==> Placed(g.cells[p], g.KingAt(g.cells[p].side), p))
    && ArmySized(g.cells, Red) && ArmySized(g.cells, Black)
  }

  /** The two kings share a file with nothing between them. */
  predicate KingsFace(g: Game) {
    Col(g.rk) == Col(g.bk) && ClearLine(g.cells, g.rk, g.bk)
  }

  /** The flying-king attack, and the cannon's jump over one screen onto an empty square:
      what the attack test lets through and the generator does not. */
  ghost predicate AttackOnly(c: Placement, from: Square, to: Square)
    requires c[from].Man?
  {
    || (c[from].kind == King && c[to].Man? && c[to].kind == King && from != to && Aligned(from, to)
        && ClearLine(c, from, to))
    || (c[from].kind == Cannon && c[to] == Empty && from != to && Aligned(from, to) && OneScreen(c, from, to))
  }

  // ---- Attack test and generator agree ----

  /** From a bishop square, the half step stays on the board and in the half exactly when the full step does. */
  lemma BishopStep(from: Square, d: int)
    requires BishopSquare(from) && d in ADVISOR_DELTA
    ensures 0 <= from + d < 256 && 0 <= from + 2 * d < 256
    ensures (from + (from + 2 * d)) / 2 == from + d && Span(2 * d) == 3
    ensures InBoard(from + 2 * d) && SameHalf(from, from + 2 * d) <==> InBoard(from + d) && SameHalf(from, from + d)
    ensures InBoard(from + 2 * d) && SameHalf(from, from + 2 * d) ==> BishopSquare(from + 2 * d)
  {
    Coordinates(from);
    var dr := if d < 0 then -1 else 1;
    var dc := d - 16 * dr;
    Shift(from, dr, dc);
    Shift(from, 2 * dr, 2 * dc);
    Halves(from);
    Halves(from + d);
    Halves(from + 2 * d);
  }

  lemma BishopAttackGenerated(c: Placement, king: Square, from: Square, to: Square)
    requires c[from].Man? && c[from].kind == Bishop && BishopSquare(from) && InBoard(from)
    requires InBoard(to) && !(c[to].Man? && c[to].side == c[from].side)
    requires Attack(c, king, from, to)
    ensures Generated(c, king, from, to, false)
  {
    hide InBoard, BishopSquare, SameHalf;
    var d := if to - from == -34 then -17 else if to - from == -30 then -15 else if to - from == 30 then 15 else 17;
    BishopStep(from, d);
    assert BishopVia(c, from, d);
  }

  lemma BishopViaAttack(c: Placement, king: Square, from: Square, d: int)
    requires c[from].Man? && c[from].kind == Bishop && BishopSquare(from) && InBoard(from)
    requires BishopVia(c, from, d)
    ensures 0 <= from + 2 * d < 256 && Attack(c, king, from, from + 2 * d)
  {
    BishopStep(from, d);
  }

  lemma BishopGeneratedAttack(c: Placement, king: Square, from: Square, to: Square)
    requires c[from].Man? && c[from].kind == Bishop && BishopSquare(from) && InBoard(from)
    requires Generated(c, king, from, to, false)
    ensures Attack(c, king, from, to)
  {
    hide Attack;
    var d :| BishopVia(c, from, d) && to == from + 2 * d;
    BishopViaAttack(c, king, from, d);
  }

  lemma KnightAgrees(c: Placement, king: Square, from: Square, to: Square)
    requires c[from].Man? && c[from].kind == Knight && InBoard(from)
    requires InBoard(to) && !(c[to].Man? && c[to].side == c[from].side)
    ensures Attack(c, king, from, to) <==> Generated(c, king, from, to, false)
  {
    var d := to - from;
    if Attack(c, king, from, to) {
      var i: nat := if d in KNIGHT_DELTA[0] then 0 else if d in KNIGHT_DELTA[1] then 1
                    else if d in KNIGHT_DELTA[2] then 2 else 3;
      assert d in KNIGHT_DELTA[i] && KING_DELTA[i] == KnightPin(d);
    }
    if Generated(c, king, from, to, false) {
      var i: nat :| i < 4 && d in KNIGHT_DELTA[i] && c[from + KING_DELTA[i]] == Empty;
      assert KING_DELTA[i] == KnightPin(d);
    }
  }

  /** From a well-placed man to a cell of the board not held by its own side, the attack test
      accepts exactly the generated moves, the flying king and the cannon's empty jump. */
  lemma AttackIsGenerated(g: Game, from: Square, to: Square)
    requires WellPlaced(g) && g.cells[from].Man? && InBoard(to)
    requires !(g.cells[to].Man? && g.cells[to].side == g.cells[from].side)
    ensures InBoard(from)
    ensures Attack(g.cells, g.KingAt(g.cells[from].side), from, to)
            <==> Generated(g.cells, g.KingAt(g.cells[from].side), from, to, false) || AttackOnly(g.cells, from, to)
  {
    var c, king := g.cells, g.KingAt(g.cells[from].side);
    assert Placed(c[from], king, from);
    match c[from].kind {
      case King =>
        assert Span(to - from) == 1 <==> to - from in KING_DELTA;
      case Advisor =>
        assert Span(to - from) == 2 <==> to - from in ADVISOR_DELTA;
      case Bishop =>
        if Attack(c, king, from, to) {
          BishopAttackGenerated(c, king, from, to);
        }
        if Generated(c, king, from, to, false) {
          BishopGeneratedAttack(c, king, from, to);
        }
      case Knight => KnightAgrees(c, king, from, to);
      case Rook =>
      case Cannon =>
      case Pawn =>
    }
  }

  /** A generated capture ends on an enemy man, and is the same capture in the full generation. */
  lemma CapturesAreGenerated(c: Placement, king: Square, from: Square, to: Square)
    requires c[from].Man? && InBoard(from)
    ensures Generated(c, king, from, to, true) <==>
            Generated(c, king, from, to, false) && Enemy(c, c[from].side, to)
  {
  }

  lemma ThreatIsCapture(g: Game, s: Side, p: Square)
    requires WellPlaced(g) && g.cells[p].Man? && g.cells[p].side == s.Other()
    ensures InBoard(p)
    ensures Threat(g, s, p) <==>
            Generated(g.cells, g.KingAt(s.Other()), p, g.KingAt(s), true) || (p == g.KingAt(s.Other()) && KingsFace(g))
  {
    hide Attack, Generated, ArmySized;
    var c, k, o := g.cells, g.KingAt(s), g.KingAt(s.Other());
    AttackIsGenerated(g, p, k);
    CapturesAreGenerated(c, o, p, k);
    ClearLineSymmetric(c, g.rk, g.bk);
    assert Placed(c[p], o, p);
  }

  /** Check detection is move generation: the king of s is in check exactly when an enemy man
      has a generated capture onto it, or the two kings face each other. */
  lemma CheckIsCapture(g: Game, s: Side)
    requires WellPlaced(g)
    ensures InCheck(g, s) <==>
            KingsFace(g)
            || exists p: Square :: g.cells[p].Man? && InBoard(p) && g.cells[p].side == s.Other()
                              && Generated(g.cells, g.KingAt(s.Other()), p, g.KingAt(s), true)
  {
    hide Generated;
    forall p: Square | g.cells[p].Man? && g.cells[p].side == s.Other()
      ensures InBoard(p)
      ensures Threat(g, s, p) <==>
              Generated(g.cells, g.KingAt(s.Other()), p, g.KingAt(s), true)
                || (p == g.KingAt(s.Other()) && KingsFace(g))
    {
      ThreatIsCapture(g, s, p);
    }
    assert g.cells[g.KingAt(s.Other())] == Man(s.Other(), King);
  }

  lemma ClearLineSymmetric(c: Placement, a: Square, b: Square)
    ensures ClearLine(c, a, b) <==> ClearLine(c, b, a)
  {
    assert forall q: Square :: Between(a, q, b) <==> Between(b, q, a);
  }

  // ---- Rays ----

  /** Walking from a towards a distinct aligned b by the unit offset stays strictly between them until b. */
  lemma OffsetStep(a: Square, b: Square, at: Square)
    requires a != b && Aligned(a, b) && (at == a || Between(a, at, b))
    ensures Offset(a, b) in KING_DELTA
    ensures 0 <= at + Offset(a, b) < 256
    ensures at + Offset(a, b) == b || Between(a, at + Offset(a, b), b)
    ensures forall q :: Between(a, q, at + Offset(a, b)) <==> Between(a, q, at) || (q == at && at != a)
  {
    var d := Offset(a, b);
    Coordinates(a);
    Coordinates(b);
    Coordinates(at);
    Coordinates(at + d);
    forall q
      ensures Between(a, q, at + d) <==> Between(a, q, at) || (q == at && at != a)
    {
      BetweenStep(a, d, at, q);
    }
  }

  /** The four rays from a square cover exactly the squares aligned with it, each once. */
  lemma RaysCover(a: Square, to: Square)
    ensures (a != to && Aligned(a, to)) <==> exists i: nat :: i < 4 && OnRay(a, KING_DELTA[i], to)
    ensures forall i: nat, j: nat :: i < j < 4 ==> !(OnRay(a, KING_DELTA[i], to) && OnRay(a, KING_DELTA[j], to))
  {
    Coordinates(a);
    Coordinates(to);
    if a != to && Aligned(a, to) {
      var i: nat := if Row(a) == Row(to) then (if to < a then 1 else 2) else (if to < a then 0 else 3);
      assert OnRay(a, KING_DELTA[i], to);
    }
  }

  /** One step further on a ray. */
  lemma RayStep(a: Square, d: int, at: Square)
    requires d in KING_DELTA && InBoard(a) && InBoard(at) && (at == a || OnRay(a, d, at))
    ensures 0 <= at + d < 256 && OnRay(a, d, at + d)
    ensures forall q: Square :: Between(a, q, at + d) <==> Between(a, q, at) || (q == at && at != a)
  {
    Coordinates(a);
    Coordinates(at);
    Coordinates(at + d);
    forall q: Square
      ensures Between(a, q, at + d) <==> Between(a, q, at) || (q == at && at != a)
    {
      BetweenStep(a, d, at, q);
    }
  }

  /** Beyond the edge of the board a ray has no cells left. */
  lemma RayEnd(a: Square, d: int, at: Square, to: Square)
    requires d in KING_DELTA && InBoard(a) && OnRay(a, d, at) && !InBoard(at) && InBoard(to) && OnRay(a, d, to)
    ensures Between(a, to, at)
  {
    Coordinates(a);
    Coordinates(at);
    Coordinates(to);
  }

  /** Of two squares on a ray, one comes first. */
  lemma RayOrder(a: Square, d: int, p: Square, q: Square)
    requires d in KING_DELTA && OnRay(a, d, p) && OnRay(a, d, q)
    ensures p == q || Between(a, p, q) || Between(a, q, p)
    ensures !(Between(a, p, q) && Between(a, q, p)) && !Between(a, p, p)
  {
  }

  /** What lies between a and a nearer square lies between a and a farther one. */
  lemma BetweenNests(a: Square, q: Square, p: Square, r: Square)
    requires Between(a, p, r) && (Between(a, q, p) || Between(p, q, r))
    ensures Between(a, q, r)
  {
  }

  lemma OnRayBetween(a: Square, d: int, q: Square, at: Square)
    requires d in KING_DELTA && OnRay(a, d, at) && Between(a, q, at)
    ensures OnRay(a, d, q)
  {
  }
}
