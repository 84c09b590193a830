/** The value of a position in quiet search, as a recursion without cut-offs, and the bounds that
    justify cutting on the distance to mate (cchess_engine/search_engine.h, search_engine.cc). */
module Quiescence {
  import opened Geometry
  import opened Pieces
  import opened Rules
  import opened Play
  import opened Repetition

  const MATE_VALUE := 10000
  const BAN_VALUE := 9900
  const DRAW_VALUE := 20
  const LIMIT_DEPTH := 64

  function MateValue(distance: int): int { distance - MATE_VALUE }

  function BanValue(distance: int): int { distance - BAN_VALUE }

  function DrawValue(distance: int): int {
    if distance % 2 == 0 then -DRAW_VALUE else DRAW_VALUE
  }

  /** The score of a repetition: its bits 2 and 4 say which side checked all along. */
  function RepetitionValue(distance: int, rep: int): int {
    var own := if (rep / 2) % 2 == 1 then BanValue(distance) else 0;
    var opp := if (rep / 4) % 2 == 1 then -BanValue(distance) else 0;
    if own + opp == 0 then DrawValue(distance) else own + opp
  }

  function RepetitionOf(k: KeyTable, g: Game): int {
    Status(g.hist, 1, Hash(k, g.cells, g.side).key)
  }

  /** mv is searched: generated, and it leaves the own king safe. */
  ghost predicate Candidate(g: Game, mv: int, captures: bool) {
    0 <= mv < 65536 && IsGenerated(g, mv, captures) && Safe(g, mv)
  }

  /** Standing pat is allowed unless in check. */
  ghost function StandPat(g: Game): int {
    if InCheck(g, g.side) then -MATE_VALUE else Evaluation(g)
  }

  /** The value of a position, seen by the side to move. */
  ghost function Quiet(k: KeyTable, g: Game, distance: nat): int
    requires distance <= LIMIT_DEPTH
    decreases LIMIT_DEPTH - distance, 65537
  {
    if RepetitionOf(k, g) > 0 then RepetitionValue(distance, RepetitionOf(k, g))
    else if distance == LIMIT_DEPTH then Evaluation(g)
    else
      var best := Best(k, g, distance, !InCheck(g, g.side), 65536);
      if best == -MATE_VALUE then MateValue(distance) else best
  }

  /** The best of standing pat and the candidate moves below n. */
  ghost function Best(k: KeyTable, g: Game, distance: nat, captures: bool, n: nat): int
    requires distance < LIMIT_DEPTH && n <= 65536
    decreases LIMIT_DEPTH - distance, n
  {
    if n == 0 then StandPat(g)
    else
      var b := Best(k, g, distance, captures, n - 1);
      if Candidate(g, n - 1, captures) then Max(b, -Quiet(k, Played(k, g, n - 1), distance + 1)) else b
  }

  function Max(a: int, b: int): int { if a < b then b else a }

  /** What move mv is worth to its mover. */
  ghost function Worth(k: KeyTable, g: Game, distance: nat, mv: Move): int
    requires distance < LIMIT_DEPTH
  {
    -Quiet(k, Played(k, g, mv), distance + 1)
  }

  /** Best is an upper bound of the candidates' worth. */
  lemma {:induction false} BestAbove(k: KeyTable, g: Game, distance: nat, captures: bool, n: nat, mv: Move)
    requires distance < LIMIT_DEPTH && n <= 65536
    ensures StandPat(g) <= Best(k, g, distance, captures, n)
    ensures mv < n && Candidate(g, mv, captures) ==> Worth(k, g, distance, mv) <= Best(k, g, distance, captures, n)
  {
    hide Candidate, Played, StandPat;
    if n > 0 {
      BestAbove(k, g, distance, captures, n - 1, mv);
    }
  }

  /** Best is the least one. */
  lemma {:induction false} BestBelow(k: KeyTable, g: Game, distance: nat, captures: bool, n: nat, bound: int)
    requires distance < LIMIT_DEPTH && n <= 65536 && StandPat(g) <= bound
    requires forall mv: Move :: mv < n && Candidate(g, mv, captures) ==> Worth(k, g, distance, mv) <= bound
    ensures Best(k, g, distance, captures, n) <= bound
  {
    hide Candidate, Played, StandPat;
    if n > 0 {
      BestBelow(k, g, distance, captures, n - 1, bound);
      if Candidate(g, n - 1, captures) {
        assert Worth(k, g, distance, n - 1) <= bound;
      }
    }
  }

  // ---- Scores ----

  /** Perpetual check loses: in a run of play whose present placement and side to move occurred before,
      the side to move is worth 9900 less its distance from the root downwards if only its own moves
      since the nearest position with the present key all gave check, as much upwards if only the
      other side's did, and a small draw score, against the side at the root, otherwise. */
  lemma PerpetualScore(k: KeyTable, gs: seq<Game>, mvs: seq<Move>, j: nat, d: nat) returns (m: nat)
    requires Run(k, gs, mvs) && j < |mvs| && d <= LIMIT_DEPTH
    requires gs[j].cells == gs[|mvs|].cells && gs[j].side == gs[|mvs|].side
    ensures j <= m < |mvs| && (|mvs| - m) % 2 == 0 && KeyOf(k, gs[m]) == KeyOf(k, gs[|mvs|])
    ensures forall t :: m < t < |mvs| && (|mvs| - t) % 2 == 0 ==> KeyOf(k, gs[t]) != KeyOf(k, gs[|mvs|])
    ensures OwnGaveCheck(gs, m) && !OppGaveCheck(gs, m) ==> Quiet(k, gs[|mvs|], d) == d - 9900
    ensures OppGaveCheck(gs, m) && !OwnGaveCheck(gs, m) ==> Quiet(k, gs[|mvs|], d) == 9900 - d
    ensures (OwnGaveCheck(gs, m) <==> OppGaveCheck(gs, m)) ==>
              Quiet(k, gs[|mvs|], d) == if d % 2 == 0 then -20 else 20
  {
    hide Run, OwnGaveCheck, OppGaveCheck, Status, Hash;
    RunLength(k, gs, mvs);
    m := RepetitionFound(k, gs, mvs, j);
    assert RepetitionOf(k, gs[|mvs|]) == Status(gs[|mvs|].hist, 1, KeyOf(k, gs[|mvs|]));
  }

  /** Mate: in check, without a repetition and without a move, a side is worth its distance from the
      root less 10000. */
  lemma MatedScore(k: KeyTable, g: Game, d: nat)
    requires d < LIMIT_DEPTH && RepetitionOf(k, g) <= 0 && InCheck(g, g.side)
    requires forall mv: Move :: !Candidate(g, mv, false)
    ensures Quiet(k, g, d) == d - 10000
  {
    hide Candidate, InCheck, RepetitionOf;
    BestBelow(k, g, d, false, 65536, -MATE_VALUE);
    BestAbove(k, g, d, false, 65536, 0);
  }

  // ---- Bounds ----

  /** No evaluation is out of [-1208, 1214]. */
  lemma EvaluationBound(g: Game)
    requires WellPlaced(g)
    ensures -1208 <= Evaluation(g) <= 1214
  {
    MaterialBound(g.cells, Red);
    MaterialBound(g.cells, Black);
  }

  lemma RepetitionBound(distance: nat, rep: int)
    requires distance <= LIMIT_DEPTH
    ensures MateValue(distance) <= RepetitionValue(distance, rep) <= 9999 - distance
  {
  }

  /** A candidate leads from a legal position to a legal one. */
  lemma CandidateLegal(k: KeyTable, g: Game, mv: Move, captures: bool)
    requires Legal(g) && Candidate(g, mv, captures)
    ensures Legal(Played(k, g, mv)) && Pseudo(g, mv)
  {
    hide IsGenerated, Pseudo, WellPlaced, Safe, InCheck, Played;
    GeneratedTries(g, mv, captures);
    PlayedLegal(k, g, mv);
  }

  /** The value of a position lies between mate now and mate by the next move. */
  lemma {:induction false} QuietBound(k: KeyTable, g: Game, distance: nat)
    requires distance <= LIMIT_DEPTH && Legal(g)
    ensures MateValue(distance) <= Quiet(k, g, distance) <= 9999 - distance
    decreases LIMIT_DEPTH - distance, 65537
  {
    hide Hash, Status, RepetitionValue, InCheck, WellPlaced, Candidate, Evaluation;
    EvaluationBound(g);
    RepetitionBound(distance, RepetitionOf(k, g));
    if distance < LIMIT_DEPTH {
      BestBound(k, g, distance, !InCheck(g, g.side), 65536);
    }
  }

  /** Without a move and without standing pat Best is the mate value; otherwise it is above it. */
  lemma {:induction false} BestBound(k: KeyTable, g: Game, distance: nat, captures: bool, n: nat)
    requires distance < LIMIT_DEPTH && n <= 65536 && Legal(g)
    ensures Best(k, g, distance, captures, n) <= 9999 - distance
    ensures Best(k, g, distance, captures, n) == -MATE_VALUE || MateValue(distance) < Best(k, g, distance, captures, n)
    decreases LIMIT_DEPTH - distance, n
  {
    hide Played, InCheck, Legal, Candidate, Evaluation;
    if n == 0 {
      LegalWellPlaced(g);
      EvaluationBound(g);
    } else {
      BestBound(k, g, distance, captures, n - 1);
      if Candidate(g, n - 1, captures) {
        CandidateLegal(k, g, n - 1, captures);
        QuietBound(k, Played(k, g, n - 1), distance + 1);
      }
    }
  }

  lemma LegalWellPlaced(g: Game)
    requires Legal(g)
    ensures WellPlaced(g)
  {
  }

  // ---- Fail-soft alpha-beta ----

  /** What a search after mv answers is about the quiet value alone, whatever a table says: the position
      after mv repeats, or it is at the horizon of a search of this depth and not in check. */
  ghost predicate Direct(k: KeyTable, g: Game, mv: Move, depth: int) {
    var h := Played(k, g, mv);
    RepetitionOf(k, h) > 0 || (depth <= 1 && !InCheck(h, h.side))
  }

  /** r is a fail-soft answer for the value q in the window (alpha, beta). */
  predicate FailSoft(r: int, q: int, alpha: int, beta: int) {
    && (r <= alpha ==> q <= r)
    && (alpha < r < beta ==> q == r)
    && (r >= beta ==> q >= r)
  }

  /** Seen from the other side, values and windows change their signs. */
  lemma OtherSide(r: int, q: int, alpha: int, beta: int)
    ensures FailSoft(r, q, alpha, beta) <==> FailSoft(-r, -q, -beta, -alpha)
  {
  }

  /** What the search of mv to this depth answers in the window (alpha, beta): the move's worth, fail-soft,
      if the answer is direct, and always mate by the next move if alpha leaves no more to be found. */
  ghost predicate Answers(k: KeyTable, g: Game, distance: nat, mv: Move, depth: int, alpha: int, beta: int, value: int)
    requires distance < LIMIT_DEPTH
  {
    && (Direct(k, g, mv, depth) ==> FailSoft(value, Worth(k, g, distance, mv), alpha, beta))
    && (9999 - distance <= alpha ==> value == 9999 - distance)
  }

  /** The search of the position after mv, in the window turned round and one ply less deep unless mv
      gives check, is with its sign changed an answer for mv. */
  lemma ChildAnswers(k: KeyTable, g: Game, distance: nat, mv: Move, depth: int, newDepth: int,
                     alpha: int, beta: int, v: int)
    requires distance < LIMIT_DEPTH && alpha < beta
    requires var h := Played(k, g, mv);
             && newDepth == (if InCheck(h, h.side) then depth else depth - 1)
             && (newDepth <= 0 || RepetitionOf(k, h) > 0 ==> FailSoft(v, Quiet(k, h, distance + 1), -beta, -alpha))
             && (-alpha <= MateValue(distance + 1) ==> v == MateValue(distance + 1))
    ensures Answers(k, g, distance, mv, depth, alpha, beta, -v)
  {
    hide FailSoft, Played, Quiet, InCheck, RepetitionOf;
    OtherSide(v, Quiet(k, Played(k, g, mv), distance + 1), -beta, -alpha);
  }

  /** A null window decides for any window with the same lower bound, unless it fails high inside it. */
  lemma NullWindow(k: KeyTable, g: Game, distance: nat, mv: Move, depth: int, alpha: int, beta: int, value: int)
    requires distance < LIMIT_DEPTH && alpha < beta && Answers(k, g, distance, mv, depth, alpha, alpha + 1, value)
    requires value <= alpha || value >= beta
    ensures Answers(k, g, distance, mv, depth, alpha, beta, value)
  {
    hide Direct, Worth;
  }

  /** A repeated position is worth what its repetition says. */
  lemma RepeatedValue(k: KeyTable, g: Game, distance: nat)
    requires distance <= LIMIT_DEPTH && RepetitionOf(k, g) > 0
    ensures Quiet(k, g, distance) == RepetitionValue(distance, RepetitionOf(k, g))
  {
    hide RepetitionOf, RepetitionValue;
  }

  /** The searching loop after the moves in done: best bounds what was seen, and is exact above alpha0. */
  ghost predicate Seen(k: KeyTable, g: Game, distance: nat, captures: bool, done: seq<Move>,
                       alpha0: int, alpha: int, best: int)
    requires distance < LIMIT_DEPTH
  {
    && StandPat(g) <= best
    && (forall mv: Move :: mv in done && Candidate(g, mv, captures) ==> Worth(k, g, distance, mv) <= best)
    && (best > alpha0 ==>
          best == StandPat(g)
            || exists mv: Move :: mv in done && Candidate(g, mv, captures) && Worth(k, g, distance, mv) == best)
    && (best == -MATE_VALUE ==> forall mv: Move :: mv in done ==> !Candidate(g, mv, captures))
    && (best == -MATE_VALUE || MateValue(distance) < best <= 9999 - distance)
    && alpha == if best == -MATE_VALUE then alpha0 else Max(alpha0, best)
  }

  lemma SeenStart(k: KeyTable, g: Game, distance: nat, captures: bool, alpha0: int)
    requires distance < LIMIT_DEPTH && Legal(g)
    ensures Seen(k, g, distance, captures, [], alpha0,
                 if StandPat(g) == -MATE_VALUE then alpha0 else Max(alpha0, StandPat(g)), StandPat(g))
  {
    hide Evaluation, InCheck, WellPlaced, Candidate;
    EvaluationBound(g);
  }

  lemma SeenSkip(k: KeyTable, g: Game, distance: nat, captures: bool, done: seq<Move>, mv: Move,
                 alpha0: int, alpha: int, best: int)
    requires distance < LIMIT_DEPTH && Seen(k, g, distance, captures, done, alpha0, alpha, best)
    requires !Candidate(g, mv, captures)
    ensures Seen(k, g, distance, captures, done + [mv], alpha0, alpha, best)
  {
    hide Candidate, StandPat, Worth;
    forall m: Move | m in done
      ensures m in done + [mv]
    {
    }
  }

  /** One more move, whose search answered -v: the update the loop makes keeps what is known. */
  lemma SeenStep(k: KeyTable, g: Game, distance: nat, captures: bool, done: seq<Move>, mv: Move,
                 alpha0: int, alpha: int, best: int, beta: int, v: int)
    requires distance < LIMIT_DEPTH && Seen(k, g, distance, captures, done, alpha0, alpha, best)
    requires Candidate(g, mv, captures) && alpha < beta
    requires FailSoft(-v, -Worth(k, g, distance, mv), -beta, -alpha)
    requires MateValue(distance + 1) <= -v <= 9999 - (distance + 1)
    ensures v > best && v >= beta ==> Worth(k, g, distance, mv) >= v
    ensures v > best && v < beta ==> Seen(k, g, distance, captures, done + [mv], alpha0, Max(alpha, v), v)
    ensures v <= best ==> Seen(k, g, distance, captures, done + [mv], alpha0, alpha, best)
  {
    hide Candidate, StandPat, Worth;
    assert mv in done + [mv];
    forall m: Move | m in done
      ensures m in done + [mv]
    {
    }
  }

  /** The searching part of the recursion: no repetition, not at the depth limit. */
  ghost predicate Searched(k: KeyTable, g: Game, distance: nat, captures: bool) {
    distance < LIMIT_DEPTH && Legal(g) && RepetitionOf(k, g) <= 0 && captures == !InCheck(g, g.side)
  }

  /** A cut-off on one move is a lower bound of the value. */
  lemma CutIsBelow(k: KeyTable, g: Game, distance: nat, captures: bool, mv: Move)
    requires Searched(k, g, distance, captures) && Candidate(g, mv, captures)
    ensures Worth(k, g, distance, mv) <= Quiet(k, g, distance)
  {
    hide Candidate, StandPat, Worth, InCheck, Legal, RepetitionOf;
    BestAbove(k, g, distance, captures, 65536, mv);
    BestBound(k, g, distance, captures, 65536);
  }

  /** A cut-off on standing pat is a lower bound of the value. */
  lemma StandPatIsBelow(k: KeyTable, g: Game, distance: nat)
    requires Searched(k, g, distance, true)
    ensures Evaluation(g) <= Quiet(k, g, distance)
  {
    hide Candidate, InCheck, Legal, RepetitionOf, Evaluation;
    BestAbove(k, g, distance, true, 65536, 0);
    BestBound(k, g, distance, true, 65536);
  }

  /** After all moves the loop's answer is fail-soft. */
  lemma SeenAll(k: KeyTable, g: Game, distance: nat, captures: bool, done: seq<Move>,
                alpha0: int, alpha: int, best: int, beta: int)
    requires Searched(k, g, distance, captures) && Seen(k, g, distance, captures, done, alpha0, alpha, best)
    requires forall mv: Move :: Candidate(g, mv, captures) ==> mv in done
    requires best < beta
    ensures var r := if best == -MATE_VALUE then MateValue(distance) else best;
            FailSoft(r, Quiet(k, g, distance), alpha0, beta) && MateValue(distance) <= r <= 9999 - distance
  {
    hide Candidate, InCheck, Legal, RepetitionOf, Evaluation, Worth;
    BestBelow(k, g, distance, captures, 65536, best);
    BestAbove(k, g, distance, captures, 65536, 0);
    BestBound(k, g, distance, captures, 65536);
    if best > alpha0 && best != StandPat(g) {
      var mv: Move :| mv in done && Candidate(g, mv, captures) && Worth(k, g, distance, mv) == best;
      BestAbove(k, g, distance, captures, 65536, mv);
    }
  }

  // ---- Alpha-beta over moves searched to a depth ----

  /** The loop after the moves in done: best bounds what the direct ones are worth; from is the move it
      comes from, and it is that move's worth if it is above alpha0 and the move is direct. */
  ghost predicate Scored(k: KeyTable, g: Game, distance: nat, depth: int, done: seq<Move>,
                         alpha0: int, alpha: int, best: int, from: Move)
    requires distance < LIMIT_DEPTH
  {
    && (forall mv: Move :: mv in done && Safe(g, mv) && Direct(k, g, mv, depth) ==> Worth(k, g, distance, mv) <= best)
    && (best == -MATE_VALUE ==> forall mv: Move :: mv in done ==> !Safe(g, mv))
    && (best != -MATE_VALUE ==> from in done && Safe(g, from))
    && (best != -MATE_VALUE && best > alpha0 && Direct(k, g, from, depth) ==> Worth(k, g, distance, from) == best)
    && alpha == if best == -MATE_VALUE then alpha0 else Max(alpha0, best)
  }

  /** One more move, tried, and if it leaves the own king safe answered v: the update the loop makes keeps
      what is known. */
  lemma ScoredStep(k: KeyTable, g: Game, distance: nat, depth: int, done: seq<Move>, mv: Move,
                   alpha0: int, alpha: int, best: int, from: Move, beta: int, ok: bool, v: int)
    requires distance < LIMIT_DEPTH && Scored(k, g, distance, depth, done, alpha0, alpha, best, from)
    requires ok == Safe(g, mv) && (ok ==> Answers(k, g, distance, mv, depth, alpha, beta, v))
    requires alpha < beta && -MATE_VALUE <= best && (ok ==> -MATE_VALUE < v)
    ensures ok && v > best && v < beta ==> Scored(k, g, distance, depth, done + [mv], alpha0, Max(alpha, v), v, mv)
    ensures ok && v > best && v >= beta && Direct(k, g, mv, depth) ==> v <= Worth(k, g, distance, mv)
    ensures !ok || v <= best ==> Scored(k, g, distance, depth, done + [mv], alpha0, alpha, best, from)
  {
    hide Safe, Direct, Worth;
    assert mv in done + [mv];
    forall m: Move | m in done
      ensures m in done + [mv]
    {
    }
  }
}
