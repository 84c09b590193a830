/** Repetition detection: what one backward scan of the history finds, and why in a run of play
    it finds every repeated position (cchess_engine/board.cc, repetitionStatus). */
module Repetition {
  import opened Geometry
  import opened Pieces
  import opened Rules
  import opened Play

  /** The backward scan from step i, which stops at a null move or a capture. Every second step,
      beginning with the one before the last, was made by the side now to move. */
  function Scan(hist: seq<Rec>, i: int, own: bool, ownChecks: bool, oppChecks: bool, recur: int, key: bv32): int
    requires -1 <= i < |hist|
    decreases i + 1
  {
    if i == -1 || hist[i].mv <= 0 || hist[i].capture then 0
    else if own then
      var checks := ownChecks && hist[i].check;
      if hist[i].key == key then
        if recur - 1 == 0 then 1 + (if checks then 2 else 0) + (if oppChecks then 4 else 0)
        else Scan(hist, i - 1, false, checks, oppChecks, recur - 1, key)
      else Scan(hist, i - 1, false, checks, oppChecks, recur, key)
    else Scan(hist, i - 1, true, ownChecks, oppChecks && hist[i].check, recur, key)
  }

  function Status(hist: seq<Rec>, recur: int, key: bv32): int {
    Scan(hist, |hist| - 1, false, true, true, recur, key)
  }

  /** Nothing irreversible happened from step i on. */
  predicate Reversible(hist: seq<Rec>, i: int)
    requires 0 <= i <= |hist|
  {
    forall j :: i <= j < |hist| ==> hist[j].mv > 0 && !hist[j].capture
  }

  /** Step i was made by the side now to move, from a position with the present key, and
      everything since is reversible. */
  predicate Matches(hist: seq<Rec>, key: bv32, i: int) {
    0 <= i < |hist| && (|hist| - i) % 2 == 0 && hist[i].key == key && Reversible(hist, i)
  }

  predicate OwnAllChecks(hist: seq<Rec>, i: int)
    requires 0 <= i <= |hist|
  {
    forall j :: i <= j < |hist| && (|hist| - j) % 2 == 0 ==> hist[j].check
  }

  predicate OppAllChecks(hist: seq<Rec>, i: int)
    requires 0 <= i <= |hist|
  {
    forall j :: i <= j < |hist| && (|hist| - j) % 2 == 1 ==> hist[j].check
  }

  lemma {:induction false} ScanFrom(hist: seq<Rec>, i: int, own: bool, ownChecks: bool, oppChecks: bool, key: bv32)
    requires -1 <= i < |hist| && own == ((|hist| - i) % 2 == 0)
    requires Reversible(hist, i + 1)
    requires ownChecks == OwnAllChecks(hist, i + 1) && oppChecks == OppAllChecks(hist, i + 1)
    requires forall t :: i < t < |hist| ==> !Matches(hist, key, t)
    ensures var r := Scan(hist, i, own, ownChecks, oppChecks, 1, key);
            || (r == 0 && forall t :: 0 <= t < |hist| ==> !Matches(hist, key, t))
            || exists m :: Matches(hist, key, m) && (forall t :: m < t < |hist| ==> !Matches(hist, key, t))
                      && r == 1 + (if OwnAllChecks(hist, m) then 2 else 0) + (if OppAllChecks(hist, m) then 4 else 0)
    decreases i + 1
  {
    if i == -1 {
    } else if hist[i].mv <= 0 || hist[i].capture {
      assert forall t :: 0 <= t <= i ==> !Reversible(hist, t);
    } else if own {
      assert Reversible(hist, i);
      assert OwnAllChecks(hist, i) == (ownChecks && hist[i].check);
      assert OppAllChecks(hist, i) == oppChecks;
      if hist[i].key == key {
        assert Matches(hist, key, i);
      } else {
        ScanFrom(hist, i - 1, false, ownChecks && hist[i].check, oppChecks, key);
      }
    } else {
      assert Reversible(hist, i);
      assert OwnAllChecks(hist, i) == ownChecks;
      assert OppAllChecks(hist, i) == (oppChecks && hist[i].check);
      ScanFrom(hist, i - 1, true, ownChecks, oppChecks && hist[i].check, key);
    }
  }

  /** The status is positive exactly when some reversible earlier step of the side to move carries
      the present key, and its bits speak of the steps since the nearest such step. */
  lemma StatusExact(hist: seq<Rec>, key: bv32)
    ensures Status(hist, 1, key) > 0 <==> exists m :: Matches(hist, key, m)
    ensures forall m :: Matches(hist, key, m) && (forall t :: m < t < |hist| ==> !Matches(hist, key, t))
              ==> Status(hist, 1, key) == 1 + (if OwnAllChecks(hist, m) then 2 else 0)
                                          + (if OppAllChecks(hist, m) then 4 else 0)
  {
    hide Scan, OwnAllChecks, OppAllChecks;
    ScanAll(hist, key);
    if m: int :| Matches(hist, key, m) && (forall t :: m < t < |hist| ==> !Matches(hist, key, t))
                 && Status(hist, 1, key) == 1 + (if OwnAllChecks(hist, m) then 2 else 0)
                                            + (if OppAllChecks(hist, m) then 4 else 0) {
      forall n | Matches(hist, key, n) && (forall t :: n < t < |hist| ==> !Matches(hist, key, t))
        ensures n == m
      {
        assert !(m < n < |hist|) && !(n < m < |hist|);
      }
    }
  }

  lemma ScanAll(hist: seq<Rec>, key: bv32)
    ensures var r := Status(hist, 1, key);
            || (r == 0 && forall t :: 0 <= t < |hist| ==> !Matches(hist, key, t))
            || exists m :: Matches(hist, key, m) && (forall t :: m < t < |hist| ==> !Matches(hist, key, t))
                      && r == 1 + (if OwnAllChecks(hist, m) then 2 else 0) + (if OppAllChecks(hist, m) then 4 else 0)
  {
    ScanFrom(hist, |hist| - 1, false, true, true, key);
  }

  // ---- Runs of play ----

  ghost predicate Step(k: KeyTable, g: Game, mv: Move, h: Game) {
    LegalMove(g, mv) && h == Played(k, g, mv)
  }

  /** gs are the positions of a game in which the moves mvs are played one after the other. */
  ghost predicate Run(k: KeyTable, gs: seq<Game>, mvs: seq<Move>) {
    && |gs| == |mvs| + 1 && Legal(gs[0])
    && forall i :: 0 <= i < |mvs| ==> Step(k, gs[i], mvs[i], gs[i + 1])
  }

  ghost predicate GaveCheck(g: Game) {
    InCheck(g, g.side)
  }

  function KeyOf(k: KeyTable, g: Game): bv32 { Hash(k, g.cells, g.side).key }

  lemma {:induction false} RunLegal(k: KeyTable, gs: seq<Game>, mvs: seq<Move>, i: nat)
    requires Run(k, gs, mvs) && i <= |mvs|
    ensures Legal(gs[i])
  {
    if i > 0 {
      RunLegal(k, gs, mvs, i - 1);
      assert Step(k, gs[i - 1], mvs[i - 1], gs[i]);
      PlayedLegal(k, gs[i - 1], mvs[i - 1]);
    }
  }

  /** What one step of a run records and changes. */
  lemma StepFacts(k: KeyTable, g: Game, mv: Move, h: Game)
    requires Legal(g) && Step(k, g, mv, h)
    ensures mv > 0 && h.side == g.side.Other()
    ensures h.hist == g.hist + [Rec(mv, g.cells[End(mv)].Man?, GaveCheck(h), KeyOf(k, g))]
    ensures Men(h.cells) == Men(g.cells) - if g.cells[End(mv)].Man? then 1 else 0
  {
    NoKingCapture(g, mv);
    LandsPlaced(g, mv);
    MoveCellsMen(g.cells, Start(mv), End(mv));
    CheckIgnoresTurn(Shifted(g, mv), h, g.side.Other());
  }

  ghost predicate Recorded(k: KeyTable, g: Game, mv: Move, h: Game, r: Rec) {
    r == Rec(mv, g.cells[End(mv)].Man?, GaveCheck(h), KeyOf(k, g)) && mv > 0
  }

  /** What one step of a run records and changes. */
  lemma RunStep(k: KeyTable, gs: seq<Game>, mvs: seq<Move>, i: nat)
    requires Run(k, gs, mvs) && i < |mvs|
    ensures |gs[i + 1].hist| == |gs[i].hist| + 1 && gs[i + 1].hist[..|gs[i].hist|] == gs[i].hist
    ensures Recorded(k, gs[i], mvs[i], gs[i + 1], gs[i + 1].hist[|gs[i].hist|])
    ensures gs[i + 1].side == gs[i].side.Other()
    ensures Men(gs[i + 1].cells) == Men(gs[i].cells) - if gs[i].cells[End(mvs[i])].Man? then 1 else 0
  {
    RunLegal(k, gs, mvs, i);
    assert Step(k, gs[i], mvs[i], gs[i + 1]);
    StepFacts(k, gs[i], mvs[i], gs[i + 1]);
  }

  lemma {:induction false} RunRecords(k: KeyTable, gs: seq<Game>, mvs: seq<Move>, n: nat)
    requires Run(k, gs, mvs) && n <= |mvs|
    ensures |gs[n].hist| == |gs[0].hist| + n
    ensures forall i :: 0 <= i < n ==> Recorded(k, gs[i], mvs[i], gs[i + 1], gs[n].hist[|gs[0].hist| + i])
    ensures gs[n].side == if n % 2 == 0 then gs[0].side else gs[0].side.Other()
  {
    if n > 0 {
      RunRecords(k, gs, mvs, n - 1);
      RunStep(k, gs, mvs, n - 1);
      assert gs[n].side == if n % 2 == 0 then gs[0].side else gs[0].side.Other();
      forall i | 0 <= i < n
        ensures Recorded(k, gs[i], mvs[i], gs[i + 1], gs[n].hist[|gs[0].hist| + i])
      {
        if i < n - 1 {
          assert gs[n].hist[|gs[0].hist| + i] == gs[n].hist[..|gs[n - 1].hist|][|gs[0].hist| + i];
        }
      }
    }
  }

  /** Men only leave the board, and a capture is final. */
  lemma {:induction false} MenDecrease(k: KeyTable, gs: seq<Game>, mvs: seq<Move>, j: nat, n: nat)
    requires Run(k, gs, mvs) && j <= n <= |mvs|
    ensures Men(gs[n].cells) <= Men(gs[j].cells)
    ensures Men(gs[n].cells) == Men(gs[j].cells) ==>
              forall i :: j <= i < n ==> !gs[i].cells[End(mvs[i])].Man?
    decreases n - j
  {
    hide Men, Run, Recorded;
    RunLength(k, gs, mvs);
    if j < n {
      MenDecrease(k, gs, mvs, j, n - 1);
      RunStep(k, gs, mvs, n - 1);
    }
  }

  /** The last position before n of the same parity with the given key. */
  lemma {:induction false} Nearest(k: KeyTable, gs: seq<Game>, key: bv32, j: nat, n: nat, t: nat) returns (m: nat)
    requires j <= t < n < |gs| && (n - j) % 2 == 0 && (n - t) % 2 == 0 && KeyOf(k, gs[j]) == key
    requires forall u :: t < u < n && (n - u) % 2 == 0 ==> KeyOf(k, gs[u]) != key
    ensures j <= m < n && (n - m) % 2 == 0 && KeyOf(k, gs[m]) == key
    ensures forall u :: m < u < n && (n - u) % 2 == 0 ==> KeyOf(k, gs[u]) != key
    decreases t
  {
    hide KeyOf;
    if KeyOf(k, gs[t]) == key {
      m := t;
    } else {
      m := Nearest(k, gs, key, j, n, t - 2);
    }
  }

  /** Every own move from position m on gave check. The position after own move t is gs[t + 1]. */
  ghost predicate OwnGaveCheck(gs: seq<Game>, m: nat)
    requires gs != []
  {
    forall u :: m < u < |gs| && (|gs| - u) % 2 == 0 ==> GaveCheck(gs[u])
  }

  /** Every opposing move from position m on gave check. */
  ghost predicate OppGaveCheck(gs: seq<Game>, m: nat)
    requires gs != []
  {
    forall u :: m < u < |gs| && (|gs| - u) % 2 == 1 ==> GaveCheck(gs[u])
  }

  /** Completeness: in a run of play whose present placement and side to move occurred before, the
      status is positive, and its bits 2 and 4 say whether every own and every opposing move since
      the nearest position m with the present key gave check. */
  lemma RepetitionFound(k: KeyTable, gs: seq<Game>, mvs: seq<Move>, j: nat) returns (m: nat)
    requires Run(k, gs, mvs) && j < |mvs|
    requires gs[j].cells == gs[|mvs|].cells && gs[j].side == gs[|mvs|].side
    ensures j <= m < |mvs| && (|mvs| - m) % 2 == 0 && KeyOf(k, gs[m]) == KeyOf(k, gs[|mvs|])
    ensures forall t :: m < t < |mvs| && (|mvs| - t) % 2 == 0 ==> KeyOf(k, gs[t]) != KeyOf(k, gs[|mvs|])
    ensures Status(gs[|mvs|].hist, 1, KeyOf(k, gs[|mvs|]))
            == 1 + (if OwnGaveCheck(gs, m) then 2 else 0) + (if OppGaveCheck(gs, m) then 4 else 0)
  {
    hide Run, Hash, Reversible, GaveCheck, Scan, OwnAllChecks, OppAllChecks, OwnGaveCheck, OppGaveCheck;
    RunLength(k, gs, mvs);
    var n, key := |mvs|, KeyOf(k, gs[|mvs|]);
    NoCaptureSince(k, gs, mvs, j);
    m := Nearest(k, gs, key, j, n, n - 2);
    NearestMatches(k, gs, mvs, j, m);
    ChecksOfRun(k, gs, mvs, m);
    StatusExact(gs[n].hist, key);
  }

  lemma NoCaptureSince(k: KeyTable, gs: seq<Game>, mvs: seq<Move>, j: nat)
    requires Run(k, gs, mvs) && j < |mvs|
    requires gs[j].cells == gs[|mvs|].cells && gs[j].side == gs[|mvs|].side
    ensures j + 2 <= |mvs| && (|mvs| - j) % 2 == 0
    ensures forall i :: j <= i < |mvs| ==> !gs[i].cells[End(mvs[i])].Man?
  {
    hide Run, Recorded, Men;
    RunRecords(k, gs, mvs, |mvs|);
    RunRecords(k, gs, mvs, j);
    MenDecrease(k, gs, mvs, j, |mvs|);
  }

  lemma RunLength(k: KeyTable, gs: seq<Game>, mvs: seq<Move>)
    requires Run(k, gs, mvs)
    ensures |gs| == |mvs| + 1
  {
  }

  lemma NearestMatches(k: KeyTable, gs: seq<Game>, mvs: seq<Move>, j: nat, m: nat)
    requires Run(k, gs, mvs) && j <= m < |mvs| && (|mvs| - m) % 2 == 0
    requires forall i :: j <= i < |mvs| ==> !gs[i].cells[End(mvs[i])].Man?
    requires KeyOf(k, gs[m]) == KeyOf(k, gs[|mvs|])
    requires forall t :: m < t < |mvs| && (|mvs| - t) % 2 == 0 ==> KeyOf(k, gs[t]) != KeyOf(k, gs[|mvs|])
    ensures var h, key := gs[|mvs|].hist, KeyOf(k, gs[|mvs|]);
            Matches(h, key, |gs[0].hist| + m)
            && forall t :: |gs[0].hist| + m < t < |h| ==> !Matches(h, key, t)
  {
    hide Run, KeyOf, GaveCheck;
    RunLength(k, gs, mvs);
    var n, b := |mvs|, |gs[0].hist|;
    var h, key := gs[n].hist, KeyOf(k, gs[n]);
    RecordFacts(k, gs, mvs, m);
    forall t | b + m <= t < |h|
      ensures h[t].mv > 0 && !h[t].capture
    {
      RecordFacts(k, gs, mvs, t - b);
    }
    assert Matches(h, key, b + m);
    forall t | b + m < t < |h|
      ensures !Matches(h, key, t)
    {
      NoLaterMatch(k, gs, mvs, t - b);
    }
  }

  lemma NoLaterMatch(k: KeyTable, gs: seq<Game>, mvs: seq<Move>, i: nat)
    requires Run(k, gs, mvs) && i < |mvs|
    requires (|mvs| - i) % 2 == 0 ==> KeyOf(k, gs[i]) != KeyOf(k, gs[|mvs|])
    ensures !Matches(gs[|mvs|].hist, KeyOf(k, gs[|mvs|]), |gs[0].hist| + i)
  {
    hide Run, KeyOf, Reversible, End, GaveCheck;
    RecordFacts(k, gs, mvs, i);
  }

  lemma RecordFacts(k: KeyTable, gs: seq<Game>, mvs: seq<Move>, i: nat)
    requires Run(k, gs, mvs) && i < |mvs|
    ensures |gs[|mvs|].hist| == |gs[0].hist| + |mvs|
    ensures var r := gs[|mvs|].hist[|gs[0].hist| + i];
            r.mv > 0 && r.capture == gs[i].cells[End(mvs[i])].Man? && r.key == KeyOf(k, gs[i])
            && r.check == GaveCheck(gs[i + 1])
  {
    RunRecords(k, gs, mvs, |mvs|);
    assert Recorded(k, gs[i], mvs[i], gs[i + 1], gs[|mvs|].hist[|gs[0].hist| + i]);
  }

  lemma ChecksOfRun(k: KeyTable, gs: seq<Game>, mvs: seq<Move>, m: nat)
    requires Run(k, gs, mvs) && m < |mvs|
    ensures |gs[|mvs|].hist| == |gs[0].hist| + |mvs|
    ensures OwnAllChecks(gs[|mvs|].hist, |gs[0].hist| + m) == OwnGaveCheck(gs, m)
    ensures OppAllChecks(gs[|mvs|].hist, |gs[0].hist| + m) == OppGaveCheck(gs, m)
  {
    hide Run, GaveCheck, KeyOf;
    RunLength(k, gs, mvs);
    var n, b := |mvs|, |gs[0].hist|;
    RecordFacts(k, gs, mvs, m);
    var h := gs[n].hist;
    forall u | m < u <= n
      ensures h[b + u - 1].check == GaveCheck(gs[u])
    {
      RecordFacts(k, gs, mvs, u - 1);
    }
    ChecksShift(h, gs, b, m);
  }

  /** The checks of the steps from b + m on are those of the positions after them. */
  lemma ChecksShift(h: seq<Rec>, gs: seq<Game>, b: nat, m: nat)
    requires |gs| > 0 && |h| == b + |gs| - 1 && m < |gs| - 1
    requires forall u :: m < u < |gs| ==> h[b + u - 1].check == GaveCheck(gs[u])
    ensures OwnAllChecks(h, b + m) == OwnGaveCheck(gs, m) && OppAllChecks(h, b + m) == OppGaveCheck(gs, m)
  {
    hide GaveCheck;
    forall j | b + m <= j < |h|
      ensures h[j].check == GaveCheck(gs[j - b + 1]) && |h| - j == |gs| - (j - b + 1)
    {
      assert h[b + (j - b + 1) - 1] == h[j];
    }
    forall u | m < u < |gs|
      ensures GaveCheck(gs[u]) == h[b + u - 1].check && |gs| - u == |h| - (b + u - 1)
    {
    }
  }
}
