/** What the loops along rows and columns find, and how lists of targets become lists of
    packed moves. Pure facts behind the walks of cchess_engine/board.cc. */
module Rays {
  import opened Geometry
  import opened Pieces
  import opened Rules

  lemma NoScreenWhenClear(c: Placement, a: Square, b: Square)
    requires ClearLine(c, a, b)
    ensures !OneScreen(c, a, b)
  {
  }

  lemma BetweenAligned(a: Square, q: Square, b: Square)
    requires Between(a, q, b)
    ensures q != b && Aligned(q, b)
  {
  }

  /** The first man s on the way is the only one exactly when the second walk gets to b. */
  lemma ScreenFound(c: Placement, a: Square, s: Square, b: Square, on: Square)
    requires Between(a, s, b) && c[s] != Empty && ClearLine(c, a, s) && ClearLine(c, s, on)
    requires on == b || (Between(s, on, b) && c[on] != Empty)
    ensures OneScreen(c, a, b) <==> on == b
    ensures !ClearLine(c, a, b)
  {
    if on == b {
      assert ScreenAt(c, a, s, b);
    } else {
      forall t: Square
        ensures !ScreenAt(c, a, t, b)
      {
        BetweenNests(a, on, s, b);
      }
    }
  }

  ghost predicate Distinct<T>(s: seq<T>) {
    forall i, j :: 0 <= i < j < |s| ==> s[i] != s[j]
  }

  lemma DistinctAppend<T>(s: seq<T>, x: T)
    requires Distinct(s) && x !in s
    ensures Distinct(s + [x])
  {
  }

  lemma DistinctConcat<T>(s: seq<T>, t: seq<T>)
    requires Distinct(s) && Distinct(t) && forall x :: x in t ==> x !in s
    ensures Distinct(s + t)
  {
    forall i, j | 0 <= i < j < |s + t|
      ensures (s + t)[i] != (s + t)[j]
    {
      if i < |s| <= j {
        assert (s + t)[j] in t;
      }
    }
  }

  lemma {:induction false} DistinctSize<T>(s: seq<T>)
    requires Distinct(s)
    ensures |set x | x in s| == |s|
  {
    if s != [] {
      var n := |s| - 1;
      DistinctSize(s[..n]);
      assert s == s[..n] + [s[n]];
      assert (set x | x in s) == (set x | x in s[..n]) + {s[n]};
      assert s[n] !in s[..n];
    }
  }

  lemma DeltaStep(delta: seq<int>, i: nat)
    requires i < |delta|
    requires delta == KING_DELTA || delta == ADVISOR_DELTA || exists k: nat :: k < 4 && delta == KNIGHT_DELTA[k]
    ensures forall d :: d in delta[..i + 1] <==> d in delta[..i] || d == delta[i]
    ensures delta[i] !in delta[..i] && -33 <= delta[i] <= 33
  {
    assert delta[..i + 1] == delta[..i] + [delta[i]];
  }

  function PackAll(from: Square, ds: seq<Square>): seq<Move> {
    seq(|ds|, i requires 0 <= i < |ds| => Pack(from, ds[i]))
  }

  lemma PackAllExact(from: Square, ds: seq<Square>)
    requires Distinct(ds)
    ensures Distinct(PackAll(from, ds))
    ensures forall mv: Move :: mv in PackAll(from, ds) <==> Start(mv) == from && End(mv) in ds
  {
    forall mv: Move
      ensures mv in PackAll(from, ds) <==> Start(mv) == from && End(mv) in ds
    {
      UnpackPack(mv);
      if Start(mv) == from && End(mv) in ds {
        var i :| 0 <= i < |ds| && ds[i] == End(mv);
        assert PackAll(from, ds)[i] == mv;
      }
      if mv in PackAll(from, ds) {
        var i :| 0 <= i < |ds| && PackAll(from, ds)[i] == mv;
        PackUnpack(from, ds[i]);
      }
    }
    forall i, j | 0 <= i < j < |ds|
      ensures PackAll(from, ds)[i] != PackAll(from, ds)[j]
    {
      PackUnpack(from, ds[i]);
      PackUnpack(from, ds[j]);
    }
  }

  // ---- What a ray offers ----

  /** The generated move of a cannon, all rays together. */
  ghost predicate CannonMove(c: Placement, side: Side, from: Square, to: Square, captures: bool) {
    from != to && InBoard(to) && Aligned(from, to)
    && ((ClearLine(c, from, to) && !captures && c[to] == Empty) || (OneScreen(c, from, to) && Enemy(c, side, to)))
  }

  lemma RookRaysCover(c: Placement, side: Side, from: Square, to: Square, captures: bool)
    ensures (exists j: nat :: j < 4 && RookOnRay(c, side, from, KING_DELTA[j], to, captures)) <==>
            from != to && InBoard(to) && Aligned(from, to) && ClearLine(c, from, to) && Target(c, side, to, captures)
  {
    RaysCover(from, to);
    if from != to && InBoard(to) && Aligned(from, to) && ClearLine(c, from, to) && Target(c, side, to, captures) {
      var i: nat :| i < 4 && OnRay(from, KING_DELTA[i], to);
      assert RookOnRay(c, side, from, KING_DELTA[i], to, captures);
    }
  }

  lemma CannonRaysCover(c: Placement, side: Side, from: Square, to: Square, captures: bool)
    ensures (exists j: nat :: j < 4 && CannonOnRay(c, side, from, KING_DELTA[j], to, captures)) <==>
            CannonMove(c, side, from, to, captures)
  {
    RaysCover(from, to);
    if CannonMove(c, side, from, to, captures) {
      var i: nat :| i < 4 && OnRay(from, KING_DELTA[i], to);
      assert CannonOnRay(c, side, from, KING_DELTA[i], to, captures);
    }
  }

  predicate RookOnRay(c: Placement, side: Side, from: Square, d: int, to: Square, captures: bool) {
    OnRay(from, d, to) && InBoard(to) && ClearLine(c, from, to) && Target(c, side, to, captures)
  }

  ghost predicate CannonOnRay(c: Placement, side: Side, from: Square, d: int, to: Square, captures: bool) {
    OnRay(from, d, to) && InBoard(to)
    && ((ClearLine(c, from, to) && !captures && c[to] == Empty) || (OneScreen(c, from, to) && Enemy(c, side, to)))
  }

  /** Where the first loop along a ray stops: everything before is empty, stop is off the board or a man. */
  ghost predicate FirstStop(c: Placement, from: Square, d: int, stop: Square) {
    && InBoard(from) && d in KING_DELTA && OnRay(from, d, stop)
    && (forall q: Square :: Between(from, q, stop) ==> InBoard(q) && c[q] == Empty)
    && (InBoard(stop) ==> c[stop] != Empty)
  }

  /** A cell of the board on the ray lies before the stop, is the stop, or lies behind it. */
  lemma StopSplits(c: Placement, from: Square, d: int, stop: Square, to: Square)
    requires FirstStop(c, from, d, stop) && OnRay(from, d, to) && InBoard(to)
    ensures Between(from, to, stop) || to == stop || (InBoard(stop) && Between(from, stop, to))
    ensures !Between(from, stop, stop)
    ensures Between(from, to, stop) ==> ClearLine(c, from, to) && to != stop && !Between(from, stop, to)
  {
    RayOrder(from, d, to, stop);
    if !InBoard(stop) {
      RayEnd(from, d, stop, to);
    }
    if Between(from, to, stop) {
      forall q: Square | Between(from, q, to)
        ensures c[q] == Empty
      {
        BetweenNests(from, q, to, stop);
      }
    }
  }

  lemma RookRayEnds(c: Placement, side: Side, from: Square, d: int, stop: Square, captures: bool)
    requires FirstStop(c, from, d, stop)
    ensures !Between(from, stop, stop)
    ensures forall to: Square :: RookOnRay(c, side, from, d, to, captures) <==>
              (!captures && Between(from, to, stop)) || (to == stop && InBoard(stop) && c[stop].side != side)
  {
    forall to: Square
      ensures RookOnRay(c, side, from, d, to, captures) <==>
              (!captures && Between(from, to, stop)) || (to == stop && InBoard(stop) && c[stop].side != side)
    {
      if Between(from, to, stop) {
        OnRayBetween(from, d, to, stop);
      }
      if OnRay(from, d, to) && InBoard(to) {
        StopSplits(c, from, d, stop, to);
      }
    }
  }

  lemma CannonQuietEnds(c: Placement, side: Side, from: Square, d: int, stop: Square, captures: bool)
    requires FirstStop(c, from, d, stop)
    ensures forall to: Square :: !InBoard(stop) || !Between(from, stop, to) ==>
              (CannonOnRay(c, side, from, d, to, captures) <==> !captures && Between(from, to, stop))
    ensures forall to: Square :: InBoard(stop) && Between(from, stop, to) ==>
              (CannonOnRay(c, side, from, d, to, captures) <==>
               OnRay(from, d, to) && InBoard(to) && ClearLine(c, stop, to) && Enemy(c, side, to))
  {
    forall to: Square
      ensures !InBoard(stop) || !Between(from, stop, to) ==>
              (CannonOnRay(c, side, from, d, to, captures) <==> !captures && Between(from, to, stop))
      ensures InBoard(stop) && Between(from, stop, to) ==>
              (CannonOnRay(c, side, from, d, to, captures) <==>
               OnRay(from, d, to) && InBoard(to) && ClearLine(c, stop, to) && Enemy(c, side, to))
    {
      CannonSplit(c, side, from, d, stop, to, captures);
    }
  }

  lemma CannonSplit(c: Placement, side: Side, from: Square, d: int, stop: Square, to: Square, captures: bool)
    requires FirstStop(c, from, d, stop)
    ensures !InBoard(stop) || !Between(from, stop, to) ==>
              (CannonOnRay(c, side, from, d, to, captures) <==> !captures && Between(from, to, stop))
    ensures InBoard(stop) && Between(from, stop, to) ==>
              (CannonOnRay(c, side, from, d, to, captures) <==>
               OnRay(from, d, to) && InBoard(to) && ClearLine(c, stop, to) && Enemy(c, side, to))
  {
    if Between(from, to, stop) {
      OnRayBetween(from, d, to, stop);
    }
    if OnRay(from, d, to) && InBoard(to) {
      StopSplits(c, from, d, stop, to);
      if InBoard(stop) && Between(from, stop, to) {
        ScreenIsStop(c, from, d, stop, to);
      } else {
        if to == stop {
          assert ClearLine(c, from, to);
        }
        NoScreenWhenClear(c, from, to);
      }
    }
  }

  /** Behind the stop, one screen means that the stop is the screen. */
  lemma ScreenIsStop(c: Placement, from: Square, d: int, stop: Square, to: Square)
    requires FirstStop(c, from, d, stop) && InBoard(stop) && Between(from, stop, to)
    ensures OneScreen(c, from, to) <==> ClearLine(c, stop, to)
    ensures !ClearLine(c, from, to)
  {
    if ClearLine(c, stop, to) {
      assert ScreenAt(c, from, stop, to);
    }
    if OneScreen(c, from, to) {
      var s: Square :| ScreenAt(c, from, s, to);
      assert s == stop || Between(from, s, stop) || Between(from, stop, s);
    }
  }

  lemma CannonCaptureEnds(c: Placement, side: Side, from: Square, d: int, screen: Square, target: Square)
    requires FirstStop(c, from, d, screen) && InBoard(screen)
    requires OnRay(from, d, target) && Between(from, screen, target)
    requires forall q: Square :: Between(screen, q, target) ==> InBoard(q) && c[q] == Empty
    requires InBoard(target) ==> c[target] != Empty
    ensures !Between(from, target, screen)
    ensures forall to: Square :: Between(from, screen, to) && OnRay(from, d, to) && InBoard(to) ==>
              (ClearLine(c, screen, to) && Enemy(c, side, to) <==> to == target && c[target].side != side)
  {
    RayOrder(from, d, screen, target);
    forall to: Square | Between(from, screen, to) && OnRay(from, d, to) && InBoard(to)
      ensures ClearLine(c, screen, to) && Enemy(c, side, to) <==> to == target && c[target].side != side
    {
      RayOrder(from, d, to, target);
      if !InBoard(target) {
        RayEnd(from, d, target, to);
      }
    }
  }

  /** A knight on from gets to to over one of its first n legs. */
  ghost predicate JumpOver(c: Placement, from: Square, n: nat, to: Square)
    requires InBoard(from) && n <= 4
  {
    exists j: nat :: j < n && Leg(c, from, j, to)
  }

  lemma JumpsAre(c: Placement, from: Square)
    requires InBoard(from)
    ensures forall to: Square :: JumpOver(c, from, 4, to) <==>
              exists i: nat :: i < 4 && to - from in KNIGHT_DELTA[i] && c[from + KING_DELTA[i]] == Empty
  {
    forall to: Square
      ensures JumpOver(c, from, 4, to) <==>
              exists i: nat :: i < 4 && to - from in KNIGHT_DELTA[i] && c[from + KING_DELTA[i]] == Empty
    {
      if i: nat :| i < 4 && to - from in KNIGHT_DELTA[i] && c[from + KING_DELTA[i]] == Empty {
        assert Leg(c, from, i, to);
      }
    }
  }

  lemma NoJump(c: Placement, from: Square)
    requires InBoard(from)
    ensures forall to: Square :: !JumpOver(c, from, 0, to)
  {
  }

  /** One leg more: two jumps more if it is free, and none of them over an earlier leg. */
  lemma JumpOverStep(c: Placement, from: Square, i: nat)
    requires InBoard(from) && i < 4
    ensures forall to: Square :: JumpOver(c, from, i + 1, to) <==>
              JumpOver(c, from, i, to) || Leg(c, from, i, to)
    ensures forall to: Square :: to - from in KNIGHT_DELTA[i] ==> !JumpOver(c, from, i, to)
  {
    forall to: Square
      ensures JumpOver(c, from, i + 1, to) <==>
              JumpOver(c, from, i, to) || Leg(c, from, i, to)
      ensures to - from in KNIGHT_DELTA[i] ==> !JumpOver(c, from, i, to)
    {
      JumpOverOneMore(c, from, i, to);
    }
  }

  /** The jumps over leg j. */
  predicate Leg(c: Placement, from: Square, j: nat, to: Square)
    requires InBoard(from) && j < 4
  {
    to - from in KNIGHT_DELTA[j] && c[from + KING_DELTA[j]] == Empty
  }

  lemma JumpOverOneMore(c: Placement, from: Square, i: nat, to: Square)
    requires InBoard(from) && i < 4
    ensures JumpOver(c, from, i + 1, to) <==> JumpOver(c, from, i, to) || Leg(c, from, i, to)
    ensures to - from in KNIGHT_DELTA[i] ==> !JumpOver(c, from, i, to)
  {
    hide Leg;
    LegsAre(c, from, to);
    if to - from in KNIGHT_DELTA[i] {
      JumpsDisjoint(to - from, i);
    }
  }

  lemma LegsAre(c: Placement, from: Square, to: Square)
    requires InBoard(from)
    ensures forall j: nat :: j < 4 && Leg(c, from, j, to) ==> to - from in KNIGHT_DELTA[j]
  {
  }

  lemma JumpsDisjoint(d: int, i: nat)
    requires i < 4 && d in KNIGHT_DELTA[i]
    ensures forall j: nat :: j < 4 && j != i ==> d !in KNIGHT_DELTA[j]
  {
  }
}
