/** Which moves the staged move picker has handed out at each stage: pure bookkeeping behind the
    sorter of cchess_engine/search_engine.cc. */
module Picker {
  import opened Geometry
  import opened Rules
  import opened Rays
  import opened Play

  /** The stages in their order. */
  datatype Stage = Table | Killer1 | Killer2 | Generate | Rest {
    function Rank(): nat {
      match this case Table => 0 case Killer1 => 1 case Killer2 => 2 case Generate => 3 case Rest => 4
    }
  }

  /** The three moves tried ahead of the generated ones; 0 stands for none. */
  datatype Hints = Hints(table: Move, killer1: Move, killer2: Move) {
    predicate Has(mv: Move) { mv == table || mv == killer1 || mv == killer2 }
  }

  ghost predicate Wanted(g: Game, mv: Move) {
    IsGenerated(g, mv, false) && Safe(g, mv)
  }

  /** A hint that was passed over or handed out: if it is a wanted move, it was handed out. */
  ghost predicate Settled(g: Game, mv: Move, given: seq<Move>) {
    mv != 0 && Wanted(g, mv) ==> mv in given
  }

  /** Where a move handed out by the given stage may come from. */
  predicate Source(h: Hints, stage: Stage, tried: seq<Move>, mv: Move) {
    || (stage.Rank() > 0 && mv == h.table)
    || (stage.Rank() > 1 && mv == h.killer1)
    || (stage.Rank() > 2 && mv == h.killer2)
    || (stage == Rest && mv in tried)
  }

  /** The state of the picker: what it has given out covers what it has left behind. */
  ghost predicate Picking(g: Game, h: Hints, stage: Stage, mvs: seq<Move>, idx: nat, given: seq<Move>) {
    && Distinct(given) && 0 !in given
    && (stage.Rank() > 0 ==> Settled(g, h.table, given))
    && (stage.Rank() > 1 ==> Settled(g, h.killer1, given))
    && (stage.Rank() > 2 ==> Settled(g, h.killer2, given))
    && (stage == Rest ==> Listed(g, mvs) && idx <= |mvs| && forall mv :: mv in mvs[..idx] ==> h.Has(mv) || mv in given)
    && (forall mv :: mv in given ==> Source(h, stage, if stage == Rest && idx <= |mvs| then mvs[..idx] else [], mv))
    && (forall mv :: mv in given ==>
      mv == h.table || LegalMove(g, mv) || IsGenerated(g, mv, false) || !InBoard(End(mv)))
  }

  /** mvs are the generated moves, each once. */
  ghost predicate Listed(g: Game, mvs: seq<Move>) {
    Distinct(mvs) && forall mv: Move :: mv in mvs <==> IsGenerated(g, mv, false)
  }

  /** Every generated move that leaves the own king safe was handed out. */
  ghost predicate Covered(g: Game, given: seq<Move>) {
    forall mv: Move :: Wanted(g, mv) ==> mv in given
  }

  lemma GeneratedNonzero(g: Game, mv: Move)
    requires IsGenerated(g, mv, false)
    ensures mv != 0
  {
  }

  lemma GivenGrows(g: Game, mv: Move, given: seq<Move>, x: Move)
    ensures Settled(g, mv, given) ==> Settled(g, mv, given + [x])
  {
  }

  lemma GivesTable(g: Game, h: Hints, mvs: seq<Move>, idx: nat)
    requires Picking(g, h, Table, mvs, idx, [])
    ensures Picking(g, h, Killer1, mvs, idx, if h.table != 0 then [h.table] else [])
  {
    hide IsGenerated, LegalMove, Safe;
  }

  lemma GivesKiller1(g: Game, h: Hints, mvs: seq<Move>, idx: nat, given: seq<Move>, legal: bool)
    requires Picking(g, h, Killer1, mvs, idx, given)
    requires h.killer1 != 0 && h.killer1 != h.table && InBoard(End(h.killer1)) ==> legal == LegalMove(g, h.killer1)
    requires WellPlaced(g)
    ensures Picking(g, h, Killer2, mvs, idx,
                    if h.killer1 != 0 && h.killer1 != h.table && legal then given + [h.killer1] else given)
  {
    hide IsGenerated, Safe, Pseudo, WellPlaced;
    WantedLegal(g, h.killer1);
    GivenGrows(g, h.table, given, h.killer1);
    if h.killer1 != 0 && h.killer1 != h.table && legal {
      DistinctAppend(given, h.killer1);
    }
  }

  lemma GivesKiller2(g: Game, h: Hints, mvs: seq<Move>, idx: nat, given: seq<Move>, legal: bool)
    requires Picking(g, h, Killer2, mvs, idx, given)
    requires h.killer2 != 0 && h.killer2 != h.table && h.killer2 != h.killer1 && InBoard(End(h.killer2)) ==>
               legal == LegalMove(g, h.killer2)
    requires WellPlaced(g)
    ensures Picking(g, h, Generate, mvs, idx,
                    if h.killer2 != 0 && h.killer2 != h.table && h.killer2 != h.killer1 && legal
                    then given + [h.killer2] else given)
  {
    hide IsGenerated, Safe, Pseudo, WellPlaced;
    WantedLegal(g, h.killer2);
    GivenGrows(g, h.table, given, h.killer2);
    GivenGrows(g, h.killer1, given, h.killer2);
    if h.killer2 != 0 && h.killer2 != h.table && h.killer2 != h.killer1 && legal {
      DistinctAppend(given, h.killer2);
    }
  }

  lemma PseudoEnds(g: Game, mv: Move)
    requires Pseudo(g, mv)
    ensures InBoard(End(mv))
  {
  }

  lemma WantedLegal(g: Game, mv: Move)
    requires WellPlaced(g)
    ensures Wanted(g, mv) ==> LegalMove(g, mv) && InBoard(End(mv))
  {
    hide Pseudo, Safe, IsGenerated, WellPlaced;
    if Wanted(g, mv) {
      IsGeneratedPseudo(g, mv, false);
      PseudoEnds(g, mv);
    }
  }

  lemma GivesRest(g: Game, h: Hints, mvs: seq<Move>, idx: nat, given: seq<Move>)
    requires Picking(g, h, Rest, mvs, idx, given) && idx < |mvs|
    ensures Picking(g, h, Rest, mvs, idx + 1, if h.Has(mvs[idx]) then given else given + [mvs[idx]])
    ensures mvs[idx] != 0
  {
    hide Safe, IsGenerated;
    GeneratedNonzero(g, mvs[idx]);
    assert mvs[..idx + 1] == mvs[..idx] + [mvs[idx]];
    var x := mvs[idx];
    GivenGrows(g, h.table, given, x);
    GivenGrows(g, h.killer1, given, x);
    GivenGrows(g, h.killer2, given, x);
    if !h.Has(x) {
      assert x !in mvs[..idx];
      DistinctAppend(given, x);
    }
  }

  /** When the list is used up, nothing is missing. */
  lemma RestCovers(g: Game, h: Hints, mvs: seq<Move>, given: seq<Move>)
    requires Picking(g, h, Rest, mvs, |mvs|, given)
    ensures Covered(g, given)
  {
    hide Safe, IsGenerated;
    assert mvs[..|mvs|] == mvs;
    forall mv: Move | Wanted(g, mv)
      ensures mv in given
    {
      GeneratedNonzero(g, mv);
    }
  }

  /** What was given can be tried on the board, if the table move can. */
  lemma GivenPseudo(g: Game, h: Hints, stage: Stage, mvs: seq<Move>, idx: nat, given: seq<Move>, mv: Move)
    requires WellPlaced(g) && Picking(g, h, stage, mvs, idx, given) && mv in given
    requires h.killer1 == 0 || InBoard(End(h.killer1))
    requires h.killer2 == 0 || InBoard(End(h.killer2))
    ensures mv == h.table || Pseudo(g, mv)
  {
    hide Pseudo, IsGenerated, WellPlaced, Safe;
    if IsGenerated(g, mv, false) {
      IsGeneratedPseudo(g, mv, false);
    }
    if stage == Rest && mv in mvs {
      assert IsGenerated(g, mv, false);
    }
  }
}
