/** Sides, kinds, placements and the quantities the engine keeps up to date while pieces
    move: the Zobrist triple and the material of each side
    (cchess_engine/player_piece.h, zobrist_helper.h, constants.h). */
module Pieces {
  import opened Geometry

  datatype Side = Red | Black {
    function Other(): Side { if Red? then Black else Red }
  }

  datatype Kind = King | Advisor | Bishop | Knight | Rook | Cannon | Pawn

  datatype Cell = Empty | Man(side: Side, kind: Kind)

  type Placement = c: seq<Cell> | |c| == 256 witness seq(256, _ => Empty)

  // ---- Zobrist triples ----

  datatype Zobrist = Zobrist(key: bv32, lock1: bv32, lock2: bv32)

  const ZERO := Zobrist(0, 0, 0)

  function WordXor(a: bv32, b: bv32): bv32 { a ^ b }

  function Xor(a: Zobrist, b: Zobrist): Zobrist {
    Zobrist(WordXor(a.key, b.key), WordXor(a.lock1, b.lock1), WordXor(a.lock2, b.lock2))
  }

  lemma WordLaws(a: bv32, b: bv32, c: bv32)
    ensures WordXor(a, WordXor(b, c)) == WordXor(WordXor(a, b), c)
    ensures WordXor(a, b) == WordXor(b, a)
    ensures WordXor(a, a) == 0
    ensures WordXor(a, 0) == a && WordXor(0, a) == a
  {
  }

  lemma XorLaws(a: Zobrist, b: Zobrist, c: Zobrist)
    ensures Xor(a, Xor(b, c)) == Xor(Xor(a, b), c)
    ensures Xor(a, b) == Xor(b, a)
    ensures Xor(a, a) == ZERO
    ensures Xor(a, ZERO) == a && Xor(ZERO, a) == a
  {
    hide WordXor;
    WordLaws(a.key, b.key, c.key);
    WordLaws(a.lock1, b.lock1, c.lock1);
    WordLaws(a.lock2, b.lock2, c.lock2);
  }

  lemma XorCancel(a: Zobrist, b: Zobrist)
    ensures Xor(Xor(a, b), b) == a
  {
    hide Xor;
    XorLaws(a, b, b);
    XorLaws(b, b, b);
  }

  lemma XorSwap(a: Zobrist, b: Zobrist, c: Zobrist)
    ensures Xor(Xor(a, b), c) == Xor(Xor(a, c), b)
  {
    hide Xor;
    XorLaws(a, b, c);
    XorLaws(a, c, b);
    XorLaws(b, c, a);
  }

  /** The key table: any table will do, the engine's comes from a fixed RC4 stream. */
  datatype KeyTable = KeyTable(player: Zobrist, piece: (Side, Kind, int) -> Zobrist)

  function CellKey(k: KeyTable, x: Cell, p: int): Zobrist {
    if x.Empty? then ZERO else k.piece(x.side, x.kind, p)
  }

  function XorAll(s: seq<Zobrist>): Zobrist {
    if s == [] then ZERO else Xor(XorAll(s[..|s| - 1]), s[|s| - 1])
  }

  function CellKeys(k: KeyTable, c: Placement): seq<Zobrist> {
    seq(256, p requires 0 <= p < 256 => CellKey(k, c[p], p))
  }

  /** The key of a placement alone; the side key enters when Black is to move. */
  function PlacementHash(k: KeyTable, c: Placement): Zobrist {
    XorAll(CellKeys(k, c))
  }

  function Hash(k: KeyTable, c: Placement, side: Side): Zobrist {
    if side == Black then Xor(PlacementHash(k, c), k.player) else PlacementHash(k, c)
  }

  lemma {:induction false} XorAllUpdate(s: seq<Zobrist>, i: nat, x: Zobrist)
    requires i < |s|
    ensures XorAll(s[i := x]) == Xor(Xor(XorAll(s), s[i]), x)
  {
    hide Xor;
    var n := |s| - 1;
    var t := s[i := x];
    var r := XorAll(s[..n]);
    if i == n {
      assert t[..n] == s[..n];
      XorCancel(r, s[i]);
    } else {
      XorAllUpdate(s[..n], i, x);
      assert t[..n] == s[..n][i := x];
      XorSwap(Xor(r, s[i]), x, s[n]);
      XorSwap(r, s[i], s[n]);
    }
  }

  /** Replacing one cell changes the key by the two cells' keys. */
  lemma HashUpdate(k: KeyTable, c: Placement, p: Square, x: Cell)
    ensures PlacementHash(k, c[p := x]) ==
            Xor(Xor(PlacementHash(k, c), CellKey(k, c[p], p)), CellKey(k, x, p))
  {
    assert CellKeys(k, c[p := x]) == CellKeys(k, c)[p := CellKey(k, x, p)];
    XorAllUpdate(CellKeys(k, c), p, CellKey(k, x, p));
  }

  /** The running triple, side key included, changes the same way. */
  lemma HashSet(k: KeyTable, c: Placement, side: Side, p: Square, x: Cell)
    ensures Hash(k, c[p := x], side) == Xor(Xor(Hash(k, c, side), CellKey(k, c[p], p)), CellKey(k, x, p))
  {
    HashUpdate(k, c, p, x);
    hide Xor, PlacementHash;
    var h := PlacementHash(k, c);
    XorSwap(Xor(h, CellKey(k, c[p], p)), CellKey(k, x, p), k.player);
    XorSwap(h, CellKey(k, c[p], p), k.player);
  }

  // ---- Piece values ----

  function KnightRow(row: int): (r: seq<int>)
    requires 3 <= row <= 12
    ensures |r| == 9 && forall i :: 0 <= i < 9 ==> 0 <= r[i] <= 108
  {
    match row
    case 3 => [90, 90, 90, 96, 90, 96, 90, 90, 90]
    case 4 => [90, 96, 103, 97, 94, 97, 103, 96, 90]
    case 5 => [92, 98, 99, 103, 99, 103, 99, 98, 92]
    case 6 => [93, 108, 100, 107, 100, 107, 100, 108, 93]
    case 7 => [90, 100, 99, 103, 104, 103, 99, 100, 90]
    case 8 => [90, 98, 101, 102, 103, 102, 101, 98, 90]
    case 9 => [92, 94, 98, 95, 98, 95, 98, 94, 92]
    case 10 => [93, 92, 94, 95, 92, 95, 94, 92, 93]
    case 11 => [85, 90, 92, 93, 78, 93, 92, 90, 85]
    case _ => [88, 85, 90, 88, 90, 88, 90, 85, 88]
  }

  function RookRow(row: int): (r: seq<int>)
    requires 3 <= row <= 12
    ensures |r| == 9 && forall i :: 0 <= i < 9 ==> 0 <= r[i] <= 233
  {
    match row
    case 3 => [206, 208, 207, 213, 214, 213, 207, 208, 206]
    case 4 => [206, 212, 209, 216, 233, 216, 209, 212, 206]
    case 5 => [206, 208, 207, 214, 216, 214, 207, 208, 206]
    case 6 => [206, 213, 213, 216, 216, 216, 213, 213, 206]
    case 7 => [208, 211, 211, 214, 215, 214, 211, 211, 208]
    case 8 => [208, 212, 212, 214, 215, 214, 212, 212, 208]
    case 9 => [204, 209, 204, 212, 214, 212, 204, 209, 204]
    case 10 => [198, 208, 204, 212, 212, 212, 204, 208, 198]
    case 11 => [200, 208, 206, 212, 200, 212, 206, 208, 200]
    case _ => [194, 206, 204, 212, 200, 212, 204, 206, 194]
  }

  function CannonRow(row: int): (r: seq<int>)
    requires 3 <= row <= 12
    ensures |r| == 9 && forall i :: 0 <= i < 9 ==> 0 <= r[i] <= 101
  {
    match row
    case 3 => [100, 100, 96, 91, 90, 91, 96, 100, 100]
    case 4 => [98, 98, 96, 92, 89, 92, 96, 98, 98]
    case 5 => [97, 97, 96, 91, 92, 91, 96, 97, 97]
    case 6 => [96, 99, 99, 98, 100, 98, 99, 99, 96]
    case 7 => [96, 96, 96, 96, 100, 96, 96, 96, 96]
    case 8 => [95, 96, 99, 96, 100, 96, 99, 96, 95]
    case 9 => [96, 96, 96, 96, 96, 96, 96, 96, 96]
    case 10 => [97, 96, 100, 99, 101, 99, 100, 96, 97]
    case 11 => [96, 97, 98, 98, 98, 98, 98, 97, 96]
    case _ => [96, 96, 97, 99, 99, 99, 97, 96, 96]
  }

  function PawnRow(row: int): (r: seq<int>)
    requires 3 <= row <= 12
    ensures |r| == 9 && forall i :: 0 <= i < 9 ==> 0 <= r[i] <= 44
  {
    match row
    case 3 => [9, 9, 9, 11, 13, 11, 9, 9, 9]
    case 4 => [19, 24, 34, 42, 44, 42, 34, 24, 19]
    case 5 => [19, 24, 32, 37, 37, 37, 32, 24, 19]
    case 6 => [19, 23, 27, 29, 30, 29, 27, 23, 19]
    case 7 => [14, 18, 20, 27, 29, 27, 20, 18, 14]
    case 8 => [7, 0, 13, 0, 16, 0, 13, 0, 7]
    case 9 => [7, 0, 7, 0, 15, 0, 7, 0, 7]
    case 10 => [0, 0, 0, 0, 0, 0, 0, 0, 0]
    case 11 => [0, 0, 0, 0, 0, 0, 0, 0, 0]
    case _ => [0, 0, 0, 0, 0, 0, 0, 0, 0]
  }

  /** The value tables, seen from the side that plays upwards. */
  function TableValue(kind: Kind, p: Square): (v: int)
    ensures 0 <= v <= MaxValue(kind)
  {
    var row, col := Row(p), Col(p);
    match kind
    case King => (
      if 6 <= col <= 8 && row == 10 then 1
      else if 6 <= col <= 8 && row == 11 then 2
      else if row == 12 && (col == 6 || col == 8) then 11
      else if row == 12 && col == 7 then 15
      else 0)
    case Advisor => (
      if (row == 10 || row == 12) && (col == 6 || col == 8) then 20
      else if row == 11 && col == 7 then 23
      else 0)
    case Bishop => (
      if (row == 8 || row == 12) && (col == 5 || col == 9) then 20
      else if row == 10 && (col == 3 || col == 11) then 18
      else if row == 10 && col == 7 then 23
      else 0)
    case Knight => if InBoard(p) then KnightRow(row)[col - 3] else 0
    case Rook => if InBoard(p) then RookRow(row)[col - 3] else 0
    case Cannon => if InBoard(p) then CannonRow(row)[col - 3] else 0
    case Pawn => if InBoard(p) then PawnRow(row)[col - 3] else 0
  }

  function MaxValue(kind: Kind): int {
    match kind
    case King => 15
    case Advisor => 23
    case Bishop => 23
    case Knight => 108
    case Rook => 233
    case Cannon => 101
    case Pawn => 44
  }

  /** What a man is worth where it stands; Black reads the tables turned around. */
  function ManValue(side: Side, kind: Kind, p: Square): int
    requires InBoard(p)
  {
    TableValue(kind, if side == Red then p else 254 - p)
  }

  // ---- Totals over a placement ----

  function Sum(s: seq<int>): int {
    if s == [] then 0 else Sum(s[..|s| - 1]) + s[|s| - 1]
  }

  function Weights(c: Placement, f: (Cell, int) -> int): seq<int> {
    seq(256, p requires 0 <= p < 256 => f(c[p], p))
  }

  function Total(c: Placement, f: (Cell, int) -> int): int {
    Sum(Weights(c, f))
  }

  lemma {:induction false} SumUpdate(s: seq<int>, i: nat, x: int)
    requires i < |s|
    ensures Sum(s[i := x]) == Sum(s) - s[i] + x
  {
    var n := |s| - 1;
    if i == n {
      assert s[i := x][..n] == s[..n];
    } else {
      SumUpdate(s[..n], i, x);
      assert s[i := x][..n] == s[..n][i := x];
    }
  }

  lemma TotalUpdate(c: Placement, f: (Cell, int) -> int, p: Square, x: Cell)
    ensures Total(c[p := x], f) == Total(c, f) - f(c[p], p) + f(x, p)
  {
    assert Weights(c[p := x], f) == Weights(c, f)[p := f(x, p)];
    SumUpdate(Weights(c, f), p, f(x, p));
  }

  function MaterialOf(side: Side): (Cell, int) -> int {
    (x: Cell, p: int) =>
      if x.Man? && x.side == side && 0 <= p < 256 && InBoard(p) then ManValue(side, x.kind, p) else 0
  }

  function OneIf(m: Cell): (Cell, int) -> int {
    (x: Cell, p: int) => if x == m then 1 else 0
  }

  function AnyMan(): (Cell, int) -> int {
    (x: Cell, p: int) => if x.Man? then 1 else 0
  }

  /** The material of a side, recomputed from the placement. */
  function Material(c: Placement, side: Side): int { Total(c, MaterialOf(side)) }

  /** How many men of one side and kind stand on the board. */
  function Count(c: Placement, m: Cell): int { Total(c, OneIf(m)) }

  function Men(c: Placement): int { Total(c, AnyMan()) }

  /** The largest army a game starts with: 1/2/2/2/2/2/5. */
  function ArmyBound(kind: Kind): int {
    match kind case King => 1 case Pawn => 5 case _ => 2
  }

  predicate ArmySized(c: Placement, side: Side) {
    forall kind: Kind :: Count(c, Man(side, kind)) <= ArmyBound(kind)
  }

  function Term(k: seq<Cell>, side: Side, kind: Kind, w: Kind -> int): int {
    Tally(k, Man(side, kind)) * w(kind)
  }

  function ArmySum(k: seq<Cell>, side: Side, w: Kind -> int): int {
    Term(k, side, King, w) + Term(k, side, Advisor, w) + Term(k, side, Bishop, w) + Term(k, side, Knight, w)
    + Term(k, side, Rook, w) + Term(k, side, Cannon, w) + Term(k, side, Pawn, w)
  }

  /** A total whose weights are bounded kind by kind is bounded by the army. */
  lemma {:induction false} SumBound(v: seq<int>, k: seq<Cell>, side: Side, w: Kind -> int)
    requires |v| == |k|
    requires forall i :: 0 <= i < |v| ==>
               v[i] <= if k[i].Man? && k[i].side == side then w(k[i].kind) else 0
    ensures Sum(v) <= ArmySum(k, side, w)
  {
    if v != [] {
      SumBound(v[..|v| - 1], k[..|v| - 1], side, w);
      ArmySumStep(k, side, w);
    }
  }

  lemma ArmySumStep(k: seq<Cell>, side: Side, w: Kind -> int)
    requires k != []
    ensures ArmySum(k, side, w) == ArmySum(k[..|k| - 1], side, w)
                                   + var x := k[|k| - 1]; if x.Man? && x.side == side then w(x.kind) else 0
  {
    forall kind: Kind
      ensures Term(k, side, kind, w) == Term(k[..|k| - 1], side, kind, w)
                                        + if k[|k| - 1] == Man(side, kind) then w(kind) else 0
    {
      TallyStep(k, Man(side, kind), w(kind));
    }
    var x := k[|k| - 1];
    if x.Man? && x.side == side {
      match x.kind {
        case King => case Advisor => case Bishop => case Knight => case Rook => case Cannon => case Pawn =>
      }
    }
  }

  lemma TallyStep(k: seq<Cell>, m: Cell, w: int)
    requires k != []
    ensures Tally(k, m) * w == Tally(k[..|k| - 1], m) * w + if k[|k| - 1] == m then w else 0
  {
    TimesNext(Tally(k[..|k| - 1], m), w);
  }

  lemma TimesNext(t: int, w: int)
    ensures (t + 1) * w == t * w + w
  {
  }

  function Tally(k: seq<Cell>, m: Cell): nat {
    if k == [] then 0 else Tally(k[..|k| - 1], m) + if k[|k| - 1] == m then 1 else 0
  }

  lemma {:induction false} CountIsTally(c: Placement, m: Cell, n: nat)
    requires n <= 256
    ensures Sum(Weights(c, OneIf(m))[..n]) == Tally(c[..n], m)
  {
    if n > 0 {
      CountIsTally(c, m, n - 1);
      assert Weights(c, OneIf(m))[..n][..n - 1] == Weights(c, OneIf(m))[..n - 1];
      assert c[..n][..n - 1] == c[..n - 1];
    }
  }

  function Nothing(): Placement { seq(256, _ => Empty) }

  lemma {:induction false} XorAllZero(s: seq<Zobrist>)
    requires forall i :: 0 <= i < |s| ==> s[i] == ZERO
    ensures XorAll(s) == ZERO
  {
    if s != [] {
      XorAllZero(s[..|s| - 1]);
      XorLaws(ZERO, ZERO, ZERO);
    }
  }

  lemma {:induction false} SumZero(s: seq<int>)
    requires forall i :: 0 <= i < |s| ==> s[i] == 0
    ensures Sum(s) == 0
  {
    if s != [] {
      SumZero(s[..|s| - 1]);
    }
  }

  /** The caches of the empty board. */
  lemma EmptyCaches(k: KeyTable)
    ensures Hash(k, Nothing(), Red) == ZERO && Material(Nothing(), Red) == 0 && Material(Nothing(), Black) == 0
  {
    XorAllZero(CellKeys(k, Nothing()));
    SumZero(Weights(Nothing(), MaterialOf(Red)));
    SumZero(Weights(Nothing(), MaterialOf(Black)));
  }

  /** With an army of at most 1/2/2/2/2/2/5 a total weighted by kind is at most w applied to that army. */
  lemma ArmyTotal(c: Placement, side: Side, f: (Cell, int) -> int, w: Kind -> int)
    requires ArmySized(c, side)
    requires forall kind: Kind :: 0 <= w(kind)
    requires forall p: Square :: f(c[p], p) <= if c[p].Man? && c[p].side == side then w(c[p].kind) else 0
    ensures Total(c, f) <= w(King) + 2 * w(Advisor) + 2 * w(Bishop) + 2 * w(Knight) + 2 * w(Rook)
                           + 2 * w(Cannon) + 5 * w(Pawn)
  {
    SumBound(Weights(c, f), c, side, w);
    TallyBound(c, Man(side, King), w(King));
    TallyBound(c, Man(side, Advisor), w(Advisor));
    TallyBound(c, Man(side, Bishop), w(Bishop));
    TallyBound(c, Man(side, Knight), w(Knight));
    TallyBound(c, Man(side, Rook), w(Rook));
    TallyBound(c, Man(side, Cannon), w(Cannon));
    TallyBound(c, Man(side, Pawn), w(Pawn));
  }

  lemma TallyBound(c: Placement, m: Cell, w: int)
    requires m.Man? && Count(c, m) <= ArmyBound(m.kind) && 0 <= w
    ensures Tally(c, m) * w <= ArmyBound(m.kind) * w
  {
    CountIsTally(c, m, 256);
    assert c[..256] == c;
    assert Weights(c, OneIf(m))[..256] == Weights(c, OneIf(m));
    MulMono(Tally(c, m), ArmyBound(m.kind), w);
  }

  lemma MulMono(a: int, b: int, w: int)
    requires a <= b && 0 <= w
    ensures a * w <= b * w
  {
  }

  lemma {:induction false} SumNonNegative(v: seq<int>)
    requires forall i :: 0 <= i < |v| ==> 0 <= v[i]
    ensures 0 <= Sum(v)
  {
    if v != [] {
      SumNonNegative(v[..|v| - 1]);
    }
  }

  /** No army is worth more than 1211 by the value tables. */
  lemma MaterialBound(c: Placement, side: Side)
    requires ArmySized(c, side)
    ensures 0 <= Material(c, side) <= 1211
  {
    ArmyTotal(c, side, MaterialOf(side), MaxValue);
    SumNonNegative(Weights(c, MaterialOf(side)));
  }
}
