/** The text form of a position: what toFen prints and what initFromFen reads
    (cchess_engine/board.cc). */
module Fen {
  import opened Geometry
  import opened Pieces
  import opened Rules

  function Letter(x: Cell): char
    requires x.Man?
  {
    var i := match x.kind
      case King => 0
      case Advisor => 1
      case Bishop => 2
      case Knight => 3
      case Rook => 4
      case Cannon => 5
      case Pawn => 6;
    if x.side == Red then "KABNRCP"[i] else "kabnrcp"[i]
  }

  /** The man a letter stands for; Empty if none. */
  function ManOf(ch: char): Cell {
    match ch
    case 'K' => Man(Red, King)
    case 'A' => Man(Red, Advisor)
    case 'B' => Man(Red, Bishop)
    case 'N' => Man(Red, Knight)
    case 'R' => Man(Red, Rook)
    case 'C' => Man(Red, Cannon)
    case 'P' => Man(Red, Pawn)
    case 'k' => Man(Black, King)
    case 'a' => Man(Black, Advisor)
    case 'b' => Man(Black, Bishop)
    case 'n' => Man(Black, Knight)
    case 'r' => Man(Black, Rook)
    case 'c' => Man(Black, Cannon)
    case 'p' => Man(Black, Pawn)
    case _ => Empty
  }

  lemma LetterRoundTrip(x: Cell)
    requires x.Man?
    ensures ManOf(Letter(x)) == x && IsLetter(Letter(x)) && !IsDigit(Letter(x)) && !IsSpace(Letter(x))
  {
    match x.kind {
      case King => case Advisor => case Bishop => case Knight => case Rook => case Cannon => case Pawn =>
    }
  }

  predicate IsDigit(ch: char) { '0' <= ch <= '9' }

  predicate IsLetter(ch: char) { 'a' <= ch <= 'z' || 'A' <= ch <= 'Z' }

  predicate IsSpace(ch: char) { ch == ' ' || 9 as char <= ch <= 13 as char }

  /** The six white-space characters of the C locale. */
  lemma Spaces(ch: char)
    ensures IsSpace(ch) <==> ch in [' ', '\t', '\n', '\r', 11 as char, 12 as char]
  {
  }

  function Digit(n: nat): (ch: char)
    requires n <= 9
    ensures IsDigit(ch) && DigitValue(ch) == n && !IsLetter(ch) && !IsSpace(ch) && ch != '/'
  {
    ('0' as int + n) as char
  }

  function DigitValue(ch: char): int
    requires IsDigit(ch)
  {
    ch as int - '0' as int
  }

  /** A run of n empty cells, if any. */
  function EmptyRun(n: nat): string
    requires n <= 9
  {
    if n == 0 then "" else [Digit(n)]
  }

  function SideLetter(side: Side): char { if side == Red then 'w' else 'b' }

  function CellAt(c: Placement, row: nat, col: nat): Cell
    requires row < 10 && col < 9
  {
    c[ToPos(row, col)]
  }

  /** What is printed from cell (row, col) on, with a run of n empty cells pending. */
  function Print(c: Placement, side: Side, row: nat, col: nat, n: nat): string
    requires row < 10 && col <= 9 && n <= col
    decreases 10 - row, 9 - col
  {
    if col == 9 then
      EmptyRun(n) + if row == 9 then [' ', SideLetter(side)] else "/" + Print(c, side, row + 1, 0, 0)
    else if CellAt(c, row, col).Man? then
      EmptyRun(n) + [Letter(CellAt(c, row, col))] + Print(c, side, row, col + 1, 0)
    else
      Print(c, side, row, col + 1, n + 1)
  }

  /** toFen. */
  function Text(c: Placement, side: Side): string { Print(c, side, 0, 0, 0) }

  lemma TextIs(c: Placement, side: Side)
    ensures "" + Print(c, side, 0, 0, 0) == Text(c, side)
  {
  }

  datatype Loaded = Loaded(cells: Placement, side: Side) | Bad

  /** initFromFen from cell (row, col) on, over the cells set so far. Bad stands for texts the
      source does not defend against: no terminator, a letter that is no piece, a man off the
      board. */
  function Load(s: string, row: nat, col: nat, c: Placement): Loaded
    decreases |s|
  {
    if s == "" then Bad
    else if IsSpace(s[0]) then Loaded(c, if |s| > 1 && s[1] == 'b' then Black else Red)
    else if IsDigit(s[0]) then Load(s[1..], row, col + DigitValue(s[0]), c)
    else if IsLetter(s[0]) then
      if ManOf(s[0]).Man? && row < 10 && col < 9 then
        Load(s[1..], row, col + 1, c[ToPos(row, col) := ManOf(s[0])])
      else Bad
    else if s[0] == '/' then Load(s[1..], row + 1, 0, c)
    else Load(s[1..], row, col, c)
  }

  /** resetFromFen, on the empty board. */
  function LoadAll(s: string): Loaded { Load(s, 0, 0, Nothing()) }

  // ---- Loading what was printed ----

  /** The men of c on cells before (row, col) in reading order. */
  function Before(c: Placement, row: nat, col: nat): Placement
    requires row < 10 && col <= 9
  {
    seq(256, p requires 0 <= p < 256 => if p < ToPos(row, col) then c[p] else Empty)
  }

  lemma BeforeAt(c: Placement, row: nat, col: nat, p: Square)
    requires row < 10 && col <= 9
    ensures Before(c, row, col)[p] == if p < ToPos(row, col) then c[p] else Empty
  {
  }

  lemma BeforeStep(c: Placement, row: nat, col: nat)
    requires row < 10 && col < 9
    ensures CellAt(Before(c, row, col), row, col) == Empty
    ensures Before(c, row, col + 1) == Before(c, row, col)[ToPos(row, col) := CellAt(c, row, col)]
  {
    var a, b := Before(c, row, col + 1), Before(c, row, col)[ToPos(row, col) := CellAt(c, row, col)];
    BeforeAt(c, row, col, ToPos(row, col));
    forall p: Square
      ensures a[p] == b[p]
    {
      BeforeAt(c, row, col, p);
      BeforeAt(c, row, col + 1, p);
    }
  }

  lemma SetEmpty(c: Placement, row: nat, col: nat)
    requires row < 10 && col < 9 && CellAt(c, row, col) == Empty
    ensures c[ToPos(row, col) := Empty] == c
  {
  }

  lemma BeforeNextRow(c: Placement, row: nat)
    requires row < 9 && OnBoard(c)
    ensures Before(c, row + 1, 0) == Before(c, row, 9)
  {
    forall p: Square
      ensures Before(c, row + 1, 0)[p] == Before(c, row, 9)[p]
    {
      BeforeAt(c, row + 1, 0, p);
      BeforeAt(c, row, 9, p);
      if ToPos(row, 9) <= p < ToPos(row + 1, 0) {
        RowGap(row, p);
      }
    }
  }

  lemma BeforeAll(c: Placement)
    requires OnBoard(c)
    ensures Before(c, 0, 0) == Nothing() && Before(c, 9, 9) == c
  {
    forall p: Square | p < ToPos(0, 0) || p >= ToPos(9, 9)
      ensures c[p] == Empty
    {
      Coordinates(p);
    }
  }

  lemma LoadRun(n: nat, rest: string, row: nat, col: nat, c: Placement)
    requires n <= 9
    ensures Load(EmptyRun(n) + rest, row, col, c) == Load(rest, row, col + n, c)
  {
    if n == 0 {
      assert EmptyRun(n) + rest == rest;
    } else {
      assert (EmptyRun(n) + rest)[0] == Digit(n) && (EmptyRun(n) + rest)[1..] == rest;
    }
  }

  lemma {:induction false} LoadPrint(c: Placement, side: Side, row: nat, col: nat, n: nat)
    requires row < 10 && col <= 9 && n <= col && OnBoard(c)
    ensures Load(Print(c, side, row, col, n), row, col - n, Before(c, row, col)) == Loaded(c, side)
    decreases 10 - row, 9 - col
  {
    hide Before, OnBoard, Print, Load, CellAt;
    if col == 9 {
      if row < 9 {
        LoadPrint(c, side, row + 1, 0, 0);
      }
      LoadRowEnd(c, side, row, n);
    } else if CellAt(c, row, col).Man? {
      LoadPrint(c, side, row, col + 1, 0);
      LoadMan(c, side, row, col, n);
    } else {
      LoadPrint(c, side, row, col + 1, n + 1);
      PrintEmpty(c, side, row, col, n);
      BeforeStep(c, row, col);
      SetEmpty(Before(c, row, col), row, col);
    }
  }

  lemma PrintMan(c: Placement, side: Side, row: nat, col: nat, n: nat)
    requires row < 10 && col < 9 && n <= col && CellAt(c, row, col).Man?
    ensures Print(c, side, row, col,
      n) == EmptyRun(n) + ([Letter(CellAt(c, row, col))] + Print(c, side, row, col + 1, 0))
  {
    hide Letter, CellAt, EmptyRun;
  }

  lemma PrintEmpty(c: Placement, side: Side, row: nat, col: nat, n: nat)
    requires row < 10 && col < 9 && n <= col && CellAt(c, row, col).Empty?
    ensures Print(c, side, row, col, n) == Print(c, side, row, col + 1, n + 1)
  {
  }

  lemma PrintEnd(c: Placement, side: Side, row: nat, n: nat)
    requires row < 10 && n <= 9
    ensures Print(c, side, row, 9,
      n) == EmptyRun(n) + (if row == 9 then [' ', SideLetter(side)] else "/" + Print(c, side, row + 1, 0, 0))
  {
  }

  /** Printing a man: the pending run and the letter move from what is to come to what was printed. */
  lemma PrintedMan(fen: string, run: string, letter: char, rest: string)
    ensures fen + (run + ([letter] + rest)) == fen + run + [letter] + rest
  {
  }

  lemma PrintedRun(fen: string, run: string, rest: string)
    ensures fen + (run + rest) == fen + run + rest
  {
  }

  lemma LoadLetter(x: Cell, rest: string, row: nat, col: nat, c: Placement)
    requires x.Man? && row < 10 && col < 9 && CellAt(c, row, col).Empty?
    ensures Load([Letter(x)] + rest, row, col, c) == Load(rest, row, col + 1, c[ToPos(row, col) := x])
  {
    hide Letter, ManOf, IsLetter, IsDigit, IsSpace;
    LetterRoundTrip(x);
    var s := [Letter(x)] + rest;
    assert s[1..] == rest && s[0] == Letter(x);
  }

  lemma LoadMan(c: Placement, side: Side, row: nat, col: nat, n: nat)
    requires row < 10 && col < 9 && n <= col && CellAt(c, row, col).Man?
    requires Load(Print(c, side, row, col + 1, 0), row, col + 1, Before(c, row, col + 1)) == Loaded(c, side)
    ensures Load(Print(c, side, row, col, n), row, col - n, Before(c, row, col)) == Loaded(c, side)
  {
    hide Before, Letter, Print, Load, CellAt;
    var b, x, rest := Before(c, row, col), CellAt(c, row, col), Print(c, side, row, col + 1, 0);
    BeforeStep(c, row, col);
    PrintMan(c, side, row, col, n);
    LoadRun(n, [Letter(x)] + rest, row, col - n, b);
    LoadLetter(x, rest, row, col, b);
  }

  lemma LoadRowEnd(c: Placement, side: Side, row: nat, n: nat)
    requires row < 10 && n <= 9 && OnBoard(c)
    requires row < 9 ==> Load(Print(c, side, row + 1, 0, 0), row + 1, 0, Before(c, row + 1, 0)) == Loaded(c, side)
    ensures Load(Print(c, side, row, 9, n), row, 9 - n, Before(c, row, 9)) == Loaded(c, side)
  {
    var b := Before(c, row, 9);
    if row == 9 {
      BeforeAll(c);
      LoadRun(n, [' ', SideLetter(side)], row, 9 - n, b);
    } else {
      BeforeNextRow(c, row);
      var rest := Print(c, side, row + 1, 0, 0);
      LoadRun(n, "/" + rest, row, 9 - n, b);
      assert ("/" + rest)[1..] == rest;
    }
  }

  /** resetFromFen(toFen()) restores the placement and the side to move. */
  lemma LoadText(c: Placement, side: Side)
    requires OnBoard(c)
    ensures LoadAll(Text(c, side)) == Loaded(c, side)
  {
    hide Print, Load, Before, OnBoard;
    LoadPrint(c, side, 0, 0, 0);
    BeforeAll(c);
  }

  // ---- Printing what was loaded ----

  /** A text written without needless freedom from cell (row, col) on: runs are maximal, rows are
      full, and the side letter ends it. */
  predicate Canonical(s: string, row: nat, col: nat, afterRun: bool)
    requires row < 10 && col <= 9
    decreases |s|
  {
    && s != ""
    && if col == 9 then
        (if row == 9 then s == " w" || s == " b" else s[0] == '/' && Canonical(s[1..], row + 1, 0, false))
      else if IsDigit(s[0]) then
        !afterRun && 1 <= DigitValue(s[0]) <= 9 - col && Canonical(s[1..], row, col + DigitValue(s[0]), true)
      else
        ManOf(s[0]).Man? && Canonical(s[1..], row, col + 1, false)
  }

  /** Loading reaches an end whose cells from (row, col) on come from the text, the others from c. */
  ghost predicate Reads(s: string, row: nat, col: nat, c: Placement, t: Placement, side: Side)
    requires row < 10 && col <= 9
  {
    && Load(s, row, col, c) == Loaded(t, side)
    && forall p: Square :: p < ToPos(row, col) ==> t[p] == c[p]
  }

  lemma LetterOfMan(ch: char)
    requires ManOf(ch).Man?
    ensures Letter(ManOf(ch)) == ch && IsLetter(ch) && !IsDigit(ch) && !IsSpace(ch)
  {
  }

  lemma {:induction false} PrintSkip(c: Placement, side: Side, row: nat, col: nat, n: nat, k: nat)
    requires row < 10 && col + k <= 9 && n <= col
    requires forall j: nat :: col <= j < col + k ==> CellAt(c, row, j).Empty?
    ensures Print(c, side, row, col, n) == Print(c, side, row, col + k, n + k)
    decreases k
  {
    if k > 0 {
      PrintSkip(c, side, row, col + 1, n + 1, k - 1);
    }
  }

  /** After a maximal run the next thing printed is a letter or the row's end. */
  lemma PrintAfterRun(c: Placement, side: Side, row: nat, col: nat, n: nat)
    requires row < 10 && col <= 9 && n <= col && (col == 9 || CellAt(c, row, col).Man?)
    ensures Print(c, side, row, col, n) == EmptyRun(n) + Print(c, side, row, col, 0)
  {
  }

  /** A canonical text loads, and the loaded placement agrees with the cells before it. */
  lemma {:induction false} CanonicalLoads(s: string, row: nat, col: nat, afterRun: bool, c: Placement)
      returns (t: Placement, side: Side)
    requires row < 10 && col <= 9 && Canonical(s, row, col, afterRun)
    requires forall p: Square :: p >= ToPos(row, col) ==> c[p] == Empty
    requires OnBoard(c)
    ensures Reads(s, row, col, c, t, side) && OnBoard(t)
    ensures afterRun ==> col == 9 || CellAt(t, row, col).Man?
    ensures s == Print(t, side, row, col, 0)
    decreases |s|
  {
    hide OnBoard;
    if col == 9 {
      if row == 9 {
        t, side := c, if s == " w" then Red else Black;
      } else {
        t, side := CanonicalLoads(s[1..], row + 1, 0, false, c);
        assert s == "/" + s[1..];
      }
    } else if IsDigit(s[0]) {
      t, side := CanonicalLoads(s[1..], row, col + DigitValue(s[0]), true, c);
      ReadsRun(s, row, col, c, t, side);
    } else {
      var p := ToPos(row, col);
      StillOnBoard(c, row, col, ManOf(s[0]));
      t, side := CanonicalLoads(s[1..], row, col + 1, false, c[p := ManOf(s[0])]);
      ReadsMan(s, row, col, c, t, side);
    }
  }

  lemma StillOnBoard(c: Placement, row: nat, col: nat, x: Cell)
    requires row < 10 && col < 9 && OnBoard(c)
    ensures OnBoard(c[ToPos(row, col) := x])
  {
    Coordinates(ToPos(row, col));
  }

  lemma ReadsRun(s: string, row: nat, col: nat, c: Placement, t: Placement, side: Side)
    requires row < 10 && col < 9 && s != "" && IsDigit(s[0]) && 1 <= DigitValue(s[0]) <= 9 - col
    requires forall p: Square :: p >= ToPos(row, col) ==> c[p] == Empty
    requires Reads(s[1..], row, col + DigitValue(s[0]), c, t, side)
    requires col + DigitValue(s[0]) == 9 || CellAt(t, row, col + DigitValue(s[0])).Man?
    requires s[1..] == Print(t, side, row, col + DigitValue(s[0]), 0)
    ensures Reads(s, row, col, c, t, side) && s == Print(t, side, row, col, 0)
  {
    hide Print, Load, CellAt, EmptyRun, IsLetter, IsSpace;
    var d := DigitValue(s[0]);
    RunEmpty(c, t, row, col, d);
    LoadDigit(s, row, col, c);
    PrintSkip(t, side, row, col, 0, d);
    PrintAfterRun(t, side, row, col + d, d);
    assert s == [s[0]] + s[1..];
  }

  lemma RunEmpty(c: Placement, t: Placement, row: nat, col: nat, d: nat)
    requires row < 10 && col + d <= 9
    requires forall p: Square :: p >= ToPos(row, col) ==> c[p] == Empty
    requires forall p: Square :: p < ToPos(row, col + d) ==> t[p] == c[p]
    ensures forall j: nat :: col <= j < col + d ==> CellAt(t, row, j).Empty?
  {
    forall j: nat | col <= j < col + d
      ensures CellAt(t, row, j).Empty?
    {
      assert t[ToPos(row, j)] == c[ToPos(row, j)];
    }
  }

  lemma LoadDigit(s: string, row: nat, col: nat, c: Placement)
    requires s != "" && IsDigit(s[0]) && row < 10
    ensures Load(s, row, col, c) == Load(s[1..], row, col + DigitValue(s[0]), c)
    ensures EmptyRun(DigitValue(s[0])) == if DigitValue(s[0]) == 0 then "" else [s[0]]
  {
  }

  lemma ReadsMan(s: string, row: nat, col: nat, c: Placement, t: Placement, side: Side)
    requires row < 10 && col < 9 && s != "" && ManOf(s[0]).Man?
    requires forall p: Square :: p >= ToPos(row, col) ==> c[p] == Empty
    requires Reads(s[1..], row, col + 1, c[ToPos(row, col) := ManOf(s[0])], t, side)
    requires s[1..] == Print(t, side, row, col + 1, 0)
    ensures CellAt(t, row, col).Man?
    ensures Reads(s, row, col, c, t, side) && s == Print(t, side, row, col, 0)
  {
    hide Letter, ManOf, IsLetter, IsDigit, IsSpace;
    LetterOfMan(s[0]);
    assert t[ToPos(row, col)] == ManOf(s[0]);
    assert s == [s[0]] + s[1..];
  }

  /** toFen of a loaded canonical text is that text. */
  lemma TextOfLoaded(s: string)
    requires Canonical(s, 0, 0, false)
    ensures LoadAll(s).Loaded? && OnBoard(LoadAll(s).cells) && Text(LoadAll(s).cells, LoadAll(s).side) == s
  {
    var t, side := CanonicalLoads(s, 0, 0, false, Nothing());
  }

  /** toFen prints canonical texts only. */
  lemma {:induction false} PrintCanonical(c: Placement, side: Side, row: nat, col: nat, n: nat)
    requires row < 10 && col <= 9 && n <= col
    ensures Canonical(Print(c, side, row, col, n), row, col - n, false)
    ensures n == 0 && (col == 9 || CellAt(c, row, col).Man?) ==> Canonical(Print(c, side, row, col, n), row, col, true)
    decreases 10 - row, 9 - col, n
  {
    hide Canonical, Print, CellAt, Letter, ManOf;
    if n > 0 && (col == 9 || CellAt(c, row, col).Man?) {
      PrintCanonical(c, side, row, col, 0);
      PrintAfterRun(c, side, row, col, n);
      CanonicalRun(n, Print(c, side, row, col, 0), row, col);
    } else if col == 9 {
      PrintEnd(c, side, row, 0);
      if row < 9 {
        PrintCanonical(c, side, row + 1, 0, 0);
        CanonicalRow(Print(c, side, row + 1, 0, 0), row);
      } else {
        CanonicalEnd(side);
      }
    } else if CellAt(c, row, col).Man? {
      PrintCanonical(c, side, row, col + 1, 0);
      PrintMan(c, side, row, col, 0);
      CanonicalMan(CellAt(c, row, col), Print(c, side, row, col + 1, 0), row, col);
    } else {
      PrintEmpty(c, side, row, col, n);
      PrintCanonical(c, side, row, col + 1, n + 1);
    }
  }

  lemma CanonicalRun(n: nat, rest: string, row: nat, col: nat)
    requires row < 10 && 1 <= n <= col <= 9 && Canonical(rest, row, col, true)
    ensures Canonical(EmptyRun(n) + rest, row, col - n, false)
  {
    assert (EmptyRun(n) + rest)[1..] == rest;
  }

  lemma CanonicalRow(rest: string, row: nat)
    requires row < 9 && Canonical(rest, row + 1, 0, false)
    ensures Canonical("" + ("/" + rest), row, 9, false) && Canonical("" + ("/" + rest), row, 9, true)
  {
    assert ("" + ("/" + rest))[1..] == rest;
  }

  lemma CanonicalEnd(side: Side)
    ensures Canonical("" + [' ', SideLetter(side)], 9, 9, false) && Canonical("" + [' ', SideLetter(side)], 9, 9, true)
  {
    assert "" + [' ', SideLetter(side)] == if side == Red then " w" else " b";
  }

  lemma CanonicalMan(x: Cell, rest: string, row: nat, col: nat)
    requires x.Man? && row < 10 && col < 9 && Canonical(rest, row, col + 1, false)
    ensures Canonical("" + ([Letter(x)] + rest), row, col, false)
      && Canonical("" + ([Letter(x)] + rest), row, col, true)
  {
    hide Letter, ManOf, IsLetter, IsDigit, IsSpace;
    LetterRoundTrip(x);
    var s := "" + ([Letter(x)] + rest);
    assert s[1..] == rest && s[0] == Letter(x);
  }

  // ---- How long the text is ----

  /** The men from cell (row, col) on. */
  function MenFrom(c: Placement, row: nat, col: nat): nat
    requires row < 10 && col <= 9
    decreases 10 - row, 9 - col
  {
    if col == 9 then (if row == 9 then 0 else MenFrom(c, row + 1, 0))
    else (if CellAt(c, row, col).Man? then 1 else 0) + MenFrom(c, row, col + 1)
  }

  lemma {:induction false} PrintLength(c: Placement, side: Side, row: nat, col: nat, n: nat)
    requires row < 10 && col <= 9 && n <= col
    ensures |Print(c, side, row, col, n)| <= 2 * MenFrom(c, row, col) + 2 * (9 - row) + 3
    decreases 10 - row, 9 - col
  {
    if col == 9 {
      if row < 9 {
        PrintLength(c, side, row + 1, 0, 0);
      }
    } else if CellAt(c, row, col).Man? {
      PrintLength(c, side, row, col + 1, 0);
    } else {
      PrintLength(c, side, row, col + 1, n + 1);
    }
  }

  lemma {:induction false} NoMenBetween(c: Placement, a: nat, b: nat)
    requires a <= b <= 256 && forall p: Square :: a <= p < b ==> c[p] == Empty
    ensures Sum(Weights(c, AnyMan())[..b]) == Sum(Weights(c, AnyMan())[..a])
    decreases b - a
  {
    if a < b {
      NoMenBetween(c, a, b - 1);
      assert Weights(c, AnyMan())[..b][..b - 1] == Weights(c, AnyMan())[..b - 1];
    }
  }

  lemma OffBoardEmpty(c: Placement, p: Square)
    requires OnBoard(c) && !InBoard(p)
    ensures c[p] == Empty
  {
  }

  lemma RowGap(row: nat, p: Square)
    requires row <= 9 && ToPos(row, 9) <= p && (p < ToPos(row + 1, 0) || row == 9)
    ensures !InBoard(p)
  {
    Coordinates(p);
  }

  lemma {:induction false} MenFromCounts(c: Placement, row: nat, col: nat)
    requires row < 10 && col <= 9 && OnBoard(c)
    ensures Sum(Weights(c, AnyMan())[..ToPos(row, col)]) + MenFrom(c, row, col) == Men(c)
    decreases 10 - row, 9 - col
  {
    var w := Weights(c, AnyMan());
    if col == 9 {
      var next := if row == 9 then 256 else ToPos(row + 1, 0);
      forall p: Square | ToPos(row, 9) <= p < next
        ensures c[p] == Empty
      {
        RowGap(row, p);
        OffBoardEmpty(c, p);
      }
      NoMenBetween(c, ToPos(row, 9), next);
      if row < 9 {
        MenFromCounts(c, row + 1, 0);
      } else {
        assert w[..256] == w;
      }
    } else {
      MenFromCounts(c, row, col + 1);
      var p := ToPos(row, col);
      assert w[..p + 1][..p] == w[..p];
    }
  }

  /** With at most 32 men the text has at most 85 characters, so the 100-byte buffer holds it. */
  lemma TextFits(c: Placement, side: Side)
    requires OnBoard(c) && Men(c) <= 32
    ensures |Text(c, side)| <= 85
  {
    PrintLength(c, side, 0, 0, 0);
    MenFromCounts(c, 0, 0);
    SumNonNegative(Weights(c, AnyMan())[..ToPos(0, 0)]);
  }

  // ---- Loading onto a board, man by man ----

  /** At most one king of a side. */
  predicate OneKing(c: Placement, side: Side) {
    forall p: Square, q: Square :: KingOn(c, side, p) && KingOn(c, side, q) ==> p == q
  }

  predicate KingOn(c: Placement, side: Side, p: Square) { c[p] == Man(side, King) }

  predicate HasKing(c: Placement, side: Side) { exists p: Square :: KingOn(c, side, p) }

  /** k is the last square, in reading order, with a king of the side. */
  ghost predicate LastKing(c: Placement, side: Side, k: Square) {
    KingOn(c, side, k) && forall p: Square :: KingOn(c, side, p) ==> p <= k
  }

  function OfSide(side: Side): (Cell, int) -> int {
    (x: Cell, p: int) => if x.Man? && x.side == side then 1 else 0
  }

  function SideMen(c: Placement, side: Side): int { Total(c, OfSide(side)) }

  /** A text the engine can hold: it loads, with at most 16 men a side. */
  ghost predicate Loadable(s: string) {
    LoadAll(s).Loaded? && Fits(LoadAll(s).cells)
  }

  ghost predicate Fits(c: Placement) {
    SideMen(c, Red) <= 16 && SideMen(c, Black) <= 16
  }

  /** All men stand on cells before (row, col) in reading order, so no text puts two men on a cell. */
  predicate Ahead(c: Placement, row: nat, col: nat) {
    forall p: Square :: c[p].Man? ==> p < ToPos(row, if col < 9 then col else 9)
  }

  lemma AheadAt(c: Placement, row: nat, col: nat)
    requires Ahead(c, row, col) && row < 10 && col < 9
    ensures CellAt(c, row, col) == Empty
  {
  }

  lemma AheadNext(c: Placement, row: nat, col: nat, d: nat)
    requires Ahead(c, row, col)
    ensures Ahead(c, row, col + d) && Ahead(c, row + 1, 0)
  {
  }

  lemma AheadMan(c: Placement, row: nat, col: nat, x: Cell)
    requires Ahead(c, row, col) && row < 10 && col < 9
    ensures Ahead(c[ToPos(row, col) := x], row, col + 1)
  {
  }

  /** Loading only adds men. */
  lemma {:induction false} LoadAdds(s: string, row: nat, col: nat, c: Placement)
    requires Load(s, row, col, c).Loaded? && Ahead(c, row, col)
    ensures forall p: Square :: c[p].Man? ==> Load(s, row, col, c).cells[p] == c[p]
    decreases |s|
  {
    hide Ahead, IsLetter, ManOf, IsSpace;
    if s == "" || IsSpace(s[0]) {
    } else if IsDigit(s[0]) {
      AheadNext(c, row, col, DigitValue(s[0]));
      LoadAdds(s[1..], row, col + DigitValue(s[0]), c);
    } else if IsLetter(s[0]) {
      AheadAt(c, row, col);
      AheadMan(c, row, col, ManOf(s[0]));
      LoadAdds(s[1..], row, col + 1, c[ToPos(row, col) := ManOf(s[0])]);
    } else if s[0] == '/' {
      AheadNext(c, row, col, 0);
      LoadAdds(s[1..], row + 1, 0, c);
    } else {
      LoadAdds(s[1..], row, col, c);
    }
  }

  lemma {:induction false} SumMono(v: seq<int>, w: seq<int>)
    requires |v| == |w| && forall i :: 0 <= i < |v| ==> v[i] <= w[i]
    ensures Sum(v) <= Sum(w)
  {
    if v != [] {
      SumMono(v[..|v| - 1], w[..|w| - 1]);
    }
  }

  /** A placement whose men all stand in t too fits if t does. */
  lemma FitsBelow(c: Placement, t: Placement)
    requires forall p: Square :: c[p].Man? ==> t[p] == c[p]
    requires Fits(t)
    ensures Fits(c)
  {
    hide SideMen;
    FewerMen(c, t, Red);
    FewerMen(c, t, Black);
  }

  lemma FewerMen(c: Placement, t: Placement, side: Side)
    requires forall p: Square :: c[p].Man? ==> t[p] == c[p]
    ensures SideMen(c, side) <= SideMen(t, side)
  {
    SumMono(Weights(c, OfSide(side)), Weights(t, OfSide(side)));
  }

  lemma SideMenAdd(c: Placement, p: Square, x: Cell)
    requires c[p] == Empty && x.Man?
    ensures SideMen(c[p := x], x.side) == SideMen(c, x.side) + 1
    ensures SideMen(c[p := x], x.side.Other()) == SideMen(c, x.side.Other())
  {
    TotalUpdate(c, OfSide(Red), p, x);
    TotalUpdate(c, OfSide(Black), p, x);
  }

  lemma SideMenNone(side: Side)
    ensures SideMen(Nothing(), side) == 0
  {
    SumZero(Weights(Nothing(), OfSide(side)));
  }

  lemma MenBySide(c: Placement)
    ensures Men(c) == SideMen(c, Red) + SideMen(c, Black)
  {
    SumSplit(Weights(c, AnyMan()), Weights(c, OfSide(Red)), Weights(c, OfSide(Black)));
  }

  lemma {:induction false} SumSplit(u: seq<int>, v: seq<int>, w: seq<int>)
    requires |u| == |v| == |w| && forall i :: 0 <= i < |u| ==> u[i] == v[i] + w[i]
    ensures Sum(u) == Sum(v) + Sum(w)
  {
    if u != [] {
      SumSplit(u[..|u| - 1], v[..|v| - 1], w[..|w| - 1]);
    }
  }

  // ---- The steps of the reading loop ----

  lemma LoadStarts(s: string)
    requires LoadAll(s).Loaded?
    ensures s != "" && Load(s, 0, 0, Nothing()) == LoadAll(s) && Ahead(Nothing(), 0, 0)
  {
  }

  /** What the loop does with a character that is not the separator. */
  lemma LoadStep(s: string, row: nat, col: nat, c: Placement)
    requires s != "" && !IsSpace(s[0]) && Load(s, row, col, c).Loaded? && Ahead(c, row, col)
    ensures |s| > 1
    ensures IsDigit(s[0]) ==>
              && 0 <= DigitValue(s[0]) && Load(s, row, col, c) == Load(s[1..], row, col + DigitValue(s[0]), c)
              && Ahead(c, row, col + DigitValue(s[0]))
    ensures !IsDigit(s[0]) && IsLetter(s[0]) ==>
              && ManOf(s[0]).Man? && row < 10 && col < 9 && InBoard(ToPos(row, col)) && c[ToPos(row, col)] == Empty
              && Load(s, row, col, c) == Load(s[1..], row, col + 1, c[ToPos(row, col) := ManOf(s[0])])
              && Ahead(c[ToPos(row, col) := ManOf(s[0])], row, col + 1)
              && forall p: Square :: c[p].Man? ==> p < ToPos(row, col)
    ensures !IsDigit(s[0]) && IsLetter(s[0]) && Fits(Load(s, row, col, c).cells) ==>
              Fits(c[ToPos(row, col) := ManOf(s[0])])
    ensures !IsDigit(s[0]) && !IsLetter(s[0]) && s[0] == '/' ==>
              Load(s, row, col, c) == Load(s[1..], row + 1, 0, c) && Ahead(c, row + 1, 0)
    ensures !IsDigit(s[0]) && !IsLetter(s[0]) && s[0] != '/' ==> Load(s, row, col, c) == Load(s[1..], row, col, c)
  {
    hide Fits, ManOf;
    assert s[1..] != "";
    AheadNext(c, row, col, if IsDigit(s[0]) then DigitValue(s[0]) else 0);
    if !IsDigit(s[0]) && IsLetter(s[0]) {
      AheadMan(c, row, col, ManOf(s[0]));
      Coordinates(ToPos(row, col));
      var d := c[ToPos(row, col) := ManOf(s[0])];
      LoadAdds(s[1..], row, col + 1, d);
      if Fits(Load(s, row, col, c).cells) {
        FitsBelow(d, Load(s, row, col, c).cells);
      }
    }
  }

  lemma LoadStops(s: string, row: nat, col: nat, c: Placement)
    requires s != "" && IsSpace(s[0])
    ensures Load(s, row, col, c) == Loaded(c, if |s| > 1 && s[1] == 'b' then Black else Red)
  {
  }

  /** Room for one more man of a placement that still fits. */
  lemma RoomFor(c: Placement, p: Square, x: Cell, hasKing: bool, n: nat)
    requires c[p] == Empty && x.Man? && Fits(c[p := x]) && Tallied(c, x.side, n, hasKing)
    ensures n < 16
  {
    hide Total;
    SideMenAdd(c, p, x);
  }

  /** A side of a placement has n men, and a king or none. */
  ghost predicate Tallied(c: Placement, side: Side, n: nat, hasKing: bool) {
    n == SideMen(c, side) && (hasKing <==> HasKing(c, side))
  }

  lemma TalliedAdd(c: Placement, p: Square, x: Cell, side: Side, n: nat, hasKing: bool)
    requires c[p] == Empty && x.Man? && Tallied(c, side, n, hasKing)
    ensures Tallied(c[p := x], side, if side == x.side then n + 1 else n, hasKing || x == Man(side, King))
  {
    hide Total;
    SideMenAdd(c, p, x);
    if hasKing {
      var q: Square :| KingOn(c, side, q);
      assert KingOn(c[p := x], side, q);
    }
    if x == Man(side, King) {
      assert KingOn(c[p := x], side, p);
    }
    var d := c[p := x];
    assert forall q: Square :: KingOn(d, side, q) && q != p ==> KingOn(c, side, q);
  }
}
