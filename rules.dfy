/**
 * The rules of tic-tac-toe as `tictactoe.py` states them, on a snapshot of the board: a list of
 * rows, each a list of cell strings ("" for an empty cell). The spot parsing and range checks of
 * `GameState.place_piece` and the scan of `GameState.get_winner` are functions here; the class in
 * game.dfy runs them against the mutable board.
 */
module Rules {
  import opened Wrappers
  import opened Numerals

  /** A board snapshot: `g[i][j]` is the cell at row `i`, column `j`. */
  type Grid = seq<seq<string>>

  /** A (row, column) position. */
  type Coord = (nat, nat)

  const Empty: string := ""
  const X: string := "x"
  const O: string := "o"

  /** Every row is as long as the board has rows. */
  predicate Square(g: Grid) {
    forall i :: 0 <= i < |g| ==> |g[i]| == |g|
  }

  /** The board that `empty_board(n)` builds, as a value. */
  function EmptyGrid(n: nat): (g: Grid)
    ensures |g| == n && Square(g)
    ensures forall i, j :: 0 <= i < n && 0 <= j < n ==> g[i][j] == Empty
  {
    seq(n, _ => seq(n, _ => Empty))
  }

  /** The grid with the single cell (row, col) overwritten by `piece`. */
  function Put(g: Grid, row: nat, col: nat, piece: string): Grid
    requires row < |g| && col < |g[row]|
  {
    g[row := g[row][col := piece]]
  }

  /** Writing one cell changes that cell and no other, and keeps the shape of the grid. */
  lemma PutChangesOneCell(g: Grid, row: nat, col: nat, piece: string)
    requires row < |g| && col < |g[row]|
    ensures |Put(g, row, col, piece)| == |g|
    ensures forall i :: 0 <= i < |g| ==> |Put(g, row, col, piece)[i]| == |g[i]|
    ensures forall i, j :: 0 <= i < |g| && 0 <= j < |g[i]| ==>
      Put(g, row, col, piece)[i][j] == if i == row && j == col then piece else g[i][j]
  {
  }

  // ---------------------------------------------------------------------------------------------
  // place_piece: parsing the spot and checking it
  // ---------------------------------------------------------------------------------------------

  /** Why `place_piece` raises. */
  datatype PlaceError =
    | SpotTooShort      // `spot[0]` or `spot[1]` does not exist: IndexError
    | NotADigit         // `int()` of a spot character fails: ValueError
    | RowOutOfRange     // the row is greater than the side length: ValueError
    | ColumnOutOfRange  // the column is greater than the side length: ValueError
    | IndexOutOfRange   // `self._board[row][col]` indexes past a list: IndexError
    | SpotTaken         // the cell is not empty: ValueError

  /**
   * The cell `place_piece(piece, spot)` writes on a board `g` whose recorded side length is
   * `side`, or the error it raises. The range checks compare with `>`, so a coordinate equal to
   * the side length passes them and fails only when the list is indexed.
   */
  function PlaceTarget(g: Grid, side: int, spot: string): (r: Result<Coord, PlaceError>)
    ensures r.Ok? ==> r.value.0 < |g| && r.value.1 < |g[r.value.0]|
    ensures r.Ok? ==> g[r.value.0][r.value.1] == Empty
    ensures r.Ok? ==> |spot| >= 2 && DigitValue(spot[0]) == Some(r.value.0)
                      && DigitValue(spot[1]) == Some(r.value.1)
  {
    if |spot| == 0 then Err(SpotTooShort)
    else match DigitValue(spot[0])
      case None => Err(NotADigit)
      case Some(row) =>
        if |spot| == 1 then Err(SpotTooShort)
        else match DigitValue(spot[1])
          case None => Err(NotADigit)
          case Some(col) =>
            // a digit is never negative, so of the two-sided checks only `> side` can fire
            if row > side then Err(RowOutOfRange)
            else if col > side then Err(ColumnOutOfRange)
            else if row >= |g| || col >= |g[row]| then Err(IndexOutOfRange)
            else if g[row][col] != Empty then Err(SpotTaken)
            else Ok((row, col))
  }

  /** What `place_piece` raises for a target, or None when it writes the cell. */
  function ErrorOf(r: Result<Coord, PlaceError>): Option<PlaceError> {
    if r.Err? then Some(r.error) else None
  }

  /** Every empty cell of a square board whose row and column are below 10 is reached by its two-digit spot. */
  lemma PlaceAcceptsEmptyCell(g: Grid, row: nat, col: nat, spot: string)
    requires Square(g) && row < |g| && col < |g| && row < 10 && col < 10
    requires |spot| >= 2 && spot[0] == DigitChar(row) && spot[1] == DigitChar(col)
    requires g[row][col] == Empty
    ensures PlaceTarget(g, |g|, spot) == Ok((row, col))
  {
    DigitRoundTrip(row);
    DigitRoundTrip(col);
  }

  /** A spot naming an occupied cell is refused. */
  lemma PlaceRefusesTakenCell(g: Grid, row: nat, col: nat, spot: string)
    requires Square(g) && row < |g| && col < |g| && row < 10 && col < 10
    requires |spot| >= 2 && spot[0] == DigitChar(row) && spot[1] == DigitChar(col)
    requires g[row][col] != Empty
    ensures PlaceTarget(g, |g|, spot) == Err(SpotTaken)
  {
    DigitRoundTrip(row);
    DigitRoundTrip(col);
  }

  /**
   * On a square board every coordinate at or past the side length is refused: one greater than
   * the side by the range checks, one equal to the side only by the failing list index.
   */
  lemma PlaceRefusesOutside(g: Grid, spot: string)
    requires Square(g) && |spot| >= 2 && IsDigit(spot[0]) && IsDigit(spot[1])
    requires DigitValue(spot[0]).value >= |g| || DigitValue(spot[1]).value >= |g|
    ensures var row, col := DigitValue(spot[0]).value, DigitValue(spot[1]).value;
      PlaceTarget(g, |g|, spot) ==
        if row > |g| then Err(RowOutOfRange)
        else if col > |g| then Err(ColumnOutOfRange)
        else Err(IndexOutOfRange)
  {
  }

  /** A spot whose first or second character is not a digit is refused by `int()`. */
  lemma PlaceRefusesNonDigit(g: Grid, side: int, spot: string)
    requires |spot| >= 2 && (!IsDigit(spot[0]) || !IsDigit(spot[1]))
    ensures PlaceTarget(g, side, spot) == Err(NotADigit)
  {
  }

  /** Spot "33" on an empty 3-by-3 board: the range check lets it through and indexing fails. */
  lemma PlaceThreeThreeOnThreeByThree()
    ensures PlaceTarget(EmptyGrid(3), 3, "33") == Err(IndexOutOfRange)
  {
    assert DigitValue('3') == Some(3);
  }

  /** Once a piece is written, placing anything on the same spot again is refused. */
  lemma PlaceThenTaken(g: Grid, side: int, spot: string, piece: string)
    requires PlaceTarget(g, side, spot).Ok? && piece != Empty
    ensures var (row, col) := PlaceTarget(g, side, spot).value;
      PlaceTarget(Put(g, row, col, piece), side, spot) == Err(SpotTaken)
  {
  }

  // ---------------------------------------------------------------------------------------------
  // get_winner: the scan
  // ---------------------------------------------------------------------------------------------

  /** What one `all(...)` over a line asks of each cell. */
  datatype Probe = Holds(piece: string) | Filled

  predicate Accepts(p: Probe, cell: string) {
    match p
    case Holds(t) => cell == t
    case Filled => cell != Empty
  }

  /** The outcome of `all(...)`: True, False, or an IndexError raised while indexing. */
  datatype Test = Pass | Fail | Fault

  /** Every position of `line` lies on the grid. */
  predicate InBounds(g: Grid, line: seq<Coord>) {
    forall k :: 0 <= k < |line| ==> line[k].0 < |g| && line[k].1 < |g[line[k].0]|
  }

  predicate AllAccept(g: Grid, line: seq<Coord>, p: Probe)
    requires InBounds(g, line)
  {
    forall k :: 0 <= k < |line| ==> Accepts(p, g[line[k].0][line[k].1])
  }

  /**
   * `all(probe(cell) for cell in line)`: visits the positions in order and stops at the first
   * one that is off the grid (Fault) or whose cell the probe rejects (Fail).
   */
  function Scan(g: Grid, line: seq<Coord>, p: Probe): Test
    decreases |line|
  {
    if line == [] then Pass
    else
      var pos := line[0];
      if pos.0 >= |g| || pos.1 >= |g[pos.0]| then Fault
      else if !Accepts(p, g[pos.0][pos.1]) then Fail
      else Scan(g, line[1..], p)
  }

  /** The scan passes exactly when every position is on the grid and accepted; on the grid it never faults. */
  lemma {:induction false} ScanMeaning(g: Grid, line: seq<Coord>, p: Probe)
    ensures Scan(g, line, p) == Pass <==> InBounds(g, line) && AllAccept(g, line, p)
    ensures InBounds(g, line) ==> Scan(g, line, p) != Fault
    decreases |line|
  {
    if line != [] {
      var tail := line[1..];
      assert forall k :: 1 <= k < |line| ==> line[k] == tail[k - 1];
      ScanMeaning(g, tail, p);
    }
  }

  /** Scanning two lines one after the other is scanning their concatenation. */
  lemma {:induction false} ScanAppend(g: Grid, a: seq<Coord>, b: seq<Coord>, p: Probe)
    ensures Scan(g, a + b, p) == if Scan(g, a, p) == Pass then Scan(g, b, p) else Scan(g, a, p)
    decreases |a|
  {
    if a != [] {
      assert (a + b)[1..] == a[1..] + b;
      ScanAppend(g, a[1..], b, p);
    } else {
      assert a + b == b;
    }
  }

  /** Row `i` of `len` cells, as `for spot in row` visits it. */
  function RowCells(len: nat, i: nat): seq<Coord> {
    seq(len, j requires 0 <= j < len => (i, j))
  }

  /** Column `j` of an n-row board, as `row[col_num] for row in self._board` visits it. */
  function ColumnCells(n: nat, j: nat): seq<Coord> {
    seq(n, i requires 0 <= i < n => (i, j))
  }

  /** Top-left to bottom-right: `self._board[i][i]`. */
  function MainDiagonal(n: nat): seq<Coord> {
    seq(n, i requires 0 <= i < n => (i, i))
  }

  /** Top-right to bottom-left: `self._board[i][side - i - 1]`. */
  function AntiDiagonal(n: nat): seq<Coord> {
    seq(n, i requires 0 <= i < n => (i, n - i - 1))
  }

  function RowLines(g: Grid): seq<seq<Coord>> {
    seq(|g|, i requires 0 <= i < |g| => RowCells(|g[i]|, i))
  }

  function ColumnLines(g: Grid): seq<seq<Coord>> {
    seq(|g|, j requires 0 <= j < |g| => ColumnCells(|g|, j))
  }

  /** All lines in the order `get_winner` tests them: rows, columns, main and anti-diagonal. */
  function Lines(g: Grid): seq<seq<Coord>> {
    RowLines(g) + ColumnLines(g) + [MainDiagonal(|g|), AntiDiagonal(|g|)]
  }

  /** The positions of the first `rows` rows of an n-column board, in row-major order. */
  function AllCells(n: nat, rows: nat): seq<Coord>
    decreases rows
  {
    if rows == 0 then [] else AllCells(n, rows - 1) + RowCells(n, rows - 1)
  }

  /** The positions of the first rows come first in the positions of more rows. */
  lemma {:induction false} AllCellsPrefix(n: nat, rows: nat, more: nat)
    requires rows <= more
    ensures |AllCells(n, rows)| <= |AllCells(n, more)|
    ensures AllCells(n, more) == AllCells(n, rows) + AllCells(n, more)[|AllCells(n, rows)|..]
    decreases more - rows
  {
    if rows < more {
      AllCellsPrefix(n, rows, more - 1);
    }
  }

  /** Once the scan of the first rows stops short, scanning more rows stops at the same place. */
  lemma AllCellsSettled(g: Grid, n: nat, rows: nat, more: nat, p: Probe)
    requires rows <= more && Scan(g, AllCells(n, rows), p) != Pass
    ensures Scan(g, AllCells(n, more), p) == Scan(g, AllCells(n, rows), p)
  {
    AllCellsPrefix(n, rows, more);
    ScanAppend(g, AllCells(n, rows), AllCells(n, more)[|AllCells(n, rows)|..], p);
  }

  /** One more row of positions: scanned after the rows before it. */
  lemma AllCellsStep(g: Grid, n: nat, rows: nat, p: Probe)
    ensures Scan(g, AllCells(n, rows + 1), p) ==
      if Scan(g, AllCells(n, rows), p) == Pass then Scan(g, RowCells(n, rows), p)
      else Scan(g, AllCells(n, rows), p)
  {
    ScanAppend(g, AllCells(n, rows), RowCells(n, rows), p);
  }

  /** What `get_winner` returns: 'x', 'o', None, "tie" — or the IndexError it raises. */
  datatype Winner = WinX | WinO | NoWinner | Tie | RaisedIndexError

  /** The early returns of the line tests: 'x' tested before 'o' on each line, lines in order. */
  function FirstWin(g: Grid, lines: seq<seq<Coord>>): (r: Option<Winner>)
    ensures r.Some? ==> lines != [] && r.value in {WinX, WinO, RaisedIndexError}
    decreases |lines|
  {
    if lines == [] then None
    else match Scan(g, lines[0], Holds(X))
      case Pass => Some(WinX)
      case Fault => Some(RaisedIndexError)
      case Fail =>
        match Scan(g, lines[0], Holds(O))
        case Pass => Some(WinO)
        case Fault => Some(RaisedIndexError)
        case Fail => FirstWin(g, lines[1..])
  }

  /** `get_winner` on board `g` (whose recorded side length is `|g|`). */
  function GetWinner(g: Grid): Winner {
    match FirstWin(g, Lines(g))
    case Some(w) => w
    case None =>
      match Scan(g, AllCells(|g|, |g|), Filled)
      case Fail => NoWinner
      case Pass => Tie
      case Fault => RaisedIndexError
  }

  /** Testing two runs of lines one after the other is testing their concatenation. */
  lemma {:induction false} FirstWinAppend(g: Grid, a: seq<seq<Coord>>, b: seq<seq<Coord>>)
    ensures FirstWin(g, a + b) == if FirstWin(g, a).Some? then FirstWin(g, a) else FirstWin(g, b)
    decreases |a|
  {
    if a != [] {
      assert (a + b)[0] == a[0];
      assert (a + b)[1..] == a[1..] + b;
      FirstWinAppend(g, a[1..], b);
    } else {
      assert a + b == b;
    }
  }

  /** The line tests of `get_winner` in their four phases: rows, columns, main and anti-diagonal. */
  lemma FirstWinPhases(g: Grid)
    ensures FirstWin(g, Lines(g)) ==
      if FirstWin(g, RowLines(g)).Some? then FirstWin(g, RowLines(g))
      else if FirstWin(g, ColumnLines(g)).Some? then FirstWin(g, ColumnLines(g))
      else if FirstWin(g, [MainDiagonal(|g|)]).Some? then FirstWin(g, [MainDiagonal(|g|)])
      else FirstWin(g, [AntiDiagonal(|g|)])
  {
    var diagonals := [MainDiagonal(|g|), AntiDiagonal(|g|)];
    assert Lines(g) == RowLines(g) + (ColumnLines(g) + diagonals);
    FirstWinAppend(g, RowLines(g), ColumnLines(g) + diagonals);
    FirstWinAppend(g, ColumnLines(g), diagonals);
    assert diagonals == [MainDiagonal(|g|)] + [AntiDiagonal(|g|)];
    FirstWinAppend(g, [MainDiagonal(|g|)], [AntiDiagonal(|g|)]);
  }

  // ---------------------------------------------------------------------------------------------
  // get_winner: what it means
  // ---------------------------------------------------------------------------------------------

  /** Every cell of `line` holds `t`. */
  predicate Uniform(g: Grid, line: seq<Coord>, t: string) {
    InBounds(g, line) && forall k :: 0 <= k < |line| ==> g[line[k].0][line[k].1] == t
  }

  /** The line is all 'x' or all 'o'. */
  predicate Decisive(g: Grid, line: seq<Coord>) {
    Uniform(g, line, X) || Uniform(g, line, O)
  }

  /** No cell of the square board is empty. */
  predicate Full(g: Grid)
    requires Square(g)
  {
    forall i, j :: 0 <= i < |g| && 0 <= j < |g| ==> g[i][j] != Empty
  }

  lemma ScanHolds(g: Grid, line: seq<Coord>, t: string)
    requires InBounds(g, line)
    ensures Scan(g, line, Holds(t)) == Pass <==> Uniform(g, line, t)
    ensures Scan(g, line, Holds(t)) != Fault
  {
    ScanMeaning(g, line, Holds(t));
  }

  /** Line `k` is the first line of `ls` that is all 'x' or all 'o'. */
  predicate FirstDecisiveAt(g: Grid, ls: seq<seq<Coord>>, k: int) {
    0 <= k < |ls| && Decisive(g, ls[k]) && forall m :: 0 <= m < k ==> !Decisive(g, ls[m])
  }

  /** The verdict of a decisive line: 'x' is tested first, so a line that is both (only an empty one) gives 'x'. */
  function LineVerdict(g: Grid, line: seq<Coord>): Winner {
    if Uniform(g, line, X) then WinX else WinO
  }

  lemma FirstDecisiveShift(g: Grid, ls: seq<seq<Coord>>, k: int)
    requires ls != [] && !Decisive(g, ls[0])
    ensures FirstDecisiveAt(g, ls, k + 1) <==> FirstDecisiveAt(g, ls[1..], k)
  {
    if FirstDecisiveAt(g, ls[1..], k) {
      forall m | 0 <= m < k + 1
        ensures !Decisive(g, ls[m])
      {
        if m > 0 { assert ls[m] == ls[1..][m - 1]; }
      }
    }
    if FirstDecisiveAt(g, ls, k + 1) {
      forall m | 0 <= m < k
        ensures !Decisive(g, ls[1..][m])
      {
        assert ls[1..][m] == ls[m + 1];
      }
    }
  }

  /**
   * On lines that lie on the board, the early returns stop at the first decisive line and report
   * its verdict, and run off the end exactly when no line is decisive.
   */
  lemma {:induction false} FirstWinSpec(g: Grid, ls: seq<seq<Coord>>)
    requires forall k :: 0 <= k < |ls| ==> InBounds(g, ls[k])
    ensures FirstWin(g, ls) == None <==> forall k :: 0 <= k < |ls| ==> !Decisive(g, ls[k])
    ensures FirstWin(g, ls) != None ==>
      exists k :: FirstDecisiveAt(g, ls, k) && FirstWin(g, ls) == Some(LineVerdict(g, ls[k]))
    decreases |ls|
  {
    if ls != [] {
      ScanHolds(g, ls[0], X);
      ScanHolds(g, ls[0], O);
      if Decisive(g, ls[0]) {
        assert FirstDecisiveAt(g, ls, 0);
      } else {
        var tail := ls[1..];
        assert forall k :: 0 <= k < |tail| ==> tail[k] == ls[k + 1];
        FirstWinSpec(g, tail);
        assert FirstWin(g, ls) == FirstWin(g, tail);
        if FirstWin(g, tail) != None {
          var k :| FirstDecisiveAt(g, tail, k) && FirstWin(g, tail) == Some(LineVerdict(g, tail[k]));
          FirstDecisiveShift(g, ls, k);
        } else {
          forall k | 0 <= k < |ls|
            ensures !Decisive(g, ls[k])
          {
            if k > 0 { assert ls[k] == tail[k - 1]; }
          }
        }
      }
    }
  }

  /** There is at most one first decisive line. */
  lemma FirstDecisiveUnique(g: Grid, ls: seq<seq<Coord>>, k: int, k': int)
    requires FirstDecisiveAt(g, ls, k) && FirstDecisiveAt(g, ls, k')
    ensures k == k'
  {
  }

  /** Every line `get_winner` tests lies on a square board. */
  lemma LinesInBounds(g: Grid)
    requires Square(g)
    ensures forall k :: 0 <= k < |Lines(g)| ==> InBounds(g, Lines(g)[k])
  {
    var n := |g|;
    forall k | 0 <= k < |Lines(g)|
      ensures InBounds(g, Lines(g)[k])
    {
      if k < n {
        assert Lines(g)[k] == RowCells(|g[k]|, k);
      } else if k < 2 * n {
        assert Lines(g)[k] == ColumnCells(|g|, k - n);
      } else if k == 2 * n {
        assert Lines(g)[k] == MainDiagonal(n);
      } else {
        assert Lines(g)[k] == AntiDiagonal(n);
      }
    }
  }

  /** `AllCells(n, rows)` holds exactly the positions of the first `rows` rows. */
  lemma {:induction false} AllCellsSpec(n: nat, rows: nat)
    ensures forall k :: 0 <= k < |AllCells(n, rows)| ==> AllCells(n, rows)[k].0 < rows && AllCells(n, rows)[k].1 < n
    ensures forall i, j :: 0 <= i < rows && 0 <= j < n ==> (i, j) in AllCells(n, rows)
    decreases rows
  {
    if rows > 0 {
      AllCellsSpec(n, rows - 1);
      var last := RowCells(n, rows - 1);
      assert AllCells(n, rows) == AllCells(n, rows - 1) + last;
      forall i, j | 0 <= i < rows && 0 <= j < n
        ensures (i, j) in AllCells(n, rows)
      {
        if i == rows - 1 {
          assert last[j] == (i, j);
        }
      }
    }
  }

  /** The closing `all(self._board[i][j] ...)` of a square board passes exactly when it is full. */
  lemma ScanFilledSpec(g: Grid)
    requires Square(g)
    ensures Scan(g, AllCells(|g|, |g|), Filled) != Fault
    ensures Scan(g, AllCells(|g|, |g|), Filled) == Pass <==> Full(g)
  {
    var n := |g|;
    var cells := AllCells(n, n);
    AllCellsSpec(n, n);
    ScanMeaning(g, cells, Filled);
    assert InBounds(g, cells);
    if Full(g) {
      assert AllAccept(g, cells, Filled);
    }
    if AllAccept(g, cells, Filled) {
      forall i, j | 0 <= i < n && 0 <= j < n
        ensures g[i][j] != Empty
      {
        var k :| 0 <= k < |cells| && cells[k] == (i, j);
        assert Accepts(Filled, g[cells[k].0][cells[k].1]);
      }
    }
  }

  /**
   * `get_winner` on a square board: 'x' when the first all-'x'-or-all-'o' line in scan order is
   * all 'x', 'o' when it is all 'o', and otherwise "tie" exactly when the board is full and None
   * exactly when some cell is empty. It never raises on a square board.
   */
  lemma WinnerSpec(g: Grid)
    requires Square(g)
    ensures GetWinner(g) != RaisedIndexError
    ensures GetWinner(g) == WinX <==>
      exists k :: FirstDecisiveAt(g, Lines(g), k) && Uniform(g, Lines(g)[k], X)
    ensures GetWinner(g) == WinO <==>
      exists k :: FirstDecisiveAt(g, Lines(g), k) && Uniform(g, Lines(g)[k], O) && !Uniform(g, Lines(g)[k], X)
    ensures GetWinner(g) == Tie <==>
      (forall k :: 0 <= k < |Lines(g)| ==> !Decisive(g, Lines(g)[k])) && Full(g)
    ensures GetWinner(g) == NoWinner <==>
      (forall k :: 0 <= k < |Lines(g)| ==> !Decisive(g, Lines(g)[k])) && !Full(g)
  {
    var ls := Lines(g);
    LinesInBounds(g);
    FirstWinSpec(g, ls);
    ScanFilledSpec(g);
    if FirstWin(g, ls) != None {
      var k :| FirstDecisiveAt(g, ls, k) && FirstWin(g, ls) == Some(LineVerdict(g, ls[k]));
      forall k' | FirstDecisiveAt(g, ls, k')
        ensures k' == k
      {
        FirstDecisiveUnique(g, ls, k, k');
      }
    }
  }

  /** Some line all 'x' and none all 'o': the winner is 'x'. */
  lemma OnlyXLinesMeansX(g: Grid, k: nat)
    requires Square(g) && k < |Lines(g)| && Uniform(g, Lines(g)[k], X)
    requires forall m :: 0 <= m < |Lines(g)| ==> !Uniform(g, Lines(g)[m], O)
    ensures GetWinner(g) == WinX
  {
    WinnerSpec(g);
    assert Decisive(g, Lines(g)[k]);
  }

  /** Some line all 'o' and none all 'x': the winner is 'o'. */
  lemma OnlyOLinesMeansO(g: Grid, k: nat)
    requires Square(g) && k < |Lines(g)| && Uniform(g, Lines(g)[k], O)
    requires forall m :: 0 <= m < |Lines(g)| ==> !Uniform(g, Lines(g)[m], X)
    ensures GetWinner(g) == WinO
  {
    WinnerSpec(g);
    assert Decisive(g, Lines(g)[k]);
  }

  /** A fresh board of side at least one has no winner yet. */
  lemma EmptyGridHasNoWinner(n: nat)
    requires n >= 1
    ensures GetWinner(EmptyGrid(n)) == NoWinner
  {
    var g := EmptyGrid(n);
    forall k | 0 <= k < |Lines(g)|
      ensures !Decisive(g, Lines(g)[k])
    {
      LineAt(g, k, 0);
    }
    assert g[0][0] == Empty;
    NoDecisiveLine(g);
  }

  /** On a board with no rows the main diagonal is vacuously all 'x', so the winner is 'x'. */
  lemma ZeroSideBoardWinnerIsX()
    ensures GetWinner([]) == WinX
  {
    assert Lines([]) == [[], []];
  }

  /** A line holding two different cells is neither all 'x' nor all 'o'. */
  lemma MixedLineNotDecisive(g: Grid, line: seq<Coord>, a: nat, b: nat)
    requires InBounds(g, line) && a < |line| && b < |line|
    requires g[line[a].0][line[a].1] != g[line[b].0][line[b].1]
    ensures !Decisive(g, line)
  {
  }

  /** A square board with no decisive line is a tie exactly when it is full. */
  lemma NoDecisiveLine(g: Grid)
    requires Square(g)
    requires forall k :: 0 <= k < |Lines(g)| ==> !Decisive(g, Lines(g)[k])
    ensures GetWinner(g) == if Full(g) then Tie else NoWinner
  {
    LinesInBounds(g);
    FirstWinSpec(g, Lines(g));
    ScanFilledSpec(g);
  }

  /** Line `k` of a square board, position by position. */
  lemma LineAt(g: Grid, k: nat, i: nat)
    requires Square(g) && k < |Lines(g)| && i < |g|
    ensures |Lines(g)[k]| == |g|
    ensures Lines(g)[k][i] ==
      if k < |g| then (k, i)
      else if k < 2 * |g| then (i, k - |g|)
      else if k == 2 * |g| then (i, i)
      else (i, |g| - i - 1)
  {
    var n := |g|;
    if k < n {
      assert Lines(g)[k] == RowCells(|g[k]|, k);
    } else if k < 2 * n {
      assert Lines(g)[k] == ColumnCells(|g|, k - n);
    } else if k == 2 * n {
      assert Lines(g)[k] == MainDiagonal(n);
    } else {
      assert Lines(g)[k] == AntiDiagonal(n);
    }
  }

  /** A full 3-by-3 board with no uniform line is a tie, not None. */
  lemma FullBoardWithoutLineIsTie(g: Grid)
    requires g == [["x", "o", "x"], ["x", "o", "o"], ["o", "x", "x"]]
    ensures GetWinner(g) == Tie
  {
    assert Square(g);
    forall k | 0 <= k < |Lines(g)|
      ensures !Decisive(g, Lines(g)[k])
    {
      LineAt(g, k, 0);
      LineAt(g, k, 1);
      LineAt(g, k, 2);
      LinesInBounds(g);
      if k == 0 || k == 5 || k == 6 {
        MixedLineNotDecisive(g, Lines(g)[k], 0, 1);
      } else {
        MixedLineNotDecisive(g, Lines(g)[k], 0, 2);
      }
    }
    NoDecisiveLine(g);
  }

  /** On a ragged board the column scan can index past a short row and raise IndexError. */
  lemma RaggedBoardRaises()
    ensures GetWinner([["x", "o"], [""]]) == RaisedIndexError
  {
    var g: Grid := [["x", "o"], [""]];
    var ls := Lines(g);
    assert ls[0] == RowCells(|g[0]|, 0) == [(0, 0), (0, 1)];
    assert ls[1] == RowCells(|g[1]|, 1) == [(1, 0)];
    assert ls[2] == ColumnCells(|g|, 0) == [(0, 0), (1, 0)];
    assert ls[3] == ColumnCells(|g|, 1) == [(0, 1), (1, 1)];
    assert Scan(g, [(0, 1)], Holds(X)) == Fail;
    assert Scan(g, ls[0], Holds(X)) == Fail;
    assert Scan(g, ls[0], Holds(O)) == Fail;
    assert FirstWin(g, ls) == FirstWin(g, ls[1..]);
    assert Scan(g, ls[1], Holds(X)) == Fail;
    assert Scan(g, ls[1], Holds(O)) == Fail;
    assert FirstWin(g, ls[1..]) == FirstWin(g, ls[2..]);
    assert Scan(g, [(1, 0)], Holds(X)) == Fail;
    assert Scan(g, ls[2], Holds(X)) == Fail;
    assert Scan(g, ls[2], Holds(O)) == Fail;
    assert FirstWin(g, ls[2..]) == FirstWin(g, ls[3..]);
    assert Scan(g, ls[3], Holds(X)) == Fail;
    assert Scan(g, [(1, 1)], Holds(O)) == Fault;
    assert Scan(g, ls[3], Holds(O)) == Fault;
  }
}
