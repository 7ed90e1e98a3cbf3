/**
 * The game-state half of `tictactoe.py`: `empty_board`, the `GameState` class whose board is a
 * list of row lists updated in place, and the piece check of `Player.__init__`. The board is an
 * array of row arrays, so rows may alias one another exactly as Python lists can.
 */
module Game {
  import opened Wrappers
  import opened Rules

  /** The cells of a board held as an array of row arrays. */
  ghost function Snapshot(b: array<array<string>>): (g: Grid)
    reads b, b[..]
    ensures |g| == b.Length
  {
    seq(b.Length, i requires 0 <= i < b.Length reads b, b[..] => b[i][..])
  }

  /** No two rows of the board are the same list object. */
  predicate DistinctRows(b: array<array<string>>)
    reads b
  {
    forall i, j :: 0 <= i < j < b.Length ==> b[i] != b[j]
  }

  /**
   * `empty_board(side)`: `side` newly made rows of `side` empty cells each (no rows for a
   * negative side), no row shared with another.
   */
  method EmptyBoard(side: int) returns (board: array<array<string>>)
    ensures fresh(board) && board.Length == (if side < 0 then 0 else side)
    ensures forall i :: 0 <= i < board.Length ==> fresh(board[i])
    ensures DistinctRows(board)
    ensures Snapshot(board) == EmptyGrid(board.Length)
  {
    var n := if side < 0 then 0 else side;
    var rows: seq<array<string>> := [];
    for i := 0 to n
      invariant |rows| == i
      invariant forall k :: 0 <= k < i ==> fresh(rows[k]) && rows[k][..] == seq(n, _ => Empty)
      invariant forall k, l :: 0 <= k < l < i ==> rows[k] != rows[l]
    {
      var row := new string[n](_ => Empty);
      rows := rows + [row];
    }
    board := new array<string>[n](k requires 0 <= k < n => rows[k]);
    assert forall k :: 0 <= k < n ==> board[k] == rows[k];
    assert forall k :: 0 <= k < n ==> Snapshot(board)[k] == EmptyGrid(n)[k];
  }

  /** A tic-tac-toe game: the board it was given, its side length, whose turn, moves so far. */
  class GameState {
    var nextPlayer: string
    var board: array<array<string>>
    var boardSide: int
    var moveCount: int

    /** The recorded side length is the number of rows. */
    ghost predicate Valid()
      reads this
    {
      boardSide == board.Length
    }

    /** The cells of the board as they are now. */
    ghost function Cells(): Grid
      reads this, board, board[..]
    {
      Snapshot(board)
    }

    /** `GameState(board, next_player='p1', move_count=0)`: keeps the caller's board itself, not a copy. */
    constructor (board: array<array<string>>, nextPlayer: string := "p1", moveCount: int := 0)
      ensures Valid()
      ensures this.board == board && boardSide == board.Length
      ensures this.nextPlayer == nextPlayer && this.moveCount == moveCount
    {
      this.board := board;
      boardSide := board.Length;
      this.nextPlayer := nextPlayer;
      this.moveCount := moveCount;
    }

    /**
     * `place_piece(piece, spot)`: writes `piece` into the cell `PlaceTarget` selects, or returns
     * the error Python raises and changes nothing. Only that cell's row list is written, so rows
     * aliasing it see the piece too; with distinct rows exactly one cell changes. The turn and the
     * move count are left alone.
     */
    method PlacePiece(piece: string, spot: string) returns (error: Option<PlaceError>)
      modifies board[..]
      ensures error == ErrorOf(PlaceTarget(old(Cells()), boardSide, spot))
      ensures error.Some? ==> Cells() == old(Cells())
      ensures error.None? ==>
        var target := PlaceTarget(old(Cells()), boardSide, spot).value;
        forall i :: 0 <= i < board.Length ==>
          board[i][..] == if board[i] == board[target.0] then old(board[i][..])[target.1 := piece]
                          else old(board[i][..])
      ensures error.None? && DistinctRows(board) ==>
        var target := PlaceTarget(old(Cells()), boardSide, spot).value;
        Cells() == Put(old(Cells()), target.0, target.1, piece)
      ensures nextPlayer == old(nextPlayer) && moveCount == old(moveCount)
    {
      ghost var g := Cells();
      if |spot| == 0 {
        return Some(SpotTooShort);
      }
      var row := Numerals.DigitValue(spot[0]);
      if row.None? {
        return Some(NotADigit);
      }
      if |spot| == 1 {
        return Some(SpotTooShort);
      }
      var col := Numerals.DigitValue(spot[1]);
      if col.None? {
        return Some(NotADigit);
      }
      // digits are never negative: only the `> side` half of each range check can fire
      if row.value > boardSide {
        return Some(RowOutOfRange);
      }
      if col.value > boardSide {
        return Some(ColumnOutOfRange);
      }
      if row.value >= board.Length {
        return Some(IndexOutOfRange);
      }
      var line := board[row.value];
      if col.value >= line.Length {
        return Some(IndexOutOfRange);
      }
      assert g[row.value] == line[..];
      if line[col.value] == Empty {
        line[col.value] := piece;
        if DistinctRows(board) {
          assert forall i :: 0 <= i < board.Length ==> Cells()[i] == Put(g, row.value, col.value, piece)[i];
        }
        return None;
      } else {
        return Some(SpotTaken);
      }
    }

    /** `all(...)` over the cells at `line`: stops at the first failing or missing cell. */
    method ScanCells(line: seq<Coord>, p: Probe) returns (t: Test)
      ensures t == Scan(Cells(), line, p)
    {
      var k := 0;
      while k < |line|
        invariant 0 <= k <= |line|
        invariant Scan(Cells(), line, p) == Scan(Cells(), line[k..], p)
      {
        assert line[k..][0] == line[k] && line[k..][1..] == line[k + 1..];
        var pos := line[k];
        if pos.0 >= board.Length || pos.1 >= board[pos.0].Length {
          return Fault;
        }
        if !Accepts(p, board[pos.0][pos.1]) {
          return Fail;
        }
        k := k + 1;
      }
      return Pass;
    }

    /** One line of `get_winner`: 'x' if it is all 'x', else 'o' if it is all 'o', else go on. */
    method TestLine(line: seq<Coord>) returns (verdict: Option<Winner>)
      ensures verdict == FirstWin(Cells(), [line])
    {
      ghost var g := Cells();
      var t := ScanCells(line, Holds(X));
      assert Cells() == g;
      if t == Pass {
        return Some(WinX);
      } else if t == Fault {
        return Some(RaisedIndexError);
      }
      t := ScanCells(line, Holds(O));
      assert Cells() == g;
      if t == Pass {
        return Some(WinO);
      } else if t == Fault {
        return Some(RaisedIndexError);
      }
      assert [line][1..] == [];
      return None;
    }

    /** The loop over the rows in `get_winner`: the verdict of the first decisive row, if any. */
    method ScanRows() returns (verdict: Option<Winner>)
      ensures verdict == FirstWin(Cells(), RowLines(Cells()))
    {
      ghost var g := Cells();
      var rows := 0;
      while rows < board.Length
        invariant 0 <= rows <= board.Length
        invariant FirstWin(g, RowLines(g)[..rows]) == None
      {
        var n := board[rows].Length;
        var line := RowCells(n, rows);
        assert line == RowLines(g)[rows];
        verdict := TestLine(line);
        assert Cells() == g;
        FirstWinAppend(g, RowLines(g)[..rows], [line]);
        assert RowLines(g)[..rows + 1] == RowLines(g)[..rows] + [line];
        if verdict.Some? {
          FirstWinAppend(g, RowLines(g)[..rows + 1], RowLines(g)[rows + 1..]);
          assert RowLines(g) == RowLines(g)[..rows + 1] + RowLines(g)[rows + 1..];
          return;
        }
        rows := rows + 1;
      }
      assert RowLines(g)[..rows] == RowLines(g);
      return None;
    }

    /** The loop over the columns in `get_winner`: the verdict of the first decisive column, if any. */
    method ScanColumns() returns (verdict: Option<Winner>)
      requires Valid()
      ensures verdict == FirstWin(Cells(), ColumnLines(Cells()))
    {
      ghost var g := Cells();
      var side := boardSide;
      var cols := 0;
      while cols < side
        invariant 0 <= cols <= side
        invariant FirstWin(g, ColumnLines(g)[..cols]) == None
      {
        var line := ColumnCells(side, cols);
        assert line == ColumnLines(g)[cols];
        verdict := TestLine(line);
        assert Cells() == g;
        FirstWinAppend(g, ColumnLines(g)[..cols], [line]);
        assert ColumnLines(g)[..cols + 1] == ColumnLines(g)[..cols] + [line];
        if verdict.Some? {
          FirstWinAppend(g, ColumnLines(g)[..cols + 1], ColumnLines(g)[cols + 1..]);
          assert ColumnLines(g) == ColumnLines(g)[..cols + 1] + ColumnLines(g)[cols + 1..];
          return;
        }
        cols := cols + 1;
      }
      assert ColumnLines(g)[..cols] == ColumnLines(g);
      return None;
    }

    /** The closing `all(self._board[i][j] for i in range(side) for j in range(side))`. */
    method ScanAllCells() returns (t: Test)
      requires Valid()
      ensures t == Scan(Cells(), AllCells(boardSide, boardSide), Filled)
    {
      ghost var g := Cells();
      var side := boardSide;
      var i := 0;
      while i < side
        invariant 0 <= i <= side
        invariant Scan(g, AllCells(side, i), Filled) == Pass
      {
        var line := RowCells(side, i);
        t := ScanCells(line, Filled);
        assert Cells() == g && t == Scan(g, RowCells(side, i), Filled);
        AllCellsStep(g, side, i, Filled);
        if t != Pass {
          AllCellsSettled(g, side, i + 1, side, Filled);
          assert t == Scan(g, AllCells(side, side), Filled);
          return;
        }
        i := i + 1;
      }
      assert Cells() == g;
      return Pass;
    }

    /**
     * `get_winner()`: the rows, then the columns, then the two diagonals, then whether any cell
     * is empty; reads the board and changes nothing.
     */
    method GetWinner() returns (w: Winner)
      requires Valid()
      ensures w == Rules.GetWinner(Cells())
    {
      ghost var g := Cells();
      var side := boardSide;
      FirstWinPhases(g);
      var verdict := ScanRows();
      assert Cells() == g;
      if verdict.Some? {
        return verdict.value;
      }
      verdict := ScanColumns();
      assert Cells() == g;
      if verdict.Some? {
        return verdict.value;
      }
      var diagonal := MainDiagonal(side);
      assert diagonal == MainDiagonal(|g|);
      verdict := TestLine(diagonal);
      assert Cells() == g;
      if verdict.Some? {
        return verdict.value;
      }
      var anti := AntiDiagonal(side);
      assert anti == AntiDiagonal(|g|);
      verdict := TestLine(anti);
      assert Cells() == g;
      if verdict.Some? {
        return verdict.value;
      }
      assert FirstWin(g, Lines(g)) == None;
      var t := ScanAllCells();
      assert Cells() == g;
      if t == Fail {
        return NoWinner;
      } else if t == Fault {
        return RaisedIndexError;
      }
      return Tie;
    }
  }

  /** A player and the piece it plays. */
  datatype Player = Player(piece: string)

  /** `Player.__init__` fails its assertion. */
  datatype PlayerError = PieceNotXOrO

  /** `Player(piece)`: accepted exactly for 'x' and 'o', and then holds that piece. */
  function NewPlayer(piece: string): (r: Result<Player, PlayerError>)
    ensures r.Ok? <==> piece == X || piece == O
    ensures r.Ok? ==> r.value.piece == piece
  {
    if piece == X || piece == O then Ok(Player(piece)) else Err(PieceNotXOrO)
  }
}
