# bot-tac-toe core in Dafny

A model of two files of the bot-tac-toe game.

- `tictactoe.py`:
  - `empty_board` builds a board of `''` cells.
  - `GameState` keeps the caller's board, parses a two-digit spot in `place_piece` and writes a piece in place.
  - `get_winner` scans rows, columns and the two diagonals with `all(...)` and early returns, then reports 'x', 'o', None or "tie".
  - `Player.__init__` accepts only 'x' and 'o'.
- `python/game_tree.py`: a game-tree node.
  - A node holds a placement, whose move it is, a score and an ordered list of subtrees.
  - `add_subtree` appends to that list.
  - `find_subtree_by_spot` looks only at the direct subtrees.
  - `__str__` renders the tree in pre-order, indented by depth.

## Layout

- `wrappers.dfy` — `Option` and `Result`.
- `numerals.dfy` (module `Numerals`) — `int()` of one digit character, and `str()` of an integer with its round trip.
- `rules.dfy` (module `Rules`) — the rules on a snapshot of the board (a `seq<seq<string>>`):
  - the spot parsing and checks of `place_piece`, as `PlaceTarget`;
  - the scan of `get_winner` as written, as `Scan`, `FirstWin` and `GetWinner`;
  - a declarative specification of the winner (the first all-'x' or all-'o' line; a full board), proved against the scan.
- `game.dfy` (module `Game`) — the imperative side:
  - `EmptyBoard` builds an array of fresh row arrays in a loop.
  - The `GameState` class holds the board as `array<array<string>>`, so two rows can be the same list object, as in Python.
  - `PlacePiece` writes into the row array.
  - `GetWinner` runs the scan with loops and is proved equal to `Rules.GetWinner` of the board's cells.
  - `NewPlayer` is the piece check of `Player.__init__`.
- `game_tree.dfy` (module `GameTrees`) — the `GameTree` class:
  - It has a ghost footprint `Repr`, which keeps each node's subtrees below it.
  - `Render` is the pure specification of `__str__`.
  - `ToString` is the loop that builds the string, proved equal to `Render`.

Python exceptions become values:
- `PlaceError` says which exception `place_piece` raises, and the board is then unchanged.
- `Winner.RaisedIndexError` stands for the IndexError that `get_winner` can raise on a ragged board, where a row is shorter than the side length.

## Model

| member | source | states |
|---|---|---|
| Numerals.DigitValue | tictactoe.py:82-83 | `int()` of one character succeeds exactly for '0'..'9', and yields the digit that character denotes |
| Numerals.NatToString | python/game_tree.py:110 | the score's text is a non-empty run of digits with no leading zero |
| Numerals.IntToString | python/game_tree.py:110 | the score's text is non-empty and never contains a line break |
| Numerals.NatRoundTrip | python/game_tree.py:110 | reading back the digits written for a non-negative score gives the score |
| Numerals.IntRoundTrip | python/game_tree.py:110 | the written score starts with '-' exactly when it is negative, and reads back as the same integer |
| Rules.EmptyGrid | tictactoe.py:36-47 | the board `empty_board(n)` builds has n rows of n cells, every cell '' |
| Rules.PutChangesOneCell | tictactoe.py:91 | writing one cell changes that cell only and keeps the board's shape |
| Rules.PlaceTarget | tictactoe.py:82-93 | a target `place_piece` accepts lies on the board, is empty, and is named by the spot's two digits |
| Rules.PlaceAcceptsEmptyCell | tictactoe.py:82-91 | on a square board of any side, the two-digit spot of an empty cell whose row and column are below 10 selects exactly that cell |
| Rules.PlaceRefusesTakenCell | tictactoe.py:90-93 | the spot of an occupied cell is refused as taken |
| Rules.PlaceRefusesOutside | tictactoe.py:85-90 | on a square board every coordinate at or past the side is refused: one greater by the range checks, one equal only by the failing index |
| Rules.PlaceRefusesNonDigit | tictactoe.py:82-83 | a non-digit first or second character fails in `int()` |
| Rules.PlaceThreeThreeOnThreeByThree | tictactoe.py:85-90 | spot "33" on an empty 3-by-3 board passes the range checks and fails at indexing |
| Rules.PlaceThenTaken | tictactoe.py:90-93 | after a piece is written, the same spot is refused as taken |
| Rules.Scan | tictactoe.py:102-104 | defines one short-circuiting `all(...)` over a line: it stops at the first position off the board (IndexError) or the first cell the test rejects; `Rules.ScanMeaning` states what it means |
| Rules.ScanMeaning | tictactoe.py:102-104 | `all(...)` over a line passes exactly when every position is on the board and accepted, and never raises on the board |
| Rules.FirstWin | tictactoe.py:100-127 | the early returns of the line tests: they return only 'x', 'o' or the IndexError, and only when some line was tested; `Rules.FirstWinSpec` states which line decides |
| Rules.FirstWinPhases | tictactoe.py:100-127 | the line tests run in four phases: rows, then columns, then the main diagonal, then the anti-diagonal |
| Rules.FirstWinSpec | tictactoe.py:100-127 | the early returns report the verdict of the first line that is all 'x' or all 'o', with 'x' tested first, and fall through exactly when there is no such line |
| Rules.GetWinner | tictactoe.py:96-136 | defines `get_winner` on a board snapshot: the line tests, then the fill test with its None, "tie" or IndexError; `Rules.WinnerSpec` states what it returns |
| Rules.WinnerSpec | tictactoe.py:96-136 | on a square board: 'x' or 'o' is the mark of the first uniform line in scan order; "tie" exactly when no line is uniform and the board is full; None exactly when no line is uniform and a cell is empty; never an IndexError |
| Rules.ScanFilledSpec | tictactoe.py:132-133 | the closing `all(...)` over the cells of a square board passes exactly when no cell is empty |
| Rules.NoDecisiveLine | tictactoe.py:129-136 | with no uniform line, the result is "tie" for a full board and None otherwise |
| Rules.OnlyXLinesMeansX | tictactoe.py:100-127 | a board with an all-'x' line and no all-'o' line is won by 'x' |
| Rules.OnlyOLinesMeansO | tictactoe.py:100-127 | a board with an all-'o' line and no all-'x' line is won by 'o' |
| Rules.EmptyGridHasNoWinner | tictactoe.py:129-133 | a fresh board of side at least one has no winner yet (None) |
| Rules.ZeroSideBoardWinnerIsX | tictactoe.py:119-120 | a board with no rows is won by 'x', because its empty main diagonal is vacuously all 'x' |
| Rules.FullBoardWithoutLineIsTie | tictactoe.py:129-136 | a full 3-by-3 board with no uniform line is a tie, not None |
| Rules.RaggedBoardRaises | tictactoe.py:111-115 | a ragged board can raise: on `[["x", "o"], [""]]` no row is uniform, and the 'o' test of column 1 indexes past the short second row and raises IndexError |
| Game.EmptyBoard | tictactoe.py:36-47 | returns `max(side, 0)` freshly made rows, no two the same list, whose cells form `EmptyGrid` |
| Game.GameState.constructor | tictactoe.py:64-68 | keeps the caller's board itself; the side is the number of rows; the turn defaults to 'p1' and the move count to 0 |
| Game.GameState.PlacePiece | tictactoe.py:70-93 | raises exactly the error `PlaceTarget` names and then changes nothing; otherwise writes the piece into the selected row list, so every row aliasing it changes and, with distinct rows, exactly one cell changes; the turn and the move count are unchanged |
| Game.GameState.ScanCells | tictactoe.py:102-104 | the loop behind one `all(...)` gives `Scan` of the current cells |
| Game.GameState.TestLine | tictactoe.py:102-105 | one line's 'x'-then-'o' test gives `FirstWin` of that line |
| Game.GameState.ScanRows | tictactoe.py:101-105 | the row loop gives the verdict of the first decisive row, or none |
| Game.GameState.ScanColumns | tictactoe.py:108-115 | the column loop gives the verdict of the first decisive column, or none |
| Game.GameState.ScanAllCells | tictactoe.py:132 | the nested scan of every cell gives `Scan` over all positions in row-major order |
| Game.GameState.GetWinner | tictactoe.py:96-136 | returns `Rules.GetWinner` of the board's cells, and with it everything `WinnerSpec` proves |
| Game.NewPlayer | tictactoe.py:156-158 | a player is made exactly for pieces 'x' and 'o', and holds that piece |
| GameTrees.Indent | python/game_tree.py:108 | the indent is four spaces per level of depth, and nothing for a depth of zero or less |
| GameTrees.GameTree.constructor | python/game_tree.py:57-77 | a new node has the given placement, move flag and score (defaults None, True, 0) and no subtrees |
| GameTrees.GameTree.GetSubtrees | python/game_tree.py:79-83 | returns the subtrees in order; for a valid node each one is valid and lies strictly below it |
| GameTrees.GameTree.FindSubtreeBySpot | python/game_tree.py:85-95 | returns None exactly when no direct subtree has the placement, and otherwise the first direct subtree in list order that has it; the tree is not modified |
| GameTrees.GameTree.AddSubtree | python/game_tree.py:97-101 | the subtrees become the old ones followed by `t`, with no duplicate check; the node's own fields are unchanged; validity is kept when `t` is valid and does not contain the node |
| GameTrees.GameTree.Line | python/game_tree.py:107-110 | defines a node's own line: the indent, "  `---[", the piece, " -> (", the placement or None, ")]: ", the score, " " and a line break; `GameTrees.LineShowsMove` and `GameTrees.LineHasOneNewline` state its properties |
| GameTrees.GameTree.Render | python/game_tree.py:103-116 | defines the whole rendering: the node's line, then each subtree rendered at depth+1 in order; `GameTrees.RenderStartsWithLine`, `GameTrees.LeafRendersOneLine` and `GameTrees.OneLinePerNode` state its properties |
| GameTrees.GameTree.ToString | python/game_tree.py:103-116 | the string grown by the loop is `Render(depth)`, the node's line followed by each subtree rendered at depth+1 in order; the tree is not modified |
| GameTrees.LineShowsMove | python/game_tree.py:107-110 | a node's line is the indent, then two spaces, a backtick and `---[`, then 'x' exactly when it is x's move |
| GameTrees.LineHasOneNewline | python/game_tree.py:108-110 | a node's line ends in its only line break when the placement has none |
| GameTrees.RenderStartsWithLine | python/game_tree.py:107-116 | the rendering is pre-order: it starts with the node's own line |
| GameTrees.LeafRendersOneLine | python/game_tree.py:111-112 | a node without subtrees renders as exactly its own line |
| GameTrees.OneLinePerNode | python/game_tree.py:103-116 | with placements free of line breaks, the rendering has exactly one line per node of the tree |
| GameTrees.DeeperPlacementNotFound | python/game_tree.py:85-91 | in the chain root → child "00" → grandchild "11", looking up "11" from the root gives None: the grandchild is not looked at, because the lookup is depth 1 |
| GameTrees.GrowChain | python/game_tree.py:97-101 | the chain root → "00" → "11" → "22", grown top-down with each node attached before it gets its own subtree, is a valid tree of that shape once the stale ancestors are refreshed, nearest first |
| GameTrees.ExpandAfterAttach | python/game_tree.py:103-116 | that top-down grown four-node chain renders as four lines |

## Behaviour worth noting

- The docstring of `place_piece` promises that the spot exists on the board (tictactoe.py:72-73). Its range checks reject a coordinate only when it is greater than the side length (`>`, tictactoe.py:85 and 87). Spot "33" on a 3-by-3 board therefore passes both checks and raises IndexError when the list is indexed (`Rules.PlaceThreeThreeOnThreeByThree`). Either way the spot is refused and the board is unchanged. The model follows the code.
- `get_winner` tests each line for all-'x' before all-'o' and does not require the line to be non-empty. A board with no rows is therefore won by 'x' (`Rules.ZeroSideBoardWinnerIsX`).
- `place_piece` does not change `next_player` or `_move_count`.

## Left out

- The module-level demo at tictactoe.py:139-142. It builds a game and prints at import time, which is I/O.
- The `Player` subclasses and `make_move` (tictactoe.py:160-185). They are unimplemented stubs.
- `interaction.py`, `main.py`, `assets/service_worker.js` and the root-level `game_tree.py`. They are browser UI, I/O and an empty stub, and are not part of this model.
- Numerals.DigitValue: accepts only the ASCII digits '0'..'9'. Python's `int()` also accepts other Unicode decimal digits (which would then be out of range or index the board) and is not modelled for them.
- Game.GameState.PlacePiece: the board is a fixed array of row arrays. A row list that the caller later grows or shrinks is not modelled. Neither is a row appended to or removed from the outer list after construction, after which Python's `_board_side` no longer equals `len(_board)`: `Game.GameState.GetWinner` requires the two to agree, and `Rules.GetWinner` takes the side to be the number of rows.
- Game.GameState.PlacePiece and Rules.PlaceTarget: only the first two characters of the spot are read, as in the code; a piece other than 'x' or 'o' is written as given, since the code does not check it.
- GameTrees.GameTree.GetSubtrees: returns the list by value. The Python method returns the node's own list, which a caller could mutate; that aliasing is not modelled.
- GameTrees.GameTree.AddSubtree: validity is promised only when the added tree does not contain the node. Python would accept a cycle, and `__str__` would then recurse until RecursionError; that is not modelled.
- GameTrees.GameTree.ToString: requires `Valid()`. That holds when each node's ghost footprint `Repr` holds the node, its subtrees and their footprints, and no subtree's footprint holds the node. It holds for trees built bottom-up. When a node gains a subtree after it was attached, its ancestors' footprints are stale until the ghost method `GameTrees.GameTree.Refresh` is run on each of them, nearest first. `Refresh` bounds the new footprint by the node and its subtrees' footprints, so this works at any depth (`GameTrees.GrowChain` refreshes two levels). A cyclic tree, which Python renders until RecursionError, can never be made valid.
- GameTrees.OneLinePerNode: holds only for placements without line breaks. A placement string containing "\n" would add lines.
