# Connect Four game-state machine in Dafny

This project models the `Game` class of a browser Connect Four game, with the display removed. Two players take turns dropping pieces into the columns of a grid that is `height` rows by `width` columns (6 by 7 by default). Row 0 is the top row. A piece settles in the lowest empty cell of its column. After every move the game checks, in this order:
1. whether the mover has four in a row (horizontally, vertically or on either diagonal);
2. whether the board is full (a tie);
3. if neither, the turn passes to the other player.

A won or tied game accepts no further moves.

The project has two modules:

- `Rules` (rules.dfy) states the game as values:
  - the `GameState` datatype (board, dimensions, current player, terminal flag);
  - the drop rule `DropRow`;
  - the win specification `FourInARow`, built from `WinStartsAt` over the four directions (0,1), (1,0), (1,1) and (1,-1);
  - the tie predicate `Full`;
  - the transition `Click`, taken when a column is selected, and `Run`, which applies a sequence of selections;
  - the lemmas that state what the game promises.
- `Connect4` (game.dfy) holds the class `Game`. Its state is a fixed `array2<Cell>` board that is updated in place, plus `currPlayer` and a terminal flag `over`. Its methods have the same loops and early returns as the original. Each method is proved against `Rules` through the ghost view `State()`.

Players are the two identities `P1` and `P2`. The original compares `Player` objects by reference, and a player's colour is used only to paint pieces (connect4.js:110) and in the win message (connect4.js:86). The announcement that ends a game is `Won(player)` or `Tie`. `HandleBoardClick` returns it instead of showing it.

The original has no terminal state field that it reads. Its `gameOver` field is set to false and never used again. A game ends when `endGame` removes the click listener, so that later clicks never reach the handler. The model represents this with the flag `over`:
- `EndGame` sets the flag, at the two points where `endGame` is called;
- `HandleBoardClick` does nothing while the flag is set.

## Model

| member | source | states |
|---|---|---|
| `Rules.Player.Other` | connect4.js:95 | The player who moves next is never the player who just moved. |
| `Rules.Initial` | connect4.js:18-37 | A new game has exactly `height` rows of `width` cells, all empty. Player one is to move and the game is not over. |
| `Connect4.Game.constructor` | connect4.js:18-37 | Allocates a fresh board. The game's state equals `Initial(height, width)`. `height` defaults to 6 and `width` to 7. |
| `Connect4.Game.MakeBoard` | connect4.js:33-37 | Afterwards every cell of the `height` by `width` board is empty. |
| `Rules.DropRow` | connect4.js:98-105 | Scanning a column upwards from the bottom: the result is None exactly when every cell of the column is occupied. Otherwise it is an empty row with every cell below it occupied, which is the largest empty row index. |
| `Connect4.Game.FindSpotForCol` | connect4.js:98-105 | The downward-counting loop with early return gives the drop row of the current board. It gives None exactly when every cell of column x is occupied. |
| `Connect4.Game.Win` | connect4.js:137-159 | True exactly when every listed coordinate is on the board and holds the current player. It verifies with no precondition on the coordinates, so the bounds tests always come before the board read. |
| `Connect4.Game.CheckForWin` | connect4.js:119-135 | The nested row-major scan returns true exactly when some start cell and one of the four directions give four in-bounds cells that all hold the current player. Otherwise it returns false. |
| `Connect4.Game.EndGame` | connect4.js:162-166 | Sets the terminal flag. Nothing else changes. |
| `Connect4.Game.HandleBoardClick` | connect4.js:73-96 | The new state and the announcement are exactly `Click` applied to the old state and column x. |
| `Rules.Click` | connect4.js:73-96 | A selection keeps the board `height` by `width`. What a selection does is stated by the lemmas below. |
| `Rules.Run` | connect4.js:73-96 | Any sequence of selections keeps the board's shape. |
| `Rules.PlaceSetsOneCell` | connect4.js:81 | States what `Place` does. The board keeps its shape. Cell (y, x) holds the given player's piece and every other cell is unchanged. |
| `Rules.Line` | connect4.js:124-127 | Four cells: the first is the start cell, and each next one is one step of (dy, dx) from the one before, as in the `horiz`, `vert`, `diagDR` and `diagDL` lists. |
| `Rules.WinDirections` | connect4.js:130 | States what `WinStartsAt` means. A line starts at (y, x) exactly when, for one of the directions (0,1), (1,0), (1,1), (1,-1), the four cells all lie on the board and hold the player. The start cell then holds the player. |
| `Rules.FourInARowMeans` | connect4.js:119-149 | States what `FourInARow` means. A player has four in a row exactly when some start cell on the board and some direction give four cells that are all in bounds and all hold that player. |
| `Rules.ForwardRunIsScanned` | connect4.js:124-130 | Four of a player's pieces in a line pointing right, down, down-right or down-left are found by the scan that starts at the line's first cell. |
| `Rules.RunIsScanned` | connect4.js:119-135 | Four of a player's pieces in a line in any of the eight compass directions count as four in a row. A line pointing up or left is found from its far end. |
| `Rules.FourDirectionsSuffice` | connect4.js:119-135 | Relates the scan to an independent definition of a line. Scanning only four directions from every cell finds four in a row exactly when the player has four pieces in a straight line in any of the eight directions. |
| `Rules.FullMeansNoRoom` | connect4.js:90 | States what the tie test `Full` means. Every cell is occupied exactly when no column has a drop row left. |
| `Rules.LinesDependOnBoard` | connect4.js:142-149 | Whether a player has four in a row depends only on the board, not on whose turn it is or on the terminal flag. |
| `Rules.FullColumnIgnored` | connect4.js:75-79 | Selecting a full column changes neither the board nor the current player, and announces nothing. |
| `Rules.MovePlacesOnePiece` | connect4.js:75-81 | In a running game, a column with an empty cell gets the mover's piece in its lowest empty cell. Every other cell stays the same. |
| `Rules.PiecesArePermanent` | connect4.js:81 | An occupied cell is never cleared and never changes owner. |
| `Rules.RunKeepsPieces` | connect4.js:81 | Over any sequence of selections, every occupied cell keeps its piece. |
| `Rules.MovePreservesGravity` | connect4.js:98-105 | If, in every column, the occupied cells form one block reaching the bottom row, a move keeps it that way. |
| `Rules.NextDropIsAbove` | connect4.js:98-105 | In a settled column, the piece after one that landed in row y lands in row y-1. After row 0 the column is full. |
| `Rules.MoveOutcome` | connect4.js:85-95 | Outcomes are decided in this order. A win ends the game with the mover as winner and the turn kept. Otherwise a full board ends it as a tie. Otherwise the turn passes to the other player exactly once and the game continues. |
| `Rules.ClickAfterEnd` | connect4.js:162-166 | Once the game is over, a selection changes nothing and announces nothing. |
| `Rules.EndedGameIgnoresClicks` | connect4.js:162-166 | Once the game is over, no number of further selections changes the board, the current player or anything else. |
| `Rules.RunPreservesGravity` | connect4.js:73-96 | Gravity holds after any sequence of selections from a settled state. |
| `Rules.ReachableIsSettled` | connect4.js:18-37 | Every state reachable from a new game is settled. |
| `Rules.OpponentGainsNoLine` | connect4.js:119-135 | A move never gives the player who did not move a new four in a row. So checking only the mover is enough. |
| `Rules.ClickKeepsNoLineUnlessOver` | connect4.js:85-95 | If the game was over, or neither player had four in a row, the same holds after a selection. |
| `Rules.RunKeepsNoLineUnlessOver` | connect4.js:85-95 | The same holds after any sequence of selections. |
| `Rules.ReachableLineEndsGame` | connect4.js:85-95 | In every game reached from a new one, a line of four for either player means the game is over. So checking only the mover never misses a win. |
| `Rules.NewLineUsesNewPiece` | connect4.js:119-135 | If the mover had no four in a row before a move but has one after it, then some start cell and one direction give a line of four of the mover's pieces, and that same line contains the piece just placed. |
| `Rules.HorizontalWinExample` | connect4.js:119-135 | On a 6 by 7 board with player one at (5,0), (5,1) and (5,2), selecting column 3 wins for player one. |
| `Rules.VerticalWinExample` | connect4.js:119-135 | On a 6 by 7 board with player one in rows 3 to 5 of column 0, selecting column 0 wins for player one. |

The board grows downwards, so the drop row gets smaller as a column fills: each piece lands one row above the previous one, and its row index is one less (`NextDropIsAbove`). This follows the loop at connect4.js:98-105.

## Left out

- Rendering: `makeHtmlBoard` (connect4.js:39-71), `placeInTable` (connect4.js:107-115) and the gold highlighting of a winning line inside `_win` (connect4.js:151-156). These only affect the page.
- Event wiring and browser calls:
  - `addEventListener` and `removeEventListener` (connect4.js:49, 164), replaced by the `over` flag;
  - `alert` (connect4.js:165), replaced by the returned `Ending`;
  - the start button handler, which reads the two colour inputs (connect4.js:170-174).
- Reading the column from the clicked element's id (connect4.js:74). The column is an integer argument in `0 <= x < width`, because only valid columns can be clicked.
- Player colours and numbers (connect4.js:8-15). Players are the two distinct identities `P1` and `P2`. The case where one `Player` object is passed as both players is not modelled.
- The unused `gameOver` field (connect4.js:30).
- `Connect4.Game.CheckForWin`: returns `false` where the original falls off the end of the function and returns `undefined`. Both are falsy and are used only as a condition.
- `Connect4.Game.MakeBoard`: fills an already allocated `array2` with `Empty`. The original pushes freshly filled row arrays. Rows are separate arrays in the original, but no row is ever shared or replaced, so a two-dimensional array has the same behaviour.
