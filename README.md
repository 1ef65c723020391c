# Tic-tac-toe board: game-state model

This project models the game logic of the tic-tac-toe `Board` component in
`src/index.js`, and proves properties of it. Everything lives in one module,
`TicTacToe` (`tictactoe.dfy`), because the source is one file.

- **Winner detection** (`calculateWinner`). The source scans eight fixed index
  triples in order: rows, then columns, then diagonals. It returns the mark of
  the first triple whose three cells are filled and equal, and null otherwise.
  The model has two parts. `Winner` (through `WinnerFrom`) is the pure scan,
  used wherever a value is needed. `CalculateWinner` is the source's loop with
  its early return, and it is proved equal to `Winner`. A cell is
  `Empty | Mark(X) | Mark(O)`; `Empty` stands for the source's `null`. An index
  past the end of the board reads as `undefined`, which is falsy, so `Completes`
  treats such a line as never complete. Neither part needs a precondition.
- **The board's state** (`squares`, `xIsNext`). `Board` is a class with these
  two fields. Its constructor creates nine empty squares with X to move.
  `HandleClick(i)` follows the source step by step. It copies the squares and
  calls `CalculateWinner`. It ignores the click if there is a winner or square
  `i` is filled. Otherwise it writes the mover's mark into the copy, then
  replaces both fields. `HandleClick` is proved against the pure transition
  `Click`. `Play` folds `Click` over a sequence of clicks, and the
  multi-move lemmas are stated with it.
- **Status line** (in `render`). `Status` is a pure function of the state:
  `"Winner: "` and the winner's mark, or `"Next player: "` and the mover's mark.

## Model

| member | source | states |
|---|---|---|
| `TicTacToe.Winner` | src/index.js:108-126 | The pure scan is None exactly when no listed line has three equal filled cells. A non-null result is the owner of some complete line. |
| `TicTacToe.CalculateWinner` | src/index.js:108-126 | The loop returns `Winner(squares)`. It returns None exactly when none of the eight lines is complete. Otherwise it returns the owner of the first complete line in scan order. |
| `TicTacToe.WinnerFromIsFirstCompleted` | src/index.js:119-125 | Scanning from line `k`: the result is None if and only if no line at or after `k` is complete. A `Some` result is the owner of the first complete line at or after `k`. |
| `TicTacToe.WinnerIsFirstCompletedLine` | src/index.js:109-125 | `Winner` is None if and only if no listed line has three equal filled cells. A non-null winner `m` owns a complete line, and the first complete line in the order rows, columns, diagonals. For any line that is the first complete one, the winner is that line's owner. |
| `TicTacToe.InitialHasNoWinner` | src/index.js:119-125 | The empty board has no winner. |
| `TicTacToe.DrawShowsNextPlayerO` | src/index.js:57-64 | There is no draw outcome. Take any state reached by play from the initial one whose nine squares are filled with no complete line. Its status line is `"Next player: O"`. |
| `TicTacToe.Initial` | src/index.js:25-28 | The initial state has nine squares, all empty, and X to move. |
| `TicTacToe.Board.constructor` | src/index.js:23-29 | A new board has nine empty squares and `xIsNext` is true. This is the state `Initial()`. |
| `TicTacToe.Click` | src/index.js:31-45 | The board keeps nine squares. A board with a winner ignores the click, and so does a filled square `i`. On an accepted click, square `i` gets the mover's mark and every other square is unchanged. The turn also flips. |
| `TicTacToe.Board.HandleClick` | src/index.js:31-45 | The new state is `Click(old state, i)`. When there is a winner or square `i` is filled, both fields stay unchanged. Otherwise `squares` is the old squares with square `i` set to X if `xIsNext`, else O, and `xIsNext` is negated. |
| `TicTacToe.Play` | src/index.js:31-45 | Any sequence of clicks keeps the board at nine squares. |
| `TicTacToe.InitialBalanced` | src/index.js:25-28 | The initial state is balanced: X has made as many moves as O and X is next. |
| `TicTacToe.ClickKeepsBalanced` | src/index.js:40-43 | One click preserves the balance: the count of X marks equals the count of O marks, plus one when O is next. |
| `TicTacToe.PlayKeepsBalanced` | src/index.js:40-43 | Any sequence of clicks preserves the balance. |
| `TicTacToe.TurnsAlternate` | src/index.js:23-45 | Start from the initial state and apply any clicks. Then the X count minus the O count is 0 when X is next and 1 otherwise. X is next exactly when an even number of squares are filled. |
| `TicTacToe.PlayNeverOverwrites` | src/index.js:36-37 | A filled square keeps its mark through any sequence of clicks. |
| `TicTacToe.WinIsFinal` | src/index.js:36-37 | Once the board has a winner, no sequence of clicks changes either the squares or the turn. |
| `TicTacToe.ClickKeepsSingleOwner` | src/index.js:36-42 | Suppose every complete line belongs to the same player. After one click, that still holds. (An accepted click happens only when no line is complete, and every line it completes passes through square `i`.) |
| `TicTacToe.PlayKeepsSingleOwner` | src/index.js:31-45 | Any sequence of clicks preserves the property that all complete lines belong to the same player. |
| `TicTacToe.ReachableWinnerOwnsEveryLine` | src/index.js:108-126 | Take any state reachable from the initial one. Every complete line on its board belongs to the reported winner. So in play, the scan order never changes which player is reported. |
| `TicTacToe.Status` | src/index.js:57-64 | The status line ends with one player's mark: the winner's if there is one, otherwise the mover's. The text before that mark is `"Winner: "` exactly when there is a winner. It is `"Next player: "` exactly when there is none. |

`TicTacToe.TopRowScenario` is a client method with no contract of its own. It clicks squares 0, 3, 1, 4 and 2 on a new `Board`, so X completes the top row. A further click on square 5 leaves the state unchanged, and the status reads `"Winner: X"`.

## Left out

- `Square`, `renderSquare`, the JSX layout of `render`, the `Game` component and the `ReactDOM.render` call (src/index.js:13-19, 47-54, 66-86, 90-104, 130-133): rendering and DOM plumbing, with no game logic.
- The React and stylesheet imports (src/index.js:1-3): foreign libraries.
- React's `setState` scheduling and re-rendering: the model replaces both fields directly, in one step.
- Move history, time travel and `jumpTo`: src/index.js has none of them. `Game` is a placeholder with a TODO list (src/index.js:99).
- Draw detection: the source has no draw outcome, and the model adds none (see `DrawShowsNextPlayerO`).
- Out-of-range square indices: the source never checks `i`, so `HandleClick` and `Click` require `i < 9`.
- `Board.HandleClick` writes into a copy of the squares and then installs the copy. The model keeps the squares as a value sequence, so the copy is the value update `squares[i := mark]`. Aliasing of the JavaScript array is not modelled; the source never shares that array.
