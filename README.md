# Tic-tac-toe game engine

A Dafny model of the game-state engine of a React tic-tac-toe front end. The `App` component
keeps four state values: the 9-cell `board` (each cell null, `'X'` or `'O'`), `isXNext`,
`winner` (null, `'X'`, `'O'` or `'draw'`) and `moveCount`. Two handlers change them:
`handleCellClick(idx)` places the current player's symbol unless the cell is taken or the game
is decided, then records a winner, a draw on the 9th move, or passes the turn; `handleRestart`
puts all four values back to their initial values. `calculateWinner` scans the 8 winning lines
(3 rows, 3 columns, 2 diagonals) in a fixed order and returns the symbol of the first complete
one. The status label and every cell's `disabled` flag are derived from the state.

The project has three modules:

- `Board` (Board.dfy): players, cells, the table of lines, the specification `WinnerOf` of the
  winner scan together with its characterisation lemmas, the `calculateWinner` loop as the
  method `CalculateWinner` over an array, and mark counting.
- `Game` (Game.dfy): the four state values as a `State` snapshot; `Click` and `Restart`, the
  transitions that specify the two handlers; the status label `StatusOf` and the `Disabled`
  flag; the invariant `Reachable` of every state a game can reach, and lemmas about games
  played from a fresh start (`Play`).
- `Engine` (Engine.dfy): the class `TicTacToe`, whose fields are the four state values (the
  board an `array`), with the two handlers as methods proved against `Click` and `Restart`.
  Each handler's `useState` updates are one atomic transition. As in the source, an accepted
  click builds a copy of the board (`slice`) and installs it, and restart installs a fresh
  empty board.

Cells are addressed 0..8 in row-major order. The status label is an enumeration
(`DrawLabel`, `WinnerLabel(p)`, `TurnLabel(p)`) rather than text.

The turn does not change after every accepted move. The code flips `isXNext` only when the
move neither wins nor fills the board. So after a win, `isXNext` still names the winner, and
after a draw it names X, who made the 9th move. `Game.ClickTurn` and the `XLead` term of
`Game.Reachable` state this.

## Model

| member | source | states |
|---|---|---|
| `Board.CalculateWinner` | tic_tac_toe_frontend/src/App.js:58-75 | the scan over the 8 lines returns exactly `WinnerOf` of the board it was given: the symbol of the first complete line in scanning order, or nothing |
| `Board.WinnerFromSpec` | tic_tac_toe_frontend/src/App.js:64-74 | a scan that starts at line i finds nothing exactly when no line from i on is complete; when it finds a symbol, that symbol fills all three cells of the first complete line from i on |
| `Board.WinnerOfSpec` | tic_tac_toe_frontend/src/App.js:58-75 | the winner is absent exactly when no line is complete; a winner p fills all three cells of some line, and no earlier line is complete |
| `Board.LineOfHasWinner` | tic_tac_toe_frontend/src/App.js:64-72 | when player p fills a whole line, the board has a winner; if the winner is not p, an earlier line in scanning order is filled by the winner |
| `Board.EveryLineRecognised` | tic_tac_toe_frontend/src/App.js:59-63 | each of the 8 lines (3 rows, 3 columns, 2 diagonals), filled alone by either player, makes that player the winner |
| `Board.MarksAfterFill` | tic_tac_toe_frontend/src/App.js:25-26 | filling an empty cell with p's symbol adds one mark for p and none for the other player |
| `Board.OccupiedBound` | tic_tac_toe_frontend/src/App.js:12 | a board never has more occupied cells than cells |
| `Board.SomeCellEmpty` | tic_tac_toe_frontend/src/App.js:35 | a board with fewer occupied cells than cells has an empty cell |
| `Game.Click` | tic_tac_toe_frontend/src/App.js:23-40 | an ignored click leaves all four values unchanged; an accepted click writes the current player's symbol to exactly cell idx, keeps every other cell, and adds exactly 1 to the move count |
| `Game.Disabled` | tic_tac_toe_frontend/src/App.js:128 | a cell is disabled exactly when a click on it would leave the whole state unchanged |
| `Game.StatusOf` | tic_tac_toe_frontend/src/App.js:78-85 | the label is Draw exactly when winner is `'draw'`, Winner(p) exactly when winner is p, and Turn(p) exactly when there is no winner and p is the symbol `isXNext` selects |
| `Game.InitialReachable` | tic_tac_toe_frontend/src/App.js:12-16 | the initial state satisfies the invariant of reachable states |
| `Game.NewWinnerIsMover` | tic_tac_toe_frontend/src/App.js:26-34 | if a board had no winner and filling one empty cell with p gives it one, the winner is p |
| `Game.ClickPreservesReachable` | tic_tac_toe_frontend/src/App.js:23-40 | every click keeps the invariant: 9 cells, the move count equals the number of occupied cells and is at most 9, X leads O by the amount the turn implies, and `winner` agrees with the board (no line and under 9 moves while on, the winning line's symbol after a win, no line and 9 moves after a draw) |
| `Game.PlayReachable` | tic_tac_toe_frontend/src/App.js:12-40 | every state reached by clicks from a fresh game satisfies the invariant; in particular the move count equals the number of occupied cells and never exceeds 9 |
| `Game.TurnFollowsMarks` | tic_tac_toe_frontend/src/App.js:33-39 | while the game is on, X is to move exactly when both players have placed the same number of marks (an even move count) and O exactly when X has placed one more |
| `Game.ClickTurn` | tic_tac_toe_frontend/src/App.js:33-39 | an accepted click that leaves the game on passes the turn to the other player; one that decides the game keeps the turn, and a winner is the player who just moved |
| `Game.DecidedGameIsFrozen` | tic_tac_toe_frontend/src/App.js:24 | once a game is won or drawn, any further sequence of clicks leaves the state unchanged |
| `Game.MarksArePermanent` | tic_tac_toe_frontend/src/App.js:24-28 | a cell that holds a symbol keeps it through any further clicks |
| `Game.StatusMatchesBoard` | tic_tac_toe_frontend/src/App.js:78-85 | in a reachable state a Draw label means a full board without a line, Winner(p) means p fills some line, and Turn(p) means p is to move, no line is complete and some cell is empty |
| `Game.RestartIsInitial` | tic_tac_toe_frontend/src/App.js:46-51 | restart from any state gives all 9 cells empty, X to move, no winner and 0 moves, which is a reachable state |
| `Game.PlayStep` | tic_tac_toe_frontend/src/App.js:23-40 | playing one more click applies one more click transition to the state reached so far |
| `Game.TopRowScenario` | tic_tac_toe_frontend/src/App.js:32-34 | clicks 0, 3, 1, 4, 2 give X the top row after 5 moves, and a further click at 5 changes nothing |
| `Game.DrawScenario` | tic_tac_toe_frontend/src/App.js:35-36 | clicks 0, 1, 2, 4, 3, 5, 7, 6, 8 fill the board without a line and end in a draw after 9 moves |
| `Engine.TicTacToe.constructor` | tic_tac_toe_frontend/src/App.js:12-16 | a new engine holds the initial state: an empty 9-cell board, X to move, no winner, 0 moves |
| `Engine.TicTacToe.HandleCellClick` | tic_tac_toe_frontend/src/App.js:23-40 | the click updates the fields exactly as `Game.Click` prescribes, keeps the engine's invariant, and installs a newly allocated board when it changes the board |
| `Engine.TicTacToe.HandleRestart` | tic_tac_toe_frontend/src/App.js:46-51 | restart installs a fresh empty board and sets the fields to the initial state, from any valid state |

## Left out

- JSX rendering: the `BoardGrid` and `BoardCell` markup, CSS classes, aria labels and tab index. Only the `disabled` rule is modelled, as `Game.Disabled`.
- The text and emoji of the status strings. The label is the enumeration `Game.Status`.
- The footer's current-year clock read. It has no bearing on the game.
- React's batching and asynchronous re-rendering. Each handler is one synchronous transition.
- The stylesheet import and the module export. They are module plumbing.
- Clicks outside cells 0..8. The only caller is the grid, which passes its own cell indices, so `idx` has type `Index`.
