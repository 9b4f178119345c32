# tictacjoy game store in Dafny

This project models the game-state store of tictacjoy, a two-player tic-tac-toe game. The store lives in
`src/hooks/useGameStore.ts` and has four fields:

- `board`: nine cells, each `'X'`, `'O'` or empty;
- `currentPlayer`;
- `winner`: empty while the game is in progress, otherwise `'X'`, `'O'` or `'draw'`;
- `winningLine`: the three indices of the completed line, if any.

The store has two actions: `makeMove(index)` and `resetGame()`. A pure helper, `calculateWinner`, scans the
eight lines of the board.

`game_store.dfy` (module `TicTacToe`) holds the model:

- `CalculateWinner` scans the eight lines in the source's order: rows, then columns, then diagonals. It
  reports the first line whose three cells hold the same player.
- `Move` is the transition that `makeMove` hands to the store's `set`. `Play` applies a sequence of moves
  to a new game.
- `Consistent` is the invariant of every reachable state.
- The class `GameStore` holds the four fields. Its methods `MakeMove` and `ResetGame` replace them in place,
  as the store's actions do. `MakeMove` is proved to produce exactly `Move` of the old state.

`scenarios.dfy` (module `Scenarios`) plays concrete games from a new game, a few moves per lemma.

The JavaScript null and string values are modelled with datatypes:

- `Option<Player>` stands for a cell or for the reported winner.
- `Winner` is `Nobody | Won(player) | Draw` and stands for the `GameStatus` field.
- `Triple` stands for a three-index line.

The source has no integer arithmetic that could overflow.

One move can fill the board and complete a line at the same time. In the game X 0, O 1, X 2, O 3, X 4, O 5,
X 7, O 6, X 8, the last move completes the diagonal 0, 4, 8. `makeMove` checks for a win before it checks for
a full board (src/hooks/useGameStore.ts:54-66), so X wins. `Scenarios.DiagonalGameWonOnFullBoard` proves
this. `Scenarios.BlockedGameDrawn` proves a game that does end in a draw.

One move can also complete two lines at once. Rows are scanned before columns, so the row is recorded.
`Scenarios.EdgeGameWonOnTwoLines` proves this.

## Model

| member | source | states |
|---|---|---|
| TicTacToe.Other | src/hooks/useGameStore.ts:78 | the player toggle yields the other player |
| TicTacToe.Completed | src/hooks/useGameStore.ts:34 | a line counts as completed exactly when its three cells are all X or all O |
| TicTacToe.Full | src/hooks/useGameStore.ts:65 | the board is full exactly when no cell is empty |
| TicTacToe.SearchFrom | src/hooks/useGameStore.ts:31-38 | the scan's result has a winner exactly when it has a line |
| TicTacToe.CalculateWinner | src/hooks/useGameStore.ts:23-39 | the result has a winner exactly when it has a line (both null or both set) |
| TicTacToe.SearchFromFindsFirst | src/hooks/useGameStore.ts:31-38 | scanning from line k returns the first completed line from k on, with the player on it, and returns nothing exactly when no line from k on is completed |
| TicTacToe.WinnerSound | src/hooks/useGameStore.ts:25-36 | a reported line is one of the eight, its three cells hold the reported player, and no earlier line in row/column/diagonal order is completed |
| TicTacToe.WinnerComplete | src/hooks/useGameStore.ts:31-38 | winner and line are both null exactly when no line has three equal non-empty cells |
| TicTacToe.WinnerIsFirstCompleted | src/hooks/useGameStore.ts:31-36 | the first completed line in scanning order fully determines the result: its player and that line |
| TicTacToe.Move | src/hooks/useGameStore.ts:44-81 | a move keeps the board at nine cells; its branches are stated by the five Move lemmas below |
| TicTacToe.MoveRejected | src/hooks/useGameStore.ts:47-49 | a move on an occupied cell, or once a winner or a draw is set, leaves board, player, winner and line unchanged |
| TicTacToe.MoveSetsOneCell | src/hooks/useGameStore.ts:51-52 | an accepted move puts the current player on the chosen cell and leaves every other cell as it was |
| TicTacToe.MoveWins | src/hooks/useGameStore.ts:54-63 | a move that completes a line sets the winner to that line's player and records that line, and the turn does not pass; if no line was completed before, the winner is the mover and the line runs through the moved cell |
| TicTacToe.MoveDraws | src/hooks/useGameStore.ts:65-73 | a move that completes no line and fills the board sets a draw and leaves the player and the line as they were |
| TicTacToe.MoveContinues | src/hooks/useGameStore.ts:74-79 | a move that completes no line and leaves a cell empty keeps the game in progress and passes the turn to the other player |
| TicTacToe.CountPlace | src/hooks/useGameStore.ts:51-52 | taking an empty cell adds one to the mover's cell count and leaves the other player's count unchanged |
| TicTacToe.CountFull | src/hooks/useGameStore.ts:65 | on a full board the X cells and the O cells together make up every cell |
| TicTacToe.CompletedByMove | src/hooks/useGameStore.ts:51-54 | a line that the move completes passes through the moved cell, and the mover is on it |
| TicTacToe.MoverWins | src/hooks/useGameStore.ts:51-62 | if no line was completed before a move, any line the detector then reports is the mover's and passes through the moved cell |
| TicTacToe.InitialConsistent | src/hooks/useGameStore.ts:16-21 | the initial state (empty board, X to move, no winner, no line) satisfies the reachable-state invariant |
| TicTacToe.MovePreservesConsistent | src/hooks/useGameStore.ts:44-81 | every move, accepted or rejected, preserves the reachable-state invariant |
| TicTacToe.Play | src/hooks/useGameStore.ts:41-81 | any sequence of moves from a new game yields a nine-cell board |
| TicTacToe.PlayConsistent | src/hooks/useGameStore.ts:44-81 | every state reached by moves from a new game satisfies the invariant: X's lead over O, the winner, the line and the fullness of the board all agree |
| TicTacToe.PlayAlternates | src/hooks/useGameStore.ts:75-79 | X's cell count minus O's is always 0 or 1, and while the game is in progress it is 0 exactly when X is to move |
| TicTacToe.PlayWinningLine | src/hooks/useGameStore.ts:54-72 | a winning line is recorded exactly when a player has won, never for a draw or in progress, and it is a completed line of the winner |
| TicTacToe.PlayDrawEndsWithX | src/hooks/useGameStore.ts:65-73 | a drawn game has X as current player, with five X cells and four O cells |
| TicTacToe.PlayTerminalAbsorbs | src/hooks/useGameStore.ts:47-49 | once a game is won or drawn, any further moves leave the whole state unchanged |
| TicTacToe.GameStore.constructor | src/hooks/useGameStore.ts:41-42 | a new store holds the initial state and satisfies the invariant |
| TicTacToe.GameStore.MakeMove | src/hooks/useGameStore.ts:44-81 | the action's new state equals `Move` of the old state, and a consistent store stays consistent |
| TicTacToe.GameStore.ResetGame | src/hooks/useGameStore.ts:83-85 | whatever the prior state, the store becomes the initial state (so a second reset changes nothing) and satisfies the invariant |
| Scenarios.ColumnGameOpens | src/hooks/useGameStore.ts:44-81 | X 0, O 1, X 3 from a new game yields the expected board with O to move |
| Scenarios.ColumnGameWon | src/hooks/useGameStore.ts:54-63 | continuing with O 4, X 6 completes column 0, 3, 6: X wins on that line and stays current |
| Scenarios.CornerGameOpens | src/hooks/useGameStore.ts:44-81 | X 0, O 1, X 2 from a new game yields the expected board with O to move |
| Scenarios.DiagonalGameContinues | src/hooks/useGameStore.ts:74-79 | O 3, X 4, O 5 continue the game with X to move |
| Scenarios.DiagonalGameWonOnFullBoard | src/hooks/useGameStore.ts:54-73 | X 7, O 6, X 8 fill the board and complete diagonal 0, 4, 8, and the game is won, not drawn, because the win is checked first |
| Scenarios.BlockedGameContinues | src/hooks/useGameStore.ts:74-79 | O 4, X 3, O 5 after the corner opening continue the game with X to move |
| Scenarios.BlockedGameGoesOn | src/hooks/useGameStore.ts:74-79 | X 7, O 6 continue the game with X to move and one cell left |
| Scenarios.BlockedGameDrawn | src/hooks/useGameStore.ts:65-73 | X 8 fills the board with no completed line: a draw, X still current, no winning line |
| Scenarios.EdgeGameOpens | src/hooks/useGameStore.ts:44-81 | X 1, O 4, X 2 from a new game yields the expected board with O to move |
| Scenarios.EdgeGameContinues | src/hooks/useGameStore.ts:74-79 | O 5, X 3, O 7 complete no line and leave X to move |
| Scenarios.EdgeGameWonOnTwoLines | src/hooks/useGameStore.ts:25-36 | X 6, O 8, X 0 complete both row 0, 1, 2 and column 0, 3, 6 in one move; the row comes first in scanning order and is the recorded line |
| Scenarios.RepeatedCellIgnored | src/hooks/useGameStore.ts:47-49 | a second move on cell 0 is ignored: the cell stays X and O stays to move |

## Left out

- The zustand `create`/`set` subscription mechanism and observer notification are not modelled. Only the
  state that `set` installs is modelled. `GameStore.State` is the read-only snapshot.
- `GameStore.MakeMove` requires `0 <= index < 9`. The source does not check the index. In JavaScript, writing
  `newBoard[9]` would grow the array to ten cells. The only caller passes indices taken from the nine-cell
  board, so the model leaves out that behaviour.
- Sharing of the `INITIAL_STATE.board` array between resets is not modelled. The board is a value (`seq`),
  and every move builds a new one, as the source's copy does. Object identity of arrays is therefore left out.
- `src/pages/HomePage.tsx` is not part of this model: it holds rendering, animation, the confetti timer and
  window-resize listeners.
- `src/components/game/GameIcons.tsx` is not part of this model: it holds SVG markup and animation constants.
