# Tic-tac-toe game controller

A Dafny model of the game controller of a browser tic-tac-toe page. The
controller keeps three global variables: whose turn it is (`currentTurn`,
CROSS or CIRCLE), the game status (`gameStatus`, PLAYING, ENDED, X_WIN or
O_WIN) and the board (`cellValues`, nine slots holding `''`, `'X'` or
`'O'`). Three operations change them:

- a click on a cell (`handleCellClick`),
- the turn flip it performs (`toggleTurn`),
- the replay button (`resetGame`).

The model has three modules:

- `Constants` (constants.dfy): the TURN, CELL_VALUE and GAME_STATUS enumerations.
  It also holds the verdict the board evaluator returns and an `Outcome` for
  "returned normally" versus "threw".
- `Rules` (rules.dfy): the state machine as pure functions over a snapshot
  `Game(turn, status, cells)`, with the lemmas that state what the controller
  promises. `Run` replays a series of clicks and replays.
- `Main` (controller.dfy): class `Controller`, with the three globals as
  fields and the board as an `array<Cell>` that a click writes in place.
  `ToggleTurn`, `HandleCellClick` and `ResetGame` are each proved to move the
  state as `Rules.Toggle`, `Rules.Click` and `Rules.Reset` say;
  `UpdateGameStatus` only sets the status.

The board evaluator `checkGameStatus` lives in a file that is not part of
this model. It is a parameter of type `Board -> Verdict` wherever it is
used, so every property below holds for any evaluator: the proofs are about
how the controller reacts to the verdict, never about how the verdict is
reached.

Modelling assumption: the page decides "already clicked" from the CSS
classes of the clicked cell (js/main.js:69-70). Those classes are added at
js/main.js:74 in the same step that writes `cellValues[index]` at
js/main.js:76-77, and both are cleared together by `resetGame`. So the model
reads occupancy as `cellValues[index] != Empty`.

The turn flips on every accepted move, including the one that wins or fills
the board: `toggleTurn` runs at js/main.js:79, before the board is evaluated
at js/main.js:81 (`Rules.AcceptedClickFlipsTurn`).

## Model

| member | source | states |
|---|---|---|
| `Rules.Initial` | js/main.js:15-18 | The start state: CROSS to move, PLAYING, and nine blank cells. |
| `Rules.Toggle` | js/main.js:36-38 | The turn always passes to the other player and is never unchanged. |
| `Rules.ToggleTwice` | js/main.js:38 | Flipping the turn twice restores it. |
| `Rules.Mark` | js/main.js:76-77 | A move writes `'O'` exactly when CIRCLE is to move and `'X'` otherwise; it never writes a blank. |
| `Rules.Accepts` | js/main.js:69-72 | A click is taken only on a blank cell while the status is PLAYING, so a game that is over or a full board accepts no click. |
| `Rules.Settle` | js/main.js:82-102 | ENDED, X_WIN and O_WIN are stored; anything else leaves the status as it was. |
| `Rules.Click` | js/main.js:68-103 | A click, whether accepted or ignored, leaves a nine-cell board. |
| `Rules.HighlightWinCells` | js/main.js:59-62 | The guard passes exactly for an array of three positions; otherwise it throws "Invalid positions!". |
| `Rules.ClickOutcome` | js/main.js:68-103 | A click throws exactly when it is accepted, the evaluator reports X_WIN or O_WIN for the new board, and the reported positions are not an array of three; what it throws is "Invalid positions!". |
| `Rules.Reset` | js/main.js:104-108 | A reset gives CROSS to move, PLAYING, and a board of the same length with every cell blank. |
| `Rules.Apply` | js/main.js:126-148 | A cell click goes to the click handler and a replay click to the reset, and the board keeps nine cells. |
| `Rules.Run` | js/main.js:126-148 | Clicks and replays are handled one at a time, and the board keeps nine cells throughout. |
| `Rules.IgnoredClickIsNoOp` | js/main.js:69-72 | A click on an occupied cell, or any click once the status is not PLAYING, leaves board, turn and status unchanged and does not throw. |
| `Rules.AcceptedClickWritesOneCell` | js/main.js:74-77 | An accepted click writes the mover's symbol into the clicked cell and leaves the other eight cells as they were. |
| `Rules.AcceptedClickFlipsTurn` | js/main.js:79-81 | An accepted click always hands the turn to the other player, also when the move ends the game. |
| `Rules.AcceptedClickStatus` | js/main.js:81-102 | After an accepted click the status is the evaluator's status for the new board, so the game is over exactly when the evaluator reports ENDED, X_WIN or O_WIN. |
| `Rules.ClickTwiceIsClickOnce` | js/main.js:69-77 | Clicking the same cell a second time has no further effect. |
| `Rules.ClickFillsOneCell` | js/main.js:69-77 | An accepted click fills exactly one more cell and an ignored click fills none. |
| `Rules.ClickKeepsBalance` | js/main.js:68-79 | Every click keeps the balance: X has as many marks as O with CROSS to move, or one more with CIRCLE to move. |
| `Rules.ResetIsInitial` | js/main.js:104-108 | From any nine-cell state, a reset gives exactly the start state. |
| `Rules.ResetIdempotent` | js/main.js:104-108 | Resetting twice is the same as resetting once. |
| `Rules.InitialBalanced` | js/main.js:15-18 | The start state is balanced and has no filled cell. |
| `Rules.ResetBalanced` | js/main.js:104-108 | After a reset the board is empty and balanced, whatever the state was before. |
| `Rules.RunKeepsBalance` | js/main.js:68-125 | From a balanced state, every series of clicks and replays stays balanced. |
| `Rules.ReachableIsBalanced` | js/main.js:15-18 | Every state reachable from the start state is balanced. |
| `Rules.OverGameIgnoresClicks` | js/main.js:71-72 | Once the status is not PLAYING, any series of cell clicks changes nothing until a replay. |
| `Rules.ReplayRestarts` | js/main.js:126-130 | A click on the replay button takes any session back to the start state. |
| `Main.Controller.constructor` | js/main.js:15-18 | The globals start as CROSS, PLAYING and nine blank cells, which is a balanced state. |
| `Main.Controller.ToggleTurn` | js/main.js:36-45 | The turn becomes the other player; board and status are not touched. |
| `Main.Controller.UpdateGameStatus` | js/main.js:46-50 | The status becomes the given value; turn and board are not touched. |
| `Main.Controller.HandleCellClick` | js/main.js:68-103 | The board is changed in the same array, and the new state is `Rules.Click` of the old one. The result is `Rules.ClickOutcome`, and balance is preserved. |
| `Main.Controller.ResetGame` | js/main.js:104-125 | The board is a new all-blank array of nine cells, with CROSS to move and status PLAYING. This is the start state and is balanced. |

## Left out

- All DOM work is left out: element lookups, class-list edits, status text, and showing or hiding the replay button (js/main.js:39-44, 48-49, 51-58, 63-66, 112-124). It is presentation over a browser API whose code is not part of this model.
- The loop in highlightWinCells that marks the winning cells (js/main.js:63-66) is left out; only its guard is modelled, as `Rules.HighlightWinCells`.
- Event wiring and start-up are left out: `initReplayButton`, `initCellElementList`, and the click delegation with `parseInt` of `dataset.idx` (js/main.js:126-152). Their effect appears as `requires index < 9` on a click and as the event series of `Rules.Run`.
- The body of `checkGameStatus` (js/utils.js) and the constants module (js/constants.js) are not part of this model. The evaluator is an arbitrary function parameter, and the constants are enumerations.
- Main.Controller.HandleCellClick: it assumes the evaluator does not modify the board it is handed and returns one of the four statuses. JavaScript would allow an evaluator that writes into `cellValues` or returns some other string; such a string would leave the status PLAYING.
- The debugging `console.log` call (js/main.js:20) and the unused `isGameEnded` variable (js/main.js:17) are left out.
