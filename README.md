# TetraMaster engine in Dafny

TetraMaster is a falling-block game written as a single React component. This project models its engine in Dafny:

- the 20 x 10 board of colour ids;
- the seven shape templates and the clockwise rotation of a shape;
- the collision test, merging a piece into the board, and clearing full rows;
- the scoring table and the gravity period;
- the component's state and the handlers that change it: lock, hard drop, the gravity tick, the key commands and restart;
- the two render overlays: the board with the falling piece painted on it, and the 4 x 4 preview of the next piece.

The project has four modules, one file each:

- `Pieces` (`pieces.dfy`) holds:
  - the dimensions and the shape templates;
  - tetromino values and the generator, which takes the drawn index as a parameter;
  - `Rotate` with its cell equation;
  - `Turn`, which applies `Rotate` n times, and the rotation laws: four turns are the identity, counter-clockwise equals three clockwise turns, and a turn keeps the number of occupied cells.
- `Playfield` (`playfield.dfy`) holds the board operations. Each operation the game performs with loops is a method: `IsValidMove`, `Merge`, `ClearLines` and `DrawMini`. Each is proved equal to a declarative definition:
  - `Fits` for the collision test;
  - `Overlay` for merging and painting;
  - `Kept`, `FullCount` and `Cleared` for clearing rows.

  Lemmas about these definitions state what merging and clearing do to the board.
- `Scoring` (`scoring.dfy`) holds `GetScore` and `GetInterval`.
- `Engine` (`engine.dfy`) holds:
  - the game state as a value, `GameState`, and the transitions as functions: `Lock`, `Landing`, `Gravity`, `KeyStep`, `Apply` and `Play`;
  - the invariant `Inv`, which every transition keeps;
  - the class `Game`. Its fields are the component's state hooks. Each of its methods performs one handler and is proved to reach exactly the state the matching transition function gives.

Randomness is a parameter. A `Kind` (0..6) stands for one call of the random generator:
- a lock draws one new piece;
- the constructor and a restart draw two.

Key events arrive already decoded as a `Command`.

### Behaviour of the code worth knowing

- **Soft drop never locks.** The down arrow moves the piece one row if it fits and otherwise does nothing (`TetraMaster.js:283-285`). Only gravity and the hard drop lock a piece.
- **A failed spawn still commits.** When the promoted piece does not fit, lockPiece still commits the new board, score, lines, level, falling piece, next piece and position, and then sets `gameOver` (`TetraMaster.js:236-249`).
- **Two spawn columns.** The first piece appears at x = 3, both at mount and after a restart (`TetraMaster.js:180`, `355`). After a lock, the promoted piece appears at `floor((COLS - width) / 2)` (`TetraMaster.js:226`).
- **Restart while the game is over.** The key handler is not installed while the game is over, so the R key does nothing then (`TetraMaster.js:267-271`). `handleRestart` itself resets every field from any state (`TetraMaster.js:351-361`), but its button is rendered only while `gameOver` holds (`TetraMaster.js:541-544`). `KeyStep` therefore ignores every command, `Restart` included, once `gameOver` holds. A press of the button (`Input.RestartButton`) restarts a finished game and does nothing in a running one, where no button is shown. Since the game cannot end (below), the button never appears in practice.

### The game can never end

Every template keeps its occupied cells in its top two rows (`TemplateTopRows`). A promoted piece is always a fresh template placed at row -2. Its cells are therefore above the board, and the collision test accepts any cell above the board. As a result:
- the spawn test in lockPiece passes on every board (`SpawnAlwaysFits`);
- no lock ends a running game (`LockNeverEnds`);
- no sequence of inputs ends a running game (`ApplyNeverEnds`, `PlayNeverEnds`).

When the stack reaches the top, pieces keep spawning above it. They lock at row -2 or -1, and `merge` drops their off-board cells. The model keeps this behaviour, as written, and proves it.

Another consequence of the code: the level always equals the number of tens of lines cleared (part of `Inv`). A lock clears at most four lines (`LockClearsAtMostFour`), so the code's "at most one level per lock" step never falls behind that count.

## Model

| member | source | states |
|---|---|---|
| Pieces.Template | tetramaster_game/src/TetraMaster.js:39-82 | each of the seven templates is square, of side 2 to 4, has an occupied cell, and its occupied cells all hold colour k + 1 |
| Pieces.TemplateTopRows | tetramaster_game/src/TetraMaster.js:39-82 | every template's occupied cells lie in its first two rows |
| Pieces.RandomTetromino | tetramaster_game/src/TetraMaster.js:97-101 | the piece for drawn index k is a well-formed piece whose colour is k + 1 and whose index is k |
| Pieces.Rotate | tetramaster_game/src/TetraMaster.js:90-94 | the clockwise turn of an R x C matrix is C x R, and its cell (c, k) is the input's cell (R-1-k, c) |
| Pieces.RotateMovesCell | tetramaster_game/src/TetraMaster.js:90-94 | the input cell (row, c) ends up at (c, R-1-row) |
| Pieces.RotateSquare | tetramaster_game/src/TetraMaster.js:90-94 | a turn keeps a square shape square and of the same size, keeps each cell empty or of the piece's colour, and keeps an occupied cell |
| Pieces.RotatePiece | tetramaster_game/src/TetraMaster.js:289-296 | the clockwise rotation a key applies leaves a well-formed piece |
| Pieces.Turn | tetramaster_game/src/TetraMaster.js:300-305 | n clockwise turns keep a square of the same size |
| Pieces.TurnPiece | tetramaster_game/src/TetraMaster.js:300-307 | any number of turns leaves a well-formed piece |
| Pieces.HalfTurn | tetramaster_game/src/TetraMaster.js:90-94 | two clockwise turns read the matrix backwards in both directions |
| Pieces.HalfTurnsCancel | tetramaster_game/src/TetraMaster.js:90-94 | four clockwise turns of a square shape give it back |
| Pieces.FourTurns | tetramaster_game/src/TetraMaster.js:90-94 | `Turn(m, 4) == m` |
| Pieces.CounterClockwise | tetramaster_game/src/TetraMaster.js:300-305 | three clockwise turns move cell (row, c) to (N-1-c, row), and one clockwise turn undoes them, in either order |
| Pieces.ThreeTurnsMoveCells | tetramaster_game/src/TetraMaster.js:303-304 | the cell equation of the counter-clockwise turn |
| Pieces.RotateCounterClockwise | tetramaster_game/src/TetraMaster.js:303-304 | the key handler's loop of three clockwise turns yields `Turn(m, 3)`, which moves cell (row, c) to (N-1-c, row) |
| Pieces.RotateKeepsCellCount | tetramaster_game/src/TetraMaster.js:90-94 | a turn keeps the number of occupied cells |
| Playfield.EmptyBoard | tetramaster_game/src/TetraMaster.js:85-87 | the empty board is 20 x 10, has no full row, and has no occupied cell |
| Playfield.IsValidMove | tetramaster_game/src/TetraMaster.js:104-121 | the scan returns true exactly when every occupied shape cell is inside the columns, above the floor, and on an empty board cell unless above the board |
| Playfield.Fits | tetramaster_game/src/TetraMaster.js:104-121 | a shape fits at (x, y) when every occupied cell lands inside the columns, above the floor, and either above the board or on an empty board cell |
| Playfield.AboveBoardFits | tetramaster_game/src/TetraMaster.js:110-114 | a shape wholly above the board fits whenever its columns are inside the board |
| Playfield.FitsInBounds | tetramaster_game/src/TetraMaster.js:104-121 | a shape that fits is inside the columns and above the floor |
| Playfield.FitsAboveFloor | tetramaster_game/src/TetraMaster.js:112 | a fitting shape with a cell sits above the floor, so its top row is below ROWS |
| Playfield.Overlay | tetramaster_game/src/TetraMaster.js:124-136 | merging keeps a 20 x 10 board |
| Playfield.OverlayOccupies | tetramaster_game/src/TetraMaster.js:124-136 | merging a fitting piece makes the occupied cells the old ones plus the piece's on-board cells, and the two sets are disjoint |
| Playfield.OverlayFillsAtMost | tetramaster_game/src/TetraMaster.js:124-136 | on a board without full rows, merging fills at most as many rows as the shape has |
| Playfield.OverlayInRange | tetramaster_game/src/TetraMaster.js:124-136 | painting with a colour id 0..7 keeps every cell in 0..7 |
| Playfield.Merge | tetramaster_game/src/TetraMaster.js:124-136 | the copy-and-write loop produces `Overlay`: the piece's on-board cells in its colour, every other cell as before |
| Playfield.Kept | tetramaster_game/src/TetraMaster.js:141-147 | the kept rows are rows of the board, none of them full, and no more than there were |
| Playfield.FullCount | tetramaster_game/src/TetraMaster.js:140-147 | the number of full rows, which is at most the number of rows |
| Playfield.KeptPlusFull | tetramaster_game/src/TetraMaster.js:139-153 | every row is either kept or counted as cleared |
| Playfield.Cleared | tetramaster_game/src/TetraMaster.js:139-153 | the cleared board is again 20 x 10 |
| Playfield.SplitRows | tetramaster_game/src/TetraMaster.js:141-147 | keeping and counting distribute over concatenation of row lists |
| Playfield.NoFullRows | tetramaster_game/src/TetraMaster.js:141-147 | with no full row, every row is kept and none is counted |
| Playfield.FullCountZero | tetramaster_game/src/TetraMaster.js:141-147 | no row is counted exactly when no row is full |
| Playfield.FullRowsWithin | tetramaster_game/src/TetraMaster.js:141-147 | if all full rows lie among rows lo..hi-1, at most hi - lo are counted |
| Playfield.ClearedFacts | tetramaster_game/src/TetraMaster.js:139-153 | a board without full rows comes back unchanged; a cleared board has no full row; clearing is idempotent |
| Playfield.ClearedInRange | tetramaster_game/src/TetraMaster.js:139-153 | clearing keeps every cell in 0..7 |
| Playfield.DropFullRows | tetramaster_game/src/TetraMaster.js:140-147 | the filter keeps exactly the non-full rows in order and counts the others; kept plus counted is the number of rows |
| Playfield.ClearLines | tetramaster_game/src/TetraMaster.js:139-153 | the result is the number of full rows and the board with them removed and as many empty rows pushed on top |
| Playfield.DrawMini | tetramaster_game/src/TetraMaster.js:339-348 | the preview is a 4 x 4 grid holding the colour exactly at the shape's occupied cells and 0 elsewhere |
| Scoring.GetScore | tetramaster_game/src/TetraMaster.js:156-162 | the score is never negative at a non-negative level, and is zero exactly when no line is cleared |
| Scoring.ScoreScales | tetramaster_game/src/TetraMaster.js:156-162 | each score is the table entry 40/100/300/1200 times level + 1 |
| Scoring.ScoreMonotone | tetramaster_game/src/TetraMaster.js:156-162 | more lines or a higher level never scores less |
| Scoring.GetInterval | tetramaster_game/src/TetraMaster.js:192-193 | the period is at least 120 ms, and at most 900 ms at a non-negative level |
| Scoring.IntervalNonIncreasing | tetramaster_game/src/TetraMaster.js:192-193 | the period never grows with the level; it is 900 - 75 * level up to level 10 and 120 from level 11 on |
| Engine.Inv | tetramaster_game/src/TetraMaster.js:178-252 | the invariant of every reachable state: a 20 x 10 board of colour ids 0..7 with no full row, a well-formed falling piece, a freshly generated next piece, a non-negative score and line total, a level equal to the tens of lines cleared, and, while the game runs, a falling piece that fits where it is |
| Engine.SpawnX | tetramaster_game/src/TetraMaster.js:226 | the spawn column of a promoted piece is `floor((COLS - width) / 2)`: for a shape no wider than the board it leaves the piece inside the columns, centred, with at most one more free column on the right than on the left |
| Engine.Lock | tetramaster_game/src/TetraMaster.js:215-252 | locking at (lx, ly) merges the falling piece, clears the full rows, adds `GetScore` of the cleared lines at the old level, adds the lines, raises the level by one when the tens of lines pass it, promotes the next piece to (SpawnX, -2), takes the new draw as next piece, and sets gameOver when the promoted piece does not fit, keeping all the other updates |
| Engine.Gravity | tetramaster_game/src/TetraMaster.js:255-264 | a tick does nothing once the game is over; otherwise it moves the piece one row down if it fits there, and locks it where it is if not |
| Engine.Shift | tetramaster_game/src/TetraMaster.js:277-285 | a move or the soft drop by (dx, dy) changes the position to the shifted one when the piece fits there, and changes nothing otherwise |
| Engine.Turned | tetramaster_game/src/TetraMaster.js:292-307 | a rotation to shape r replaces the falling shape by r, keeping position and colour, when r fits in place, and changes nothing otherwise |
| Engine.Dropped | tetramaster_game/src/TetraMaster.js:206-212 | the hard drop locks the piece in its column at the `Landing` row |
| Engine.KeyStep | tetramaster_game/src/TetraMaster.js:268-310 | once the game is over no command does anything; otherwise left and right shift by one column, the down arrow by one row, space hard-drops, the clockwise key turns the shape once, the counter-clockwise keys turn it three times, and R restarts from `Initial` |
| Engine.Apply | tetramaster_game/src/TetraMaster.js:255-310 | a tick is a `Gravity` step and a key is a `KeyStep`; a press of the restart button, which is rendered only while the game is over (541-544), restarts from `Initial` when the game is over and does nothing otherwise |
| Engine.SpawnOnEmptyBoard | tetramaster_game/src/TetraMaster.js:178-180 | any well-formed piece fits at (3, -2) on the empty board |
| Engine.Initial | tetramaster_game/src/TetraMaster.js:178-185 | the start state satisfies the invariant, is running, has an empty board and zero counters, and has a 900 ms period |
| Engine.Landing | tetramaster_game/src/TetraMaster.js:206-211 | the landing row is at or below the start, every row passed fits, and one row lower does not fit |
| Engine.LockClearsAtMostFour | tetramaster_game/src/TetraMaster.js:217-219 | a lock clears at most as many lines as the piece has rows, so at most four |
| Engine.LockEffects | tetramaster_game/src/TetraMaster.js:215-252 | the lock's board is the merged board cleared; the score, lines and level change as specified, and the level rises by at most one; the next piece is promoted to (SpawnX, -2) and a new one drawn; the game ends exactly when the promoted piece does not fit |
| Engine.LockKeepsInv | tetramaster_game/src/TetraMaster.js:215-252 | locking a fitting piece keeps the invariant, including level = lines / 10 and cells in 0..7 |
| Engine.LevelStep | tetramaster_game/src/TetraMaster.js:240-243 | adding fewer than ten lines raises the tens of lines by at most one |
| Engine.HardDropLands | tetramaster_game/src/TetraMaster.js:206-211 | a hard drop passes only through fitting rows and stops where one row lower does not fit |
| Engine.ShiftKeepsInv | tetramaster_game/src/TetraMaster.js:276-285 | moves and the soft drop keep the invariant |
| Engine.TurnedKeepsInv | tetramaster_game/src/TetraMaster.js:289-307 | rotations keep the invariant |
| Engine.GravityKeepsInv | tetramaster_game/src/TetraMaster.js:255-264 | a gravity tick keeps the invariant |
| Engine.DroppedKeepsInv | tetramaster_game/src/TetraMaster.js:206-212 | a hard drop keeps the invariant |
| Engine.KeyStepKeepsInv | tetramaster_game/src/TetraMaster.js:269-310 | every key command keeps the invariant |
| Engine.ApplyKeepsInv | tetramaster_game/src/TetraMaster.js:255-310 | every input keeps the invariant |
| Engine.GameOverFreezes | tetramaster_game/src/TetraMaster.js:255-271 | once the game is over, ticks and key commands, including R, change nothing |
| Engine.MovesOnlyWhenFit | tetramaster_game/src/TetraMaster.js:277-307 | a move, the soft drop or a rotation changes only the position (by one column left or right, or one row down) or the shape (to its clockwise turn, or to three clockwise turns), and only to a placement that fits; in a running game the step is taken whenever that placement fits, and otherwise the state is unchanged; the soft drop never locks |
| Engine.SpawnAlwaysFits | tetramaster_game/src/TetraMaster.js:226-235 | a freshly drawn piece at (SpawnX, -2) fits on every board |
| Engine.LockNeverEnds | tetramaster_game/src/TetraMaster.js:229-249 | a lock in a running game never sets gameOver |
| Engine.ApplyNeverEnds | tetramaster_game/src/TetraMaster.js:247-249 | no input ends a running game |
| Engine.MergeIntoGap | tetramaster_game/src/TetraMaster.js:124-136 | an O piece merged at (4, 18) into a bottom row with a gap at columns 4-5 fills that row and puts its top half on row 18 |
| Engine.ClearGap | tetramaster_game/src/TetraMaster.js:139-153 | clearing that board removes exactly the filled bottom row |
| Engine.SingleLineClear | tetramaster_game/src/TetraMaster.js:215-252 | that lock scores 40 at level 0, makes the line total 1, leaves the level at 0 and the game running, and leaves the O's top half on the bottom row |
| Engine.Play | tetramaster_game/src/TetraMaster.js:255-310 | every state reached by a sequence of inputs satisfies the invariant |
| Engine.ApplyMonotone | tetramaster_game/src/TetraMaster.js:236-243 | an input other than a restart never lowers the score, lines or level, and raises the level by at most one |
| Engine.PlayMonotone | tetramaster_game/src/TetraMaster.js:236-243 | across a run without restarts, the score, lines and level never decrease; a finished game stays unchanged |
| Engine.PlayNeverEnds | tetramaster_game/src/TetraMaster.js:229-249 | a running game stays running whatever the inputs |
| Engine.LockStep | tetramaster_game/src/TetraMaster.js:215-252 | the body of lockPiece, computed with `Merge`, `ClearLines` and `IsValidMove`, yields exactly `Lock` |
| Engine.Game.constructor | tetramaster_game/src/TetraMaster.js:178-185 | mounting yields the initial state, which satisfies the invariant |
| Engine.Game.LockPiece | tetramaster_game/src/TetraMaster.js:215-252 | the handler sets every field to the `Lock` state and keeps the invariant |
| Engine.Game.HardDrop | tetramaster_game/src/TetraMaster.js:206-212 | the drop loop finds the `Landing` row and locks there, keeping the invariant |
| Engine.Game.GravityTick | tetramaster_game/src/TetraMaster.js:255-264 | a tick reaches the `Gravity` state: one row down if it fits, otherwise a lock; nothing happens when the game is over |
| Engine.Game.HandleKey | tetramaster_game/src/TetraMaster.js:269-310 | each command reaches the `KeyStep` state and keeps the invariant; nothing happens when the game is over |
| Engine.Game.TryShift | tetramaster_game/src/TetraMaster.js:277-285 | a move or soft drop shifts the piece exactly when the shifted piece fits |
| Engine.Game.TryShape | tetramaster_game/src/TetraMaster.js:292-307 | a rotation replaces the shape exactly when the rotated shape fits in place |
| Engine.Game.HandleRestart | tetramaster_game/src/TetraMaster.js:351-361 | a restart resets every field to the initial state with two new pieces, from any state |
| Engine.Game.DrawBoard | tetramaster_game/src/TetraMaster.js:320-336 | the display is the board with the falling piece's on-board cells painted in its colour |
| Engine.Game.DrawNext | tetramaster_game/src/TetraMaster.js:450 | the preview grid is 4 x 4 and non-zero exactly at the next piece's occupied cells, always in its colour |

## Left out

- Rendering: JSX, styles, colours, block sizes, the controls help and the layout. Only the two grids the view is built from (`drawBoard`, `drawMini`) are modelled.
- Timers: the gravity interval (`setInterval`/`clearInterval`, `TetraMaster.js:196-203`) and the `tick` counter are not modelled. A tick is an input, `Input.Tick`. `GetInterval` gives the period that would be used. Resetting `tick` to 0 on restart is not modelled.
- Key decoding: mapping `e.code` to a command and `preventDefault` are left out. Commands arrive decoded. Unknown keys do nothing in the code and have no `Command`.
- `Math.random`: each random draw is a `Kind` parameter. The model does not capture the distribution of draws.
- React scheduling: each handler is modelled as one atomic step over the current state. Batching of state updates, stale closures and effect ordering are not modelled. The case where the gravity effect runs while the component is mounting is not modelled either.
- Playfield.Merge: requires the placed shape to be inside the columns and above the floor. The engine only merges pieces that fit. In JavaScript, a write outside the board would create new array entries or fail; the model does not capture that.
- Playfield.DrawMini: requires a shape of at most 4 x 4. All the game's shapes satisfy this. The JavaScript behaviour for a larger shape is not modelled.
- The application shell (`App.js`) and the rest of the repository are not part of this model.
