# Pentris rules engine in Dafny

Pentris is a falling-block game like Tetris, played with the pentominoes: the
pieces made of five squares ("minos"). This project models its rules engine
and proves properties about that model:

- **`Pentominoes`** (`pentomino.dfy`). The piece: a shape (its list of rotation
  templates, strings of `'O'` and `'.'`), a rotation index and a board position.
  Turns wrap around with Python's non-negative `%`. Moves are unchecked steps
  of one cell.
- **`ShapeFactory`** (`factory.dfy`). The eighteen shapes F, F', I, L, J, N, N',
  P, Q, T, U, V, W, X, Y, Y', Z and S. The factory draws from a "bag" of shape
  indices and refills the bag when it empties. Each template is proved
  rectangular, with exactly five `'O'` cells. The bag is proved to hand out
  every shape exactly once per cycle.
- **`Boards`** (`board.dfy`). The field: `height` rows of `width` cells, each
  cell `EMPTY` or a colour. It has the bounds test, the row test, the collision
  test for a piece and the in-place clearing of full rows. Each operation is
  first specified as a function on grid values. A class `Board` then keeps the
  rows in an array and updates them in place, as the Python list is updated,
  and its methods are proved against those functions.
- **`LineClearScenarios`** (`board_scenarios.dfy`). Concrete row clears worked
  out on a 10 x 4 board.
- **`Pentris`** (`pentris.dfy`). The steps of the game loop:
  - the player's attempted moves, which are undone when the board rejects them;
  - gravity;
  - spawning the next piece, and game over;
  - the lines, score and level update after a piece locks.
- **`Wrappers`** (`wrappers.dfy`). `Option`, `Result`, and the two Python
  exceptions the board can raise.

Wall-clock time is not modelled. Each test of the form "more than the interval
has passed since the timer was reset" is a boolean input. A timer reset stores
`now`, a time the caller supplies. Randomness is also supplied by the caller:
`randrange` becomes an index into the bag, and `shuffle` becomes an order of
the eighteen shapes (`IsShuffle`).

## Source defects

The code is modelled as written, except for the defects listed below. Where
code as written cannot run, the model follows its evident intent.

- `pentris/board.py:40-41`: the constructor reads `self.board_height` before
  that attribute exists, and uses the class constant `EMPTY` unqualified. As
  written it raises. `Boards.Board.constructor` models the evident intent
  instead: `board_height` rows of `board_width` `EMPTY` cells.
- `pentris/board.py:49`: `isLineComplete` checks the row `y` against the
  board's width, not its height. This is kept as written, and it makes
  `checkForCompleteLines` raise `ValueError` on any board taller than it is
  wide. The game's board is 12 wide and 20 tall. So once a lock gets past the
  commit step, which the model assumes (see `pentris/pentris.py:117` below),
  the game loop ends with that exception (`LineClearScenarios.TallBoardRaises`,
  and the last `ensures` of `Pentris.Play.FallAndLock`). As written, the call
  to the undefined `addPentominoToBoard` fails first.
- `pentris/board.py:53` and `pentris/board.py:70` use `EMPTY` unqualified,
  like line 41. The module defines no global of that name. Unless
  `from pygame.locals import *` happens to supply one, both lines raise
  `NameError`. The model reads both as the class constant `Board.EMPTY`: the
  full-row test `RowFull` (in `LineComplete`, `ClearRows` and
  `Board.IsLineComplete`) and the fresh top row `EmptyRow` (in `DropRow` and
  `Board.RemoveRow`).
- `pentris/board.py:114`: the body of `isOnTheBoard` is indented with four
  spaces and then a tab, while the `def` on line 113 is indented with a tab.
  Python 3 rejects that mix (`TabError`), so `board.py` as written does not
  load at all. The model takes the evident intent: the `return` is the body of
  `isOnTheBoard` (`Boards.IsOnTheBoard`).
- `pentris/board.py:73`: `y += 1` has no effect, because the `for` loop
  rebinds `y`. After a row is removed, the row pulled down into its place is
  not examined again, so one call can leave a full row behind
  (`LineClearScenarios.PulledDownRowIsSkipped`). Clearing is therefore not
  idempotent (`LineClearScenarios.SecondCallStillClears`).
- `pentris/board.py:127`: `isOnTheBoard` is called without `self`. The call is
  modelled as the method it evidently means.
- `pentris/board.py:129`: a negative `mino_y` indexes the board from the
  bottom, as Python lists do. Rows above the field are therefore not exempt
  from the collision test (`Boards.NegativeRowReadsBottomRow`). The model
  requires `y >= -height` so that the index stays inside the list.
- `pentris/pentris.py:148`: `moveUp` is called but `pentris/pentomino.py` does
  not define it. `Pentominoes.Pentomino.MoveUp` assumes it is `y -= 1`.
- `pentris/pentris.py:89-90` and `pentris/pentris.py:107` pass a colour as a
  second argument to `Pentomino(shape, start_x, start_y=-1)`. The colour would
  become `start_x`, and `PENTOMINO_START_X` would become `start_y`. The model
  builds each piece as `Pentomino(shape, PENTOMINO_START_X)`, so it starts at
  row -1.
- `pentris/pentris.py:117` calls `board.addPentominoToBoard`, which
  `pentris/board.py` does not define. `Boards.Board.CommitPiece` stands for it:
  the grid it leaves is an input.

## Model

| member | source | states |
|---|---|---|
| Pentominoes.Pentomino.constructor | pentris/pentomino.py:4-11 | a new piece has the given shape, rotation 0, x = `start_x`, y = `start_y` (default -1); its rotation is valid exactly when the shape has a template |
| Pentominoes.Pentomino.Copy | pentris/pentris.py:160 | `deepcopy` of a piece: same shape, rotation and position, as a separate object |
| Pentominoes.Pentomino.GetCurrentTemplate | pentris/pentomino.py:13-14 | returns the template of the current rotation and changes nothing |
| Pentominoes.Pentomino.RotateClockwise | pentris/pentomino.py:16-19 | only the rotation changes; it becomes `(rotation + 1) % len(shape)`, stays a valid index, and the new current template is returned |
| Pentominoes.Pentomino.RotateCounterclockwise | pentris/pentomino.py:21-24 | only the rotation changes; it becomes `(rotation - 1) % len(shape)`, stays a valid index, and the new current template is returned |
| Pentominoes.TurnsStayInRange | pentris/pentomino.py:18 | a turn in either direction, from any rotation, lands on an existing template |
| Pentominoes.CounterclockwiseFromZero | pentris/pentomino.py:23 | a counterclockwise turn from rotation 0 wraps round to the last template |
| Pentominoes.ClockwiseThenCounterclockwise | pentris/pentomino.py:16-24 | a counterclockwise turn undoes a clockwise one |
| Pentominoes.CounterclockwiseThenClockwise | pentris/pentomino.py:16-24 | a clockwise turn undoes a counterclockwise one |
| Pentominoes.ClockwiseTimesWraps | pentris/pentomino.py:16-19 | k <= n clockwise turns advance the rotation by k, wrapping at most once past the last template |
| Pentominoes.FullTurnIsIdentity | pentris/pentomino.py:16-19 | as many clockwise turns as the shape has templates restore the rotation |
| Pentominoes.SingleTemplateNeverTurns | pentris/pentomino.py:16-24 | a one-template shape (X) keeps rotation 0 under both turns |
| Pentominoes.Pentomino.MoveLeft | pentris/pentomino.py:26-27 | x decreases by exactly 1; nothing else changes |
| Pentominoes.Pentomino.MoveRight | pentris/pentomino.py:29-30 | x increases by exactly 1; nothing else changes |
| Pentominoes.Pentomino.MoveDown | pentris/pentomino.py:32-33 | y increases by exactly 1; nothing else changes |
| Pentominoes.Pentomino.MoveUp | pentris/pentris.py:148 | the assumed `moveUp`: y decreases by exactly 1; nothing else changes |
| Pentominoes.TurnAndMoveBack | pentris/pentomino.py:16-33 | a turn and a move, each followed by its opposite, restore rotation, x and y |
| ShapeFactory.Shapes | pentris/factory.py:14-218 | `SHAPES` has 18 entries; each has at least one template, and every template is rectangular, made only of `'O'` and `'.'`, with exactly five `'O'` cells |
| ShapeFactory.ShapeTableIsWellFormed | pentris/factory.py:14-213 | every one of the 18 shape tables passes the pentomino-template test |
| ShapeFactory.TemplatesCheckSound | pentris/factory.py:14-213 | a shape accepted by the recursive row-by-row check has only non-empty, rectangular templates drawn in `'O'` and `'.'` |
| ShapeFactory.CountsCheckSound | pentris/factory.py:14-213 | a shape accepted by the recursive filled-cell check has exactly five minos in every template |
| ShapeFactory.IndicesOnce | pentris/factory.py:222 | `list(SHAPES)`, as indices, holds each shape exactly once and nothing else |
| ShapeFactory.RemoveAt | pentris/factory.py:227 | `queue.pop(i)` leaves a queue one shorter, with the same elements minus `queue[i]`, in the same order |
| ShapeFactory.CycleHoldsEachShapeOnce | pentris/factory.py:221-233 | while the shapes drawn since the last refill and the bag together hold every shape once, a shape in the bag is a catalogue shape, occurs once in it, and has not been drawn; every shape is in exactly one of the two |
| ShapeFactory.Factory.constructor | pentris/factory.py:221-223 | the bag starts as the given order of all 18 shapes, with nothing drawn |
| ShapeFactory.Factory.ObtainShape | pentris/factory.py:225-233 | returns `queue[index]`, a shape not drawn before in this cycle, and removes exactly that element; when that empties the bag, the bag is refilled with the given order of all shapes; the bag is never empty and, with the drawn shapes, always holds each shape once |
| ShapeFactory.Factory.DrawCycle | pentris/factory.py:6-7 | from a full bag, 18 draws return every shape exactly once, and the bag is full again afterwards |
| Boards.Board.constructor | pentris/board.py:36-45 | a board of `height` rows of `width` `EMPTY` cells |
| Boards.OnTheBoardNamesACell | pentris/board.py:113-114 | `isOnTheBoard` rejects a column outside [0, width) or a row >= height, has no lower bound on the row, and a position it accepts names a cell of the grid |
| Boards.WrapRow | pentris/board.py:129 | a row index in [-height, height) selects a list entry in [0, height); a negative row selects the row that many places from the bottom |
| Boards.Board.IsLineComplete | pentris/board.py:47-56 | raises `ValueError` for y < 0 or y >= width; raises `IndexError` when y passes that test but is not a row; otherwise tells whether no cell of row y is `EMPTY` |
| Boards.Board.IsPentominoValid | pentris/board.py:116-132 | true exactly when every filled cell of the current template lands on the board, on an `EMPTY` cell; the board and the piece are unchanged |
| Boards.OutOfBoundsMinoRejects | pentris/board.py:127-128 | a filled cell off either side of the field, or below it, makes the piece invalid |
| Boards.OccupiedMinoRejects | pentris/board.py:129-130 | a filled cell on a non-`EMPTY` cell makes the piece invalid |
| Boards.OnlyFilledCellsMatter | pentris/board.py:121-122 | `'.'` cells are never examined: templates with the same filled cells are valid at the same places |
| Boards.NegativeRowReadsBottomRow | pentris/board.py:129 | a filled cell in row -1, on a column of the field, is checked against the bottom row, so a full bottom row rejects it |
| Boards.Board.RemoveRow | pentris/board.py:66-70 | copying each row above a full row `y` one row down and resetting row 0 leaves exactly the grid `DropRow` describes: an `EMPTY` row on top, the rows above `y` shifted down, the rows below unchanged |
| Boards.Board.CheckForCompleteLines | pentris/board.py:58-76 | on a board taller than wide, raises `ValueError` and changes nothing; otherwise the grid and count become those of the bottom-to-top scan `ClearRows` of the old grid |
| Boards.ClearRowsKeepsShape | pentris/board.py:58-76 | clearing keeps the grid's dimensions: as many rows as before, each `width` cells long |
| Boards.ClearRowsMinoCount | pentris/board.py:58-76 | each counted row removes exactly `width` non-`EMPTY` cells from the grid |
| Boards.NoFullRowLeavesGrid | pentris/board.py:63-75 | a grid with no full row is returned unchanged, with count 0 |
| Boards.NothingClearedNothingChanged | pentris/board.py:63-75 | a scan that counts 0 rows leaves the grid unchanged |
| Boards.ClearRowsKeepsRowsBelow | pentris/board.py:63-75 | rows the scan has not reached are not modified |
| Boards.ClearRowsKeepsRowsBelowFirstFull | pentris/board.py:63-75 | rows below the bottom-most full row are never modified |
| Boards.ClearedRowsAreEmpty | pentris/board.py:63-75 | after a scan that removed `count` rows, the top `count` rows are entirely `EMPTY` |
| Boards.EmptyTopRowsStayOnTop | pentris/board.py:63-75 | `EMPTY` rows on top are never removed and stay on top, below the fresh `EMPTY` rows each removal adds |
| Boards.ClearRowsKeepsOrder | pentris/board.py:63-75 | the rows below the `count` fresh ones are rows of the old grid, in their old relative order (given by increasing indices) |
| Boards.Board.CommitPiece | pentris/pentris.py:117 | the commit of the landed piece: the grid becomes the given grid of the same dimensions |
| LineClearScenarios.BottomRowClearsToEmptyBoard | pentris/board.py:63-75 | a 10 x 4 board with only row 3 full: count 1, and the board ends all `EMPTY` |
| LineClearScenarios.PulledDownRowIsSkipped | pentris/board.py:63-75 | rows 2 and 3 full: count 1, and row 3 is still full afterwards |
| LineClearScenarios.SecondCallStillClears | pentris/board.py:73 | a second call on the grid the first call left removes another row |
| LineClearScenarios.TallBoardRaises | pentris/board.py:49 | on the game's 12 x 20 board, clearing always raises `ValueError` |
| Pentris.AfterLock | pentris/pentris.py:119-122 | after a lock that cleared n rows, lines grows by n, score by 2250n² - 3850n + 900, and level = lines // 10 |
| Pentris.ScoreDeltaSmallCounts | pentris/pentris.py:121 | a lock scores +900 for 0 rows, -700 for 1 row and +2200 for 2 rows |
| Pentris.ScoreFallsOnlyForOneRow | pentris/pentris.py:121 | the score drops after a lock exactly when it cleared one row |
| Pentris.ScoreGrowsFromOneRow | pentris/pentris.py:121 | from one row on, each extra cleared row scores more |
| Pentris.LevelNeverDecreases | pentris/pentris.py:120-122 | the level never drops from one lock to the next |
| Pentris.Attempt | pentris/pentris.py:131-150 | an attempted move is kept exactly when the moved piece fits, and is otherwise undone; a piece that fitted still fits |
| Pentris.TryMove | pentris/pentris.py:131-150 | one attempt leaves the piece at the position `Attempt` gives; the move stayed exactly when the position changed |
| Pentris.HandlePentominoMovement | pentris/pentris.py:127-150 | left, then right, then down, each attempted only if its interval has passed and its key is held; the piece ends one cell over and valid, or where it was, for each attempt; a timer is reset to `now` only by a move that stayed; a piece that was valid stays valid; rotation and the fall timer are unchanged |
| Pentris.HandlePentominoFall | pentris/pentris.py:153-168 | before the fall interval passes: `None`, nothing changes; after it: if the piece one row lower fits, the piece moves down, the fall timer is reset and the result is `False`; otherwise nothing moves and the result is `True` |
| Pentris.ShapeTemplatesScannable | pentris/board.py:120-121 | every template of a catalogue shape has all the columns `range(len(template[0]))` that `isPentominoValid` reads |
| Pentris.Play.constructor | pentris/pentris.py:77-95 | an empty 12 x 20 board; a bag filled in the order `shuffled`, from which the current and then the next piece are drawn, leaving the other 16 shapes (`RemoveAt` twice); all timers at `now`; both pieces at rotation 0, column `PENTOMINO_START_X`, row -1; all totals 0 |
| Pentris.Play.SpawnIfNeeded | pentris/pentris.py:105-111 | with no current piece, the next piece becomes current and a fresh next piece is drawn at `index`; the bag loses exactly that element, or is refilled in the order `shuffled` when that empties it; the game is over exactly when the new current piece does not fit; with a current piece, nothing changes |
| Pentris.Play.FallAndLock | pentris/pentris.py:116-122 | the piece locks (there is no current piece afterwards) exactly when the fall interval has passed and the piece one row lower does not fit on the old grid; otherwise it moves down one row when the interval has passed, the fall timer is reset to `now` just then, and the board and totals are unchanged; a locked piece is committed and cleared, and the totals advance by `AfterLock`, or the clearing error ends the loop with the committed grid and the totals unchanged; the player timers and the next piece never change |
| Pentris.Play.Step | pentris/pentris.py:99-122 | one loop iteration keeps the game state valid, never lowers lines or level, and ends the game only at a spawn, with the totals unchanged |

## Left out

- Rendering, window and audio set-up are not modelled: `drawBoard`, `drawMino`, `drawPentomino`, `draw`, `main`, `checkQuit`, `quit` and the FPS clock. They are I/O with no rules in them.
- Wall-clock time and the float intervals `MOVE_SIDEWAYS_TIME`, `SOFT_DROP_TIME` and `fallTime` are not modelled. Each comparison is a boolean input, and each timer reset stores a supplied `now`.
- Randomness is left to the caller. `randrange` becomes an index into the bag, `shuffle` becomes a supplied order of the 18 shapes, and the random colour of a piece is not modelled, since the rules never read it.
- The `while True` loop of `play` and its debug `print` are not modelled. `Pentris.Play.Step` models one iteration.
- `addPentominoToBoard` is not part of this model. `Boards.Board.CommitPiece` takes the grid it leaves as an input.
- The rows of the board are values. The Python rows are list objects that the shift loop assigns between slots, but no modelled code mutates a row in place, so aliasing between rows cannot be observed.
- Shapes are integers 0..17 in the factory's bag, as in `SHAPES` order. A piece holds the shape's template list itself.
- Boards.Board.IsPentominoValid: requires the piece's row to be at least `-height`. Python would also accept rows below `-height` until a negative list index runs out of range and raises `IndexError`; that error path is not modelled. It also requires every row of the current template to be at least as long as row 0 (`Scannable`). On a jagged template Python raises `IndexError` when `template[y][x]` runs past a short row; that error path is not modelled either. Every catalogue template is rectangular (`Pentris.ShapeTemplatesScannable`).
- Pentominoes.Pentomino.RotateClockwise: requires a valid rotation of a non-empty shape. For a shape with no templates, Python raises `ZeroDivisionError`; no shape of the catalogue is empty.
- Pentominoes.Pentomino.RotateCounterclockwise: requires a valid rotation of a non-empty shape, for the same reason (`ZeroDivisionError` on a shape with no templates).
- Pentominoes.Pentomino.GetCurrentTemplate: requires a valid rotation. On a shape with no templates Python raises `IndexError`; no shape of the catalogue is empty.
- Pentris.HandlePentominoMovement: the game passes `False` for all three keys, because `play` never sets them. The method is stated for every combination of keys, and `Pentris.Play.Step` passes `False` for all three.
- Pentris.Play.Step: states only how the totals and the game state evolve. The detailed effect of each part is stated by `SpawnIfNeeded`, `HandlePentominoMovement` and `FallAndLock`.
