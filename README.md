# Life — a verified model of the pygame Game of Life

The program is a single-window Conway's Game of Life. An 800 x 800 window
shows a 40 x 40 board of 20-pixel cells. The board is a flat list of `Cell`
objects, and each cell holds an `alive` flag and a pending `should_change` flag.
A generation is computed in two phases:

1. Every cell records whether it must flip, reading its neighbours' current flags.
2. Every cell commits its flip.

The B3/S23 rule decides the flips. Cells off the board do not count as
neighbours: the board does not wrap around.

In the frame loop:

- While paused, the user can toggle a cell by clicking it and step the board with S.
- Space toggles automatic play, and R resets the board.
- The arrow keys change the period of the frame divider `Dif`.
- Ctrl+S saves the board and Ctrl+L loads it, as a JSON list of alive flags.
- While playing, a step runs whenever the divider's countdown has dropped below zero. The countdown is then reloaded from the period.

The model follows the source file `main.py` one entity at a time:

| module (file) | models |
|---|---|
| `Geometry` (`geometry.dfy`) | the window and cell-size constants, `__idx_to_x_y` and `__x_y_to_idx`, the neighbour offsets, the cell rectangles and the pixel-to-cell mapping of a click |
| `Rules` (`rules.dfy`) | pure specification functions: `count(True)`, the B3/S23 rule, the bounded neighbour list, a whole generation, the board a load leaves behind |
| `Cells` (`cells.dfy`) | `class Cell` with `Toggle`, `Step` and `ProcessNb`, changing its fields in place |
| `Boards` (`boards.dfy`) | `class Life` with the board as a sequence of `Cell` objects. Its methods are proved against the functions of `Rules` |
| `Tempo` (`tempo.dfy`) | `class Dif`, the frame divider |
| `MainLoop` (`mainloop.dfy`) | the event handling and end-of-frame logic as pure functions on a `World` value, plus `class Game`. `Game` holds a `Life`, a `Dif` and the loop's flags, and its methods are proved to implement those functions |

The code is followed wherever a plain description of the program suggests
something else:

- **Load errors.** A loaded list is not checked against the board size.
  - A shorter list fills the first cells and leaves the rest dead.
  - A longer list first resets the board, then writes all 1600 cells, then raises an index error that nothing catches, which ends the program.
  - The model gives `LoadBoard` an `ok` result and gives a frame the outcome `Crashed` in that case. It does not use a precondition.
- **Index maps.** `__x_y_to_idx` uses the row stride `GRID_SIZE * 2`, while `__idx_to_x_y` divides by `window_width // GRID_SIZE` and `window_height // GRID_SIZE`. For the program's constants all three are 40, so the two maps are inverse on the board. `Geometry.SquareGrid` proves this, and the round-trip lemmas rely on it. With other constants the maps would disagree.

## Model

| member | source | states |
|---|---|---|
| Geometry.SquareGrid | main.py:25-27 | the board is 40 x 40 = 1600 cells: window size divided by cell size in both directions, and the row stride `GRID_SIZE * 2` equals both divisors |
| Geometry.IdxToXY | main.py:96-99 | column `idx % 40` and row `idx // 40` (floor division and remainder, which agree with Dafny's for the positive divisor); every board index lands on the 40 x 40 grid |
| Geometry.XYToIdx | main.py:101-102 | index `x + y * GRID_SIZE * 2`; every grid column/row lands on a board index in 0..1599 |
| Geometry.IndexRoundTrip | main.py:96-102 | every board index maps to a column/row on the grid, and mapping back gives the same index |
| Geometry.CoordRoundTrip | main.py:96-102 | every grid column/row maps to an index in 0..1599, and mapping back gives the same column/row |
| Geometry.RectOf | main.py:86-88 | a cell's rectangle is a 20 x 20 square, and for a board index it lies inside the window |
| Geometry.CellAt | main.py:184-186 | a point inside the window lies over a board index |
| Geometry.Contains | main.py:185 | the point test of `collidepoint`: half-open on the right and bottom edges, so a rectangle of zero width or height contains no point |
| Geometry.RectsTileWindow | main.py:184-188 | a point lies in cell idx's rectangle if and only if it is inside the window and idx is the cell under it: the rectangles tile the window without overlap |
| Geometry.CellUnderPoint | main.py:184-188 | every point of the window is covered by the rectangle of the cell under it |
| Rules.CountTrue | main.py:51 | the number of live flags in a neighbour list is at most the list's length |
| Rules.CountTrueZero | main.py:56 | the count is zero exactly when no flag in the list is true |
| Rules.NextAlive | main.py:48-57 | a cell is alive in the next generation only with 2 or 3 live neighbours; with 3 it always is, and with 2 exactly when it is alive now |
| Rules.NeighboursAt | main.py:111-123 | the neighbour walk yields at most one flag per offset, and on a board without live cells it yields no live flag |
| Rules.NeighboursAtStep | main.py:112-123 | visiting the first offset lists that neighbour's flag, if it is on the board, before the flags of the remaining offsets |
| Rules.NeighboursAtSnoc | main.py:112-123 | visiting one more offset at the end appends that neighbour's flag if it is on the board, and nothing otherwise |
| Rules.CountNeighboursAt | main.py:114-125 | skipping off-board neighbours counts the same live cells as reading the eight offsets on a board padded with dead cells |
| Rules.Neighbours | main.py:104-125 | the neighbour list of a board index: at most eight flags, in offset order, none live on a board without live cells |
| Rules.NeighbourCountByPosition | main.py:104-125 | a cell's neighbour list has 3 entries in the four corners, 5 on the rest of the border and 8 inside |
| Rules.NextGen | main.py:127-132 | a generation has one flag per board cell |
| Rules.StepRule | main.py:48-57 | in the next generation a dead cell is born exactly when 3 of its eight neighbours live, and a live cell survives exactly when 2 or 3 live, with off-board neighbours read as dead |
| Rules.Dead | main.py:64-65 | the fresh board has 1600 cells, all dead |
| Rules.DeadStaysDead | main.py:127-134 | an all-dead board is unchanged by a generation |
| Rules.Loaded | main.py:75-77 | after loading a list no longer than the board, cell i holds the list's flag i if there is one and is dead otherwise |
| Cells.Cell.constructor | main.py:36-38 | a new cell has the given alive flag and no pending change |
| Cells.Cell.Toggle | main.py:40-41 | the alive flag is negated |
| Cells.Cell.Step | main.py:43-46 | a pending change flips the cell and is cleared. Without one, nothing changes |
| Cells.Cell.ProcessNb | main.py:48-57 | a live cell must change unless 2 or 3 neighbours live, and a dead cell must change exactly when 3 live. Committing the change gives the B3/S23 value |
| Boards.Life.constructor | main.py:61-62 | a new board is valid and all dead, with zero steps |
| Boards.Life.NewBoard | main.py:64-65 | 1600 fresh, distinct cells, all dead, none with a pending change |
| Boards.Life.Reset | main.py:79-81 | the board is replaced by a fresh all-dead board and the step counter is zero |
| Boards.AliveOf | main.py:68 | the alive flags of a list of cells, one per cell and in the same order |
| Boards.Life.SaveBoard | main.py:67-68 | the saved list is the cells' alive flags in index order |
| Boards.Life.LoadBoard | main.py:72-77 | the board is reset and the step counter is zero. A list of at most 1600 flags succeeds and leaves `Loaded(data)`. A longer list fails after writing its first 1600 flags to the board |
| Boards.Life.GetRects | main.py:83-89 | rectangle idx of the list is cell idx's rectangle, for every cell |
| Boards.Life.GetNb | main.py:104-125 | the list returned is the neighbour list of the specification: in-bounds neighbours' flags in offset order |
| Boards.Life.ProcessAll | main.py:128-129 | after the evaluation phase no alive flag has changed, and every cell's pending change is set exactly when its next-generation flag differs from its current one |
| Boards.Life.ProcessCell | main.py:129 | evaluating one cell from its neighbour list changes no alive flag and sets that cell's pending change exactly when the next generation flips it |
| Boards.Life.CommitAll | main.py:131-132 | after the commit phase every cell holds its old flag flipped exactly when a change was pending, and no change is pending |
| Boards.Life.StepSimulation | main.py:127-134 | the same cell objects afterwards hold the next generation of the old flags. No change stays pending, and the step counter goes up by one |
| Boards.SaveThenLoad | main.py:67-77 | loading a just-saved list restores every alive flag and zeroes the step counter |
| Tempo.ClampPeriod | main.py:162 | the adjusted period is the larger of zero and the requested value |
| Tempo.Dif.constructor | main.py:156-158 | the countdown starts at the period |
| Tempo.Dif.IncD | main.py:160-162 | the period is changed by the given amount and clamped at zero, so it is never negative |
| Tempo.Dif.Reset | main.py:164-165 | the countdown is reloaded from the period |
| Tempo.Dif.Woop | main.py:167-168 | the countdown goes down by one |
| Tempo.Dif.Lt | main.py:170-171 | the comparison holds exactly when the countdown is below the bound |
| MainLoop.Handle | main.py:177-215 | one event keeps the world well formed, and it crashes the program exactly when it loads a list longer than the board |
| MainLoop.Events | main.py:177-215 | a frame's events, handled in order, keep the world well formed |
| MainLoop.Due | main.py:217 | the end-of-frame step happens only while playing, and then exactly when the countdown is below zero |
| MainLoop.Tick | main.py:217-228 | at the end of a frame, exactly one generation is computed and counted if playing with the countdown below zero, and none otherwise. The countdown is reloaded in that case and then goes down by one. Nothing else changes |
| MainLoop.Frame | main.py:175-228 | a frame keeps the world well formed |
| MainLoop.Session | main.py:175-229 | the loop keeps the world well formed |
| MainLoop.CrashIsFinal | main.py:196-199 | once a load has crashed the program, no later event of the frame has any effect |
| MainLoop.QuietFrame | main.py:217-228 | a frame without events is just the end-of-frame logic |
| MainLoop.StepsWithinTick | main.py:217-228 | the step count of m quiet frames is one for the first frame if its countdown is below zero, plus the count of the remaining m - 1 frames from the countdown that frame leaves |
| MainLoop.QuietFramesStep | main.py:217-228 | while playing without events, m frames run exactly `StepsWithin(d, c, m)` steps: the first in frame max(c, -1) + 2, that is frame 1 if the countdown is already below zero, then one every d + 1 frames. The period and the play flag stay unchanged |
| MainLoop.OneStepPerPeriod | main.py:217-228 | once the countdown is below the period, every d + 1 consecutive quiet frames while playing contain exactly one step |
| MainLoop.NextStepAfterPeriod | main.py:164-171 | after a step, the countdown falls below zero again exactly d + 1 frames later: no step in the next d frames, one by frame d + 1 |
| MainLoop.PlayingIgnoresEdits | main.py:181-202 | while playing, a click or a plain S key changes nothing |
| MainLoop.HandleKeepsSteps | main.py:177-215 | an event other than a manual step, a reset or a load leaves the step counter alone |
| MainLoop.StepsOnlyByStepping | main.py:175-228 | in a frame without a manual step, reset or load, the step counter rises by one if the divider is due after the events, and is unchanged otherwise |
| MainLoop.ResetKeyFrame | main.py:213-215 | the R key pauses the game and leaves an all-dead board with zero steps |
| MainLoop.Game.constructor | main.py:149-174 | the program starts paused and running, with a dead board, zero steps, and period and countdown 15 |
| MainLoop.Game.HandleEvent | main.py:177-215 | handling an event on the objects has exactly the effect `Handle` gives on the world they represent, including the crash on an over-long load |
| MainLoop.Game.ClickAt | main.py:181-188 | scanning the rectangles and toggling the first one hit toggles exactly the cell under the click. A point outside the window changes nothing |
| MainLoop.Game.HandleEvents | main.py:177-215 | handling a frame's events in order on the objects has exactly the effect `Events` gives, and stops at a crash |
| MainLoop.Game.EndFrame | main.py:217-228 | the end-of-frame logic on the objects has exactly the effect `Tick` gives |
| MainLoop.Game.RunFrame | main.py:175-228 | one frame on the objects has exactly the effect `Frame` gives on the world they represent |
| MainLoop.Game.Run | main.py:175-229 | the loop on the objects runs frames while `run` holds, with exactly the effect `Session` gives |

## Left out

- Drawing is not modelled: `draw_to`, `simple_grid`, the window title, `pygame.display.update` and the 60 fps clock are display and timing only.
- The file dialog (`prompt_file`) is not modelled. A save or load whose dialog is cancelled produces no event in the model. A confirmed Ctrl+S becomes `SaveRequest`, and a confirmed Ctrl+L becomes `LoadRequest` carrying the list read from the file.
- JSON and file I/O are not modelled.
  - Saving appends the flag list to `saved` in the world instead of writing a file.
  - Loading receives the flag list already parsed.
  - A file that does not parse, or that holds something other than a list of booleans, is not modelled. In the source, a parse error ends the program before the board is touched.
- Raw pygame events are not modelled. Events arrive decoded, and only the keys the loop reacts to are distinguished. `MouseUp` carries the pointer position that `pygame.mouse.get_pos()` returns when the event is handled.
- The `life.get_nb(idx)` call after a click (main.py:187) is left out. Its result is discarded and it changes nothing.
- What happens after the index error of an over-long load is not modelled. The program ends there, so the model only reports `Crashed`.
- MainLoop.QuietFramesStep: states the number of steps over many quiet frames, not the board they leave; that a step computes one generation is stated frame by frame by `Tick`.
- MainLoop.Events, MainLoop.Frame, MainLoop.Session: their own contracts state only well-formedness. Their meaning is stated through `Game.HandleEvent`, `Game.RunFrame`, `Game.Run` and the lemmas about `Tick` and `QuietFrames`.
