# Snake game state, modelled in Dafny

This project models the game logic of a snake game played on a grid of 8x8
LED matrices. The snake is a head-first list of cells on a torus of
`(WIDTH + 1) x (HEIGHT + 1)` cells, where `WIDTH = 8 * MATRIX_WIDTH - 1` and
`HEIGHT = 8 * MATRIX_HEIGHT - 1`. On every tick the head advances one cell in
the current direction and wraps over the edges. Then exactly one of three
things happens:

- The snake grows onto the target. A new target is drawn by rejection
  sampling, and the tick interval is recomputed.
- The snake moves: the new head is pushed and the last cell is popped.
- The head runs into the body, and the game ends with score `length - 1`.

Direction changes pass an input gate. It accepts at most one turn per
rendered frame and refuses both the current direction and its reverse.

Files:

- `point.dfy` (module `Points`) models `Point.py`. A point is a datatype with
  integer `x` and `y` slots. Its Python protocol (`__init__`, `__getitem__`,
  `__setitem__`, `__eq__`, `__ne__`, `__add__`, `__len__`, `__iter__`)
  becomes pure functions. Errors are `Result` values: `TypeError` for adding
  a non-point, `IndexError` for a bad index. A value that may be a point or
  something else is `Value`.
- `board.dfy` (module `Board`) holds the board geometry from `snake.py`:
  - the four `DIR_*` vectors, `WIDTH`/`HEIGHT`, and the per-axis wrap;
  - what it means for a body to be valid (distinct cells, all on the board);
  - counting the board's cells;
  - the rejection sampler's choice, `FirstFree`.
- `snake.dfy` (module `Snake`) holds the mutable module state of `snake.py`
  as the class `Game`. Its methods `Move`, `SetTarget`, `ChangeDirection`,
  `MarkDisplayed` and `Quit` update the fields in place. Beside the class are
  the speed clamp and a functional model of the input gate over a burst of
  proposals.

Randomness is a parameter. `randrange(2)`, which picks the initial direction,
is the constructor argument `start`. The cells that
`Point(randrange(WIDTH + 1), randrange(HEIGHT + 1))` yields, in order, are
the sequence `draws` given to `SetTarget` and `Move`. `SetTarget` keeps
`setTarget`'s `while target in tail` loop and settles on the first draw that is
off the body.

That loop only stops if some draw is free. So `SetTarget`
requires such a draw, and so does `Move` when the tick grows the snake.
`Board.FreeCellIffRoom` and `Snake.GrowthNeedsRoom` show when that can
happen: a free cell exists exactly when the grown snake is still shorter than
the board. Once the snake covers the whole board, the sampling loop
never ends.

Three details of `move` that the model keeps as the code has them:

- In the game-over branch, `move` raises `SystemExit` before it reaches
  `display()`. So a fatal tick leaves the frame gate as it was. `Move`'s
  contract says so; it is not re-rendered.
- On a growth tick the body becomes `[new head] + old body`, so its length
  goes up by one.
- The collision test runs against the whole old body, including the last
  cell that a plain move would pop. A head that steps into the cell the end
  of the body is about to leave therefore ends the game.

## Model

| member | source | states |
|---|---|---|
| `Points.New` | Point.py:13-15 | `Point(x, y)` stores `x` and `y` and both default to 0: iterating yields `[x, y]`, and index 0 and 1 read back `x` and `y` |
| `Points.GetItem` | Point.py:18-19 | `p[i]` succeeds exactly for `-2 <= i < 2`; 0 and -2 give `x`, 1 and -1 give `y`; any other index is an `IndexError` |
| `Points.SetItem` | Point.py:20-21 | `p[i] = v` succeeds exactly for the valid indices; afterwards `p[i]` reads `v` and the other slot is unchanged; a bad index is an `IndexError` |
| `Points.SetItemRoundTrip` | Point.py:18-21 | writing back the value a slot already holds gives the same point |
| `Points.Equals` | Point.py:22-24 | `a == other` holds exactly when `other` is a point with the same `x` and `y` |
| `Points.NotEquals` | Point.py:25-26 | `a != other` holds exactly when `other` is not the point `a` |
| `Points.Add` | Point.py:27-31 | `a + other` fails with `TypeError` exactly when `other` is not a point; otherwise it is the componentwise sum |
| `Points.AddByIndex` | Point.py:27-29 | the sum is computed slot by slot: `(a + b)[i] == a[i] + b[i]` for every valid index |
| `Points.Len` | Point.py:32-33 | `len(p)` is the number of items iteration yields |
| `Points.Iter` | Point.py:34-35 | iteration yields two items, and item `i` is `p[i]` for `i` in 0 and 1 |
| `Points.IterMatchesIndexing` | Point.py:18-19 | indexing follows the sequence rule: for `-len(p) <= i < 0`, `p[i]` is iteration item `i + len(p)`; for `0 <= i < len(p)`, it is item `i` |
| `Board.Extent` | snake.py:53-54 | `WIDTH + 1` is eight cells per matrix; with at least one matrix the largest index is at least 7 |
| `Board.WrapAxis` | snake.py:89-96 | a coordinate at most one cell off the axis is mapped back into `[0, max]`; the result is the coordinate modulo `max + 1` and an in-range coordinate is unchanged |
| `Board.Step` | snake.py:88-96 | from a board cell in a unit direction, the new head is on the board and equals `(head + dir)` modulo `(WIDTH + 1, HEIGHT + 1)` |
| `Board.StepWrapsAtEdges` | snake.py:88-96 | right from `x = WIDTH` gives `x = 0`, left from `x = 0` gives `x = WIDTH`, and the same for `y` with `HEIGHT` |
| `Board.FreeCellIffRoom` | snake.py:80-83 | for a body of distinct board cells, a cell off the body exists exactly when the body is shorter than the board |
| `Board.FirstFree` | snake.py:81-83 | the draw rejection sampling keeps is off the body, and every earlier draw was on it |
| `Board.SamplingNeedsFreeCell` | snake.py:81-83 | sampling that stops on board cells implies that the board has a free cell |
| `Snake.SpeedFor` | snake.py:101 | the clamped interval lies in `[0.07, 0.3]`; it is 0.3 up to length 6 and 0.07 from length 29 on |
| `Snake.SpeedNonIncreasing` | snake.py:101 | a longer snake never gets a longer tick interval |
| `Snake.Offer` | snake.py:126-131 | the gate state changes exactly when the proposal is accepted; an accepted proposal becomes the direction and shuts the gate |
| `Snake.ClosedGateRejectsAll` | snake.py:128-131 | while no frame has been rendered since the last turn, every proposal is rejected and nothing changes |
| `Snake.AtMostOneTurnPerFrame` | snake.py:75-76 | between two renders at most one proposal is accepted, and the gate state changes only if one is |
| `Snake.AcceptedTurnIsQuarterTurn` | snake.py:129 | among unit directions, an open gate accepts exactly the perpendicular ones |
| `Snake.GrowthNeedsRoom` | snake.py:98-100 | after growth, a cell for the new target exists exactly when the grown snake is shorter than the board |
| `Snake.Game.constructor` | snake.py:53-63 | initial state: one cell at `(WIDTH // 2, HEIGHT // 2)`, direction `(start, 1 - start)`, target `Point()`, running, speed 0.3, gate open; the state invariant holds |
| `Snake.Game.MarkDisplayed` | snake.py:75-76 | rendering a frame opens the gate |
| `Snake.Game.Quit` | snake.py:191-194 | the quit key stops the game |
| `Snake.Game.SetTarget` | snake.py:78-83 | the new target is the first draw off the body; it is on the board and not a body cell |
| `Snake.Game.ChangeDirection` | snake.py:126-131 | direction and gate follow `Offer`: the turn is taken only if the gate is open and the proposal is neither the current direction nor its reverse; a unit proposal keeps the invariant |
| `Snake.Game.Move` | snake.py:85-123 | keeps the invariant; exactly one of grow (`[target] + tail`, new target, new speed), move (`[head] + tail` minus the last cell) or game over (score `len - 1`, state kept, running false) when running; nothing changes but the gate when stopped; direction never changes, the length grows by 0 or 1, and running never comes back |

## Left out

- The LED matrix calls (`init`, `gfx_set_all`, `gfx_set_px`, `gfx_render`, `clear_all`) and the six-pulse invert alert: hardware output. Only `display()`'s effect on the frame gate is modelled, in `MarkDisplayed`.
- `threading.Timer` and `time.sleep`: timing and concurrency. One tick is one call of `Move`. The race between the timer thread and the input loop is not modelled.
- The GPIO joypad polling and the `_Getch` keyboard loop: input plumbing driven by devices. They only call `changeDirection` with one of the four direction constants, or set `running` to false, which `Quit` models.
- The `print` of the score and `raise SystemExit`: process control. Game over is `running == false` plus the `GameOver(score)` outcome.
- The random distribution of `randrange`: the draws are a parameter. Nothing is said about how likely a free draw is.
- Snake.Game.SetTarget: requires a free draw among `draws`. With the board full, `setTarget` loops forever; `GrowthNeedsRoom` states when that happens.
- Snake.Game.Move: on a growing tick it requires a free draw for the next target, for the same reason.
- `float()` coercion in `__setattr__`, and `__str__`/`__repr__`: coordinates are exact integers, and formatting is not modelled.
- Speed is a `real`, so the floating-point rounding of `2/float(len(tail))` is not modelled.
- An index that is not an integer (a `TypeError` in Python) cannot be passed to `GetItem` or `SetItem`: indices are `int`.
- `changeDirection`'s default argument, which is the initial direction captured when the function was defined: every caller passes a direction explicitly.
- The start-up sequence `setTarget(); move()` in the main block is not a separate member. It is a `SetTarget` call followed by a `Move` call.
