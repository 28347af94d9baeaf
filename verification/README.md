# Snake game: a verified model of the simulation core

This project models the deterministic part of a browser snake game
(`script.js`): the grid arithmetic that turns the canvas width into a board,
the snake's movement, collisions and growth on each tick, food placement,
the speed ramp, the "no 180-degree turn" rule, the start/pause/reset
lifecycle, and the mapping from keys and swipes to directions.

The module globals of the script become one immutable record,
`Game.GameState` (snake head first, food, applied and pending direction,
score, tick interval, tile count, status), and every handler becomes a pure
function from a state to a state:

| module | file | what it holds |
|---|---|---|
| `Board` | board.dfy | cells, directions, `Move`, `Opposite`, body shape predicates |
| `Arith` | arith.dfy | monotonicity of multiplication, used by `Grid` and `Input` |
| `Grid` | grid.dfy | `resetCanvasDimensions` |
| `Food` | food.dfy | `createFood` as retries over a stream of random draws |
| `Game` | game.dfy | `initGame`, `changeDirection`, `update`, `gameOver`, the speed ramp, the session invariant |
| `Session` | session.dfy | `startGame`, `resetGame`, the restart handler, program load, events and runs |
| `Input` | input.dfy | the keydown switch and the swipe rule |

Parameters stand in for what the script gets from the browser: the canvas
width, and the food cell that `Math.random` produces (for `Food.CreateFood`,
the whole sequence of random draws). A timer tick is the event `Tick`, which
may only be delivered while the status is `Running`.

Facts of the code the model keeps on purpose:

- `initGame` never resets the tick interval, so a reset or a restart keeps the
  speed reached so far (`Session.SpeedCountsAllMeals`).
- Toggling from `Beginning` only changes the status; the board it starts
  with is the one the load-time `initGame` produced.
- On a meal, `createFood` runs before the new head is added, so the new food
  avoids the old body only and can land on the new head
  (`Game.FoodMayLandOnHead`).
- The pending direction is committed at the start of `update`, also on a
  fatal tick.
- The reversal test compares a request with the applied direction, not the
  pending one.
- The self-collision test covers the whole body, the tail that is about to
  move included (`Game.TailCellIsFatal`).
- The restart button calls `resetGame` and then `startGame`, and `startGame`
  resets once more because it finds the status `Stopped`: the session is
  initialised twice and the first food cell is discarded.

## Model

| member | source | states |
|---|---|---|
| Grid.ComputeGrid | script.js:50-54 | for a width of at least 20 the cell size is at least one pixel and is the floor of width/20, and the tile count is the floor of width/cellSize: the tiles fit in the width and one more would not |
| Grid.TileCountRange | script.js:50-54 | the tile count is always between 20 and 39 |
| Grid.ExactWidth | script.js:52-53 | a width of 20·k gives cells of k pixels and exactly 20 tiles |
| Board.Move | script.js:127-140 | the head moves to a cell that shares a side with the old head |
| Board.AdjacentIffMove | script.js:127-140 | two cells share a side exactly when one move in some direction leads from one to the other |
| Board.MoveThenBack | script.js:127-140 | moving back in the opposite direction undoes a move, and the opposite of the opposite is the direction itself |
| Board.MoveInjective | script.js:127-140 | from one cell, different directions lead to different cells |
| Board.Opposite | script.js:229-233 | no direction is its own reverse |
| Food.CreateFood | script.js:83-96 | a placed food cell is on the board and off every cell of the snake |
| Food.CreateFoodFirstFree | script.js:83-96 | placement succeeds exactly when some draw is off the snake, and it takes the first such draw; every earlier draw was on the snake |
| Food.UnusedDraws | script.js:90-95 | once a draw is accepted, later draws have no effect |
| Game.InitGame | script.js:57-80 | a fresh session: the snake (5,5), (4,5), (3,5), the given food cell, heading right with no turn pending, score 0, food off the snake, tile count recomputed; interval and status carried over; with a ramped interval the result satisfies the session invariant |
| Game.ChangeDirection | script.js:227-237 | a request that is not the reverse of the applied direction becomes pending and nothing else changes; a reversing request changes nothing |
| Game.TurnAllowedIffNotOpposite | script.js:229-233 | the source's four-clause test accepts a direction exactly when it is not the opposite of the applied one |
| Game.NoPendingReversal | script.js:227-237 | a pending direction that is not a reversal stays so after any turn request and after any tick |
| Game.GameOver | script.js:216-224 | the status becomes stopped and the snake, food, score, interval and directions are kept |
| Game.Step | script.js:120-176 | one tick commits the pending direction; it is fatal exactly when the next head is off the board or on any current body cell, and then only the status and the committed direction change; otherwise the new head is one move from the old one and the rest of the body is a prefix of the old body; a meal grows the body by one, adds 10 to the score, takes the new food and ramps the interval; any other tick keeps length, score, food and interval |
| Game.Update | script.js:120-176 | the source's loop form of the tick, with the self-collision scan over the body, computes the same state as `Step` |
| Game.RampKeepsSpeedOk | script.js:165-168 | the ramp keeps the interval even and within [50, 100], never increases it, and leaves it unchanged only at 50 |
| Game.SpeedAfterMeals | script.js:165-168 | after k meals from 100 the interval is max(50, 100 − 2k) |
| Game.StepPreservesValid | script.js:142-175 | a tick from a valid running state keeps the body distinct, on the board, connected and at least three long, the score at 10 per grown cell, no reversal pending, the interval ramped and the food on the board |
| Game.StepKeepsAligned | script.js:122-175 | after a non-fatal tick the old head is the second cell and the new head lies one step along the committed direction from it |
| Game.NeverIntoNeck | script.js:227-237 | because reversals are refused, the next head is never the cell right behind the head |
| Game.MealFoodOffOldBody | script.js:157-175 | the food placed on a meal is on the board and off every cell of the new body except possibly the head |
| Game.FoodMayLandOnHead | script.js:162-175 | there is a valid state and an admissible food cell for which the new food lies under the new head |
| Game.TailCellIsFatal | script.js:148-154 | there is a valid state whose next head is the current tail cell, and that tick ends the game |
| Session.Load | script.js:17-28 | at load the status is beginning, the interval 100, the snake (5,5), (4,5), (3,5) heading right with no turn pending, score 0, the given food and the tile count of the canvas; the session invariant holds with the head aligned |
| Session.ResetGame | script.js:206-213 | a reset stops the game and reinitialises the board, score, food, directions and tile count, keeping the interval |
| Session.PlacedFoodIsAdmissible | script.js:83-96 | a cell `createFood` places is accepted by a tick and by a fresh session |
| Session.ApplyKeepsAligned | script.js:120-213 | while the game is not stopped, every event keeps the head one step along the applied direction from the cell behind it |
| Session.RunNeverIntoNeck | script.js:227-237 | along every run, a game that is not stopped is aligned and its next head is never the cell behind the head |
| Session.StartGame | script.js:184-204 | the toggle pauses a running game and otherwise runs; from paused, running or beginning only the status changes; from stopped the session is first reinitialised, keeping the interval |
| Session.Restart | script.js:242-245 | restart leaves a running fresh session whose food is the second cell drawn, with the interval kept |
| Session.PauseResume | script.js:192-197 | pausing then resuming, or resuming then pausing, gives back the same state |
| Session.ResetOverridesReset | script.js:206-213 | two resets in a row equal the second one alone |
| Session.RestartIsResetThenRun | script.js:242-245 | restart equals one reset with the second food cell followed by running |
| Session.ApplyPreservesValid | script.js:240-245 | every event keeps the session invariant |
| Session.RunPreservesValid | script.js:120-213 | every sequence of legal events from a valid state ends in a valid state |
| Session.NoReturnToBeginning | script.js:185-213 | no event moves a game that has left beginning back into it |
| Session.NeverBeginningAgain | script.js:28 | along any run, once the status has left beginning it never returns |
| Session.StoppedResumesFresh | script.js:198-200 | when an event takes a stopped game to running, the board is the initial snake with score 0 |
| Session.SpeedCountsAllMeals | script.js:166-168 | the interval after a run is the ramp applied once per meal eaten in it, resets included |
| Session.SpeedFromLoad | script.js:20 | from load, the interval is max(50, 100 − 2·meals) for the meals eaten since load |
| Session.ScoreOnlyFromMeals | script.js:157-160 | a tick changes the score by exactly 10 when it eats and not at all otherwise |
| Session.FiveTicksToFood | script.js:120-176 | from load with food at (10,5) on a 400-pixel canvas, a start and five ticks heading right put the head on (10,5) with score 10 and length 4, whatever free cell the new food lands on |
| Input.KeyAction | script.js:249-271 | a key toggles exactly when it is the space bar, and a key that steers is the arrow key of the direction it steers to |
| Input.SteerIffArrow | script.js:249-265 | a key steers towards a direction exactly when it is that direction's arrow key |
| Input.OnlyFiveKeys | script.js:249-271 | only the four arrow keys and the space bar have an effect, and only the space bar toggles |
| Input.SwipeDirection | script.js:321-333 | the swipe is horizontal exactly when the horizontal move is strictly larger, so a tie is vertical; right and left, down and up follow the sign, with zero counting as up |
| Input.SwipeAlongDirection | script.js:321-333 | a swipe of any positive length along a direction selects that direction |
| Input.SwipeScaleInvariant | script.js:317-333 | scaling a swipe by a positive factor does not change the direction chosen |

## Left out

- Drawing (`draw`), DOM lookups, text and style updates, `preventDefault` and
  the registration of event listeners: output and wiring without logic.
- Timers: `setInterval` and `clearInterval` are not modelled. Running means
  the interval is armed, and a tick is only delivered while running. The
  interval keeps the period it was armed with, so a faster speed takes effect
  only at the next start or resume; the model records the speed but not when
  it is applied.
- `Math.random`: the draws are a parameter. When every draw lands on the
  snake, the source keeps retrying and never returns if the board is full;
  `Food.CreateFood` returns `None` for "not placed within these draws".
- `resizeCanvas` and `window.innerWidth`: the canvas width is a fixed
  parameter of the whole run. The load-time `initGame` and the later
  `resizeCanvas` (script.js:346, 352) are taken to see the same width; a
  resize during play can change the tile count and is not modelled.
- Grid.ComputeGrid: requires a width of at least 20. Below that the cell
  size is 0 and the source divides by zero.
- Game.Step: takes the food cell `createFood` returns as a parameter and
  requires it to be free of the pre-tick body only on a tick that eats, the
  only tick on which `createFood` runs.
- Session.Load: the food declared at load is an empty object; the model puts
  a placeholder cell there, which `initGame` replaces at once.
- The touchstart handler, the truthiness guard on the start point
  (script.js:310) and the update of the start point after a move: the swipe
  rule is kept as a function of integer `dx` and `dy`.
- The on-screen direction buttons (script.js:275-297) call
  `changeDirection` directly; they are the `Turn` event.
