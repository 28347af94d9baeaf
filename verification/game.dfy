/** The game state and its per-tick and per-input transitions: `initGame`,
    `changeDirection`, `update` and `gameOver` of script.js, with the module
    globals gathered into one immutable record.
 */
module Game {
  import opened Board
  import Grid

  datatype Status = Beginning | Running | Paused | Stopped

  /** The globals of script.js:18-28. `tiles` is the tile count of the
      last `resetCanvasDimensions`; `speed` is the tick interval in
      milliseconds. The snake is listed head first. */
  datatype GameState = GameState(
    snake: seq<Cell>,
    food: Cell,
    direction: Direction,
    nextDirection: Direction,
    score: int,
    speed: int,
    tiles: int,
    status: Status)

  const Reward := 10
  const InitialSpeed := 100
  const MinSpeed := 50
  const SpeedStep := 2
  const InitialLength := 3
  const InitialSnake: seq<Cell> := [Cell(5, 5), Cell(4, 5), Cell(3, 5)]

  /** A tick interval the ramp can produce: even and within [50, 100]. */
  predicate SpeedOk(v: int) {
    MinSpeed <= v <= InitialSpeed && v % 2 == 0
  }

  /** The invariant every session keeps while it is played: a body of at
      least three distinct, connected cells on the board, a score of ten per
      cell grown, no pending 180-degree turn, a ramped speed and food on the
      board. */
  predicate Valid(s: GameState) {
    && s.tiles >= Grid.TargetCells
    && |s.snake| >= InitialLength
    && Distinct(s.snake)
    && AllInBounds(s.snake, s.tiles)
    && Connected(s.snake)
    && s.score == Reward * (|s.snake| - InitialLength)
    && s.nextDirection != Opposite(s.direction)
    && SpeedOk(s.speed)
    && InBounds(s.food, s.tiles)
  }

  /** The head sits one step along `direction` from the cell behind it. */
  predicate Aligned(s: GameState) {
    |s.snake| >= 2 && s.snake[0] == Move(s.snake[1], s.direction)
  }

  /** `initGame`: a fresh three-cell snake heading right, score zero and new
      food. The tick interval and the status are left as they were. */
  function InitGame(s: GameState, width: int, newFood: Cell): (r: GameState)
    requires width >= Grid.TargetCells
    requires FreeCell(Grid.TileCount(width), InitialSnake, newFood)
    ensures r.speed == s.speed && r.status == s.status
    ensures r.tiles == Grid.TileCount(width)
    ensures r.snake == InitialSnake && |r.snake| == InitialLength
    ensures r.food == newFood && r.food !in r.snake
    ensures r.score == 0
    ensures r.direction == r.nextDirection == Right
    ensures Aligned(r)
    ensures SpeedOk(s.speed) ==> Valid(r)
  {
    Grid.TileCountRange(width);
    GameState(InitialSnake, newFood, Right, Right, 0, s.speed, Grid.TileCount(width), s.status)
  }

  /** The reversal test exactly as `changeDirection` spells it out. */
  predicate TurnAllowed(newDirection: Direction, direction: Direction) {
    || (newDirection == Up && direction != Down)
    || (newDirection == Down && direction != Up)
    || (newDirection == Left && direction != Right)
    || (newDirection == Right && direction != Left)
  }

  /** `changeDirection`: the request becomes pending unless it reverses the
      direction applied on the last tick (not the pending one). */
  function ChangeDirection(s: GameState, d: Direction): (r: GameState)
    ensures d != Opposite(s.direction) ==> r == s.(nextDirection := d)
    ensures d == Opposite(s.direction) ==> r == s
  {
    if TurnAllowed(d, s.direction) then s.(nextDirection := d) else s
  }

  /** `gameOver`: the session stops; the board stays as it was. */
  function GameOver(s: GameState): (r: GameState)
    ensures r.status == Stopped
    ensures r.snake == s.snake && r.food == s.food && r.score == s.score
    ensures r.speed == s.speed && r.direction == s.direction
    ensures r.nextDirection == s.nextDirection && r.tiles == s.tiles
  {
    s.(status := Stopped)
  }

  /** The tick interval after a meal: two milliseconds faster, but never
      below fifty. */
  function Ramp(v: int): int {
    if v > MinSpeed then v - SpeedStep else v
  }

  /** The cell the head enters on the next tick. */
  function NextHead(s: GameState): Cell
    requires |s.snake| > 0
  {
    Move(s.snake[0], s.nextDirection)
  }

  /** The next tick ends the game: the head leaves the board or enters a
      cell of the current body, the tail included. */
  predicate Fatal(s: GameState)
    requires |s.snake| > 0
  {
    !InBounds(NextHead(s), s.tiles) || NextHead(s) in s.snake
  }

  /** The next tick eats the food. */
  predicate Eats(s: GameState)
    requires |s.snake| > 0
  {
    !Fatal(s) && NextHead(s) == s.food
  }

  /** `update`, one tick. The pending direction is committed first, even on
      a fatal tick. `newFood` is the cell `createFood` returns; it is drawn
      while the body is still the pre-tick body, so only that body is
      excluded from it. */
  function Step(s: GameState, newFood: Cell): (r: GameState)
    requires s.status == Running && |s.snake| > 0
    requires Eats(s) ==> FreeCell(s.tiles, s.snake, newFood)
    ensures r.direction == r.nextDirection == s.nextDirection
    ensures r.tiles == s.tiles
    ensures r.status == (if Fatal(s) then Stopped else Running)
    ensures Fatal(s) ==> r.snake == s.snake && r.food == s.food && r.score == s.score && r.speed == s.speed
    ensures !Fatal(s) ==> |r.snake| > 0 && r.snake[0] == NextHead(s) && r.snake[1..] <= s.snake
    ensures Eats(s) ==> |r.snake| == |s.snake| + 1 && r.score == s.score + Reward
                        && r.food == newFood && r.speed == Ramp(s.speed)
    ensures !Fatal(s) && !Eats(s) ==> |r.snake| == |s.snake| && r.score == s.score
                                      && r.food == s.food && r.speed == s.speed
  {
    var s1 := s.(direction := s.nextDirection);
    var head := Move(s1.snake[0], s1.direction);
    if !InBounds(head, s1.tiles) then GameOver(s1)
    else if head in s1.snake then GameOver(s1)
    else if head == s1.food then
      s1.(snake := [head] + s1.snake, score := s1.score + Reward, food := newFood, speed := Ramp(s1.speed))
    else
      s1.(snake := [head] + s1.snake[..|s1.snake| - 1])
  }

  /** `update` written as the source runs it, with the self-collision test
      as a loop over the body; it computes the same state as `Step`. */
  method Update(s: GameState, newFood: Cell) returns (r: GameState)
    requires s.status == Running && |s.snake| > 0
    requires Eats(s) ==> FreeCell(s.tiles, s.snake, newFood)
    ensures r == Step(s, newFood)
  {
    var direction := s.nextDirection;
    var head := Move(s.snake[0], direction);
    if head.x < 0 || head.x >= s.tiles || head.y < 0 || head.y >= s.tiles {
      return GameOver(s.(direction := direction));
    }
    var i := 0;
    while i < |s.snake|
      invariant 0 <= i <= |s.snake|
      invariant head !in s.snake[..i]
    {
      if head == s.snake[i] {
        return GameOver(s.(direction := direction));
      }
      assert s.snake[..i + 1] == s.snake[..i] + [s.snake[i]];
      i := i + 1;
    }
    assert s.snake[..i] == s.snake;
    var snake := s.snake;
    var score, food, speed := s.score, s.food, s.speed;
    if head == s.food {
      score := score + Reward;
      food := newFood;
      if speed > MinSpeed {
        speed := speed - SpeedStep;
      }
    } else {
      snake := snake[..|snake| - 1];
    }
    snake := [head] + snake;
    r := GameState(snake, food, direction, s.nextDirection, score, speed, s.tiles, s.status);
  }

  // ---------------------------------------------------------------------
  // Properties of the transitions
  // ---------------------------------------------------------------------

  /** The reversal test of the source is exactly "not the opposite". */
  lemma TurnAllowedIffNotOpposite(newDirection: Direction, direction: Direction)
    ensures TurnAllowed(newDirection, direction) <==> newDirection != Opposite(direction)
  {
  }

  /** A pending direction is never the reverse of the applied one: turning
      keeps this, and so does a tick, which makes the two equal. */
  lemma NoPendingReversal(s: GameState, d: Direction, newFood: Cell)
    requires s.nextDirection != Opposite(s.direction)
    ensures ChangeDirection(s, d).nextDirection != Opposite(ChangeDirection(s, d).direction)
    ensures s.status == Running && |s.snake| > 0 && (Eats(s) ==> FreeCell(s.tiles, s.snake, newFood)) ==>
      Step(s, newFood).nextDirection != Opposite(Step(s, newFood).direction)
  {
  }

  /** The ramp keeps the interval even and within [50, 100], never slows the
      game, and only stops shortening at fifty. */
  lemma RampKeepsSpeedOk(v: int)
    requires SpeedOk(v)
    ensures SpeedOk(Ramp(v)) && Ramp(v) <= v
    ensures Ramp(v) == v <==> v == MinSpeed
  {
  }

  /** The interval after `k` meals counted from the initial one. */
  function SpeedAfter(k: nat): int {
    if k == 0 then InitialSpeed else Ramp(SpeedAfter(k - 1))
  }

  function Max(a: int, b: int): int {
    if a >= b then a else b
  }

  /** Twenty-five meals bring the interval from 100 to its floor of 50. */
  lemma {:induction false} SpeedAfterMeals(k: nat)
    ensures SpeedAfter(k) == Max(MinSpeed, InitialSpeed - SpeedStep * k)
    ensures SpeedOk(SpeedAfter(k))
  {
    if k > 0 {
      SpeedAfterMeals(k - 1);
    }
  }

  /** A tick from a valid running state leads to a valid state, fatal or not. */
  lemma StepPreservesValid(s: GameState, newFood: Cell)
    requires Valid(s) && s.status == Running
    requires Eats(s) ==> FreeCell(s.tiles, s.snake, newFood)
    ensures Valid(Step(s, newFood))
  {
    var r := Step(s, newFood);
    if !Fatal(s) {
      var h := NextHead(s);
      assert r.snake == [h] + r.snake[1..];
      assert Adjacent(s.snake[0], h);
      assert r.snake[1..] <= s.snake;
      forall i, j | 0 <= i < j < |r.snake| ensures r.snake[i] != r.snake[j] {
        if i > 0 {
          assert r.snake[i] == s.snake[i - 1] && r.snake[j] == s.snake[j - 1];
        } else {
          assert r.snake[j] == s.snake[j - 1];
        }
      }
      forall i | 1 <= i < |r.snake| ensures Adjacent(r.snake[i - 1], r.snake[i]) {
        if i > 1 {
          assert r.snake[i - 1] == s.snake[i - 2] && r.snake[i] == s.snake[i - 1];
        } else {
          assert r.snake[1] == s.snake[0];
        }
      }
      forall i | 0 <= i < |r.snake| ensures InBounds(r.snake[i], r.tiles) {
        if i > 0 {
          assert r.snake[i] == s.snake[i - 1];
        }
      }
      if Eats(s) {
        RampKeepsSpeedOk(s.speed);
      }
    }
  }

  /** After a non-fatal tick the head sits one step along the committed
      direction from the old head, which is now the second cell. */
  lemma StepKeepsAligned(s: GameState, newFood: Cell)
    requires s.status == Running && |s.snake| >= 2 && !Fatal(s)
    requires Eats(s) ==> FreeCell(s.tiles, s.snake, newFood)
    ensures Aligned(Step(s, newFood))
    ensures Step(s, newFood).snake[1] == s.snake[0]
  {
  }

  /** Because reversals are refused, the head never turns back into the
      cell right behind it: a tick into the neck cannot happen. */
  lemma NeverIntoNeck(s: GameState)
    requires Valid(s) && Aligned(s)
    ensures NextHead(s) != s.snake[1]
  {
    MoveThenBack(s.snake[1], s.direction);
    MoveInjective(s.snake[0], s.nextDirection, Opposite(s.direction));
  }

  /** The food chosen on a meal is off every cell of the new body except
      possibly the new head. */
  lemma MealFoodOffOldBody(s: GameState, newFood: Cell)
    requires s.status == Running && |s.snake| > 0 && Eats(s)
    requires FreeCell(s.tiles, s.snake, newFood)
    ensures Step(s, newFood).food !in Step(s, newFood).snake[1..]
    ensures InBounds(Step(s, newFood).food, s.tiles)
  {
  }

  /** The new food can land on the new head: `createFood` runs before the
      head is added, so the cell the head is entering counts as free. */
  lemma FoodMayLandOnHead()
    ensures exists s: GameState, newFood: Cell ::
      && Valid(s) && s.status == Running && Eats(s)
      && FreeCell(s.tiles, s.snake, newFood)
      && Step(s, newFood).food == Step(s, newFood).snake[0]
  {
    var s := GameState(InitialSnake, Cell(6, 5), Right, Right, 0, InitialSpeed, 20, Running);
    var newFood := Cell(6, 5);
    assert NextHead(s) == newFood;
    assert Valid(s) && Eats(s) && FreeCell(s.tiles, s.snake, newFood);
  }

  /** Moving into the cell the tail is about to leave is fatal: there is no
      exception for the vacated tail. */
  lemma TailCellIsFatal()
    ensures exists s: GameState ::
      && Valid(s) && s.status == Running
      && NextHead(s) == s.snake[|s.snake| - 1]
      && Step(s, s.food).status == Stopped
  {
    var body := [Cell(5, 5), Cell(5, 6), Cell(4, 6), Cell(4, 5)];
    var s := GameState(body, Cell(0, 0), Up, Left, 10, InitialSpeed, 20, Running);
    assert NextHead(s) == body[3];
    assert Valid(s);
  }
}
