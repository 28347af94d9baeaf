/** The session lifecycle: `startGame` with its inner `start`, `resetGame`,
    the restart handler, program load, and the events that drive them.

    Timers are not modelled: arming the interval is the move to `Running`
    and clearing it the move away from it, and a tick is an event that is
    only legal while the status is `Running`. The canvas width is fixed for
    the whole run of the program.
 */
module Session {
  import opened Board
  import opened Game
  import Grid
  import Input
  import Food

  /** The food cell is acceptable for a fresh session on this canvas. */
  predicate FreshFoodOk(width: int, newFood: Cell) {
    width >= Grid.TargetCells && FreeCell(Grid.TileCount(width), InitialSnake, newFood)
  }

  /** Program load: the declarations set the interval to 100 and the status
      to `Beginning`, then `initGame` runs once (script.js:346). */
  function Load(width: int, newFood: Cell): (r: GameState)
    requires FreshFoodOk(width, newFood)
    ensures r.status == Beginning && r.speed == InitialSpeed
    ensures r.snake == InitialSnake && r.score == 0 && r.food == newFood
    ensures r.direction == r.nextDirection == Right
    ensures r.tiles == Grid.TileCount(width)
    ensures Valid(r) && Aligned(r)
  {
    var declared := GameState([], Cell(0, 0), Right, Right, 0, InitialSpeed, 0, Beginning);
    InitGame(declared, width, newFood)
  }

  /** The inner `start` of `startGame`: only the status changes. */
  function Start(s: GameState): GameState {
    s.(status := Running)
  }

  /** `resetGame`: stop, then `initGame`. The interval is not reset. */
  function ResetGame(s: GameState, width: int, newFood: Cell): (r: GameState)
    requires FreshFoodOk(width, newFood)
    ensures r.status == Stopped && r.speed == s.speed
    ensures r.snake == InitialSnake && r.score == 0 && r.food == newFood
    ensures r.direction == r.nextDirection == Right
    ensures r.tiles == Grid.TileCount(width)
    ensures SpeedOk(s.speed) ==> Valid(r)
  {
    InitGame(s.(status := Stopped), width, newFood)
  }

  /** `startGame`, the start/pause toggle. Only the `Stopped` branch draws
      new food, so only there must `newFood` be a fresh-session cell. */
  function StartGame(s: GameState, width: int, newFood: Cell): (r: GameState)
    requires s.status == Stopped ==> FreshFoodOk(width, newFood)
    ensures r.status == (if s.status == Running then Paused else Running)
    ensures s.status != Stopped ==> r == s.(status := r.status)
    ensures s.status == Stopped ==>
      && r.snake == InitialSnake && r.score == 0 && r.food == newFood
      && r.direction == r.nextDirection == Right && r.speed == s.speed
      && r.tiles == Grid.TileCount(width)
  {
    match s.status
    case Paused => Start(s)
    case Running => s.(status := Paused)
    case Stopped => Start(ResetGame(s, width, newFood))
    case Beginning => Start(s)
  }

  /** The restart button: `resetGame` and then `startGame`, which finds the
      status `Stopped` and resets a second time; the first food is dropped. */
  function Restart(s: GameState, width: int, first: Cell, second: Cell): (r: GameState)
    requires FreshFoodOk(width, first) && FreshFoodOk(width, second)
    ensures r.status == Running && r.food == second
    ensures r.snake == InitialSnake && r.score == 0 && r.speed == s.speed
  {
    StartGame(ResetGame(s, width, first), width, second)
  }

  /** Everything that can happen to the game from outside. */
  datatype Event =
    | Tick(newFood: Cell)                   // the interval fires
    | Turn(d: Direction)                    // an on-screen direction button
    | KeyDown(key: string, newFood: Cell)   // a key press
    | Swipe(dx: int, dy: int)               // a touch move
    | StartButton(newFood: Cell)
    | ResetButton(newFood: Cell)
    | RestartButton(first: Cell, second: Cell)

  /** The event can be delivered now: ticks only while running, and each
      food cell the event may need is acceptable where it is used. */
  predicate Legal(s: GameState, width: int, e: Event) {
    match e
    case Tick(c) => s.status == Running && |s.snake| > 0 && (Eats(s) ==> FreeCell(s.tiles, s.snake, c))
    case Turn(_) => true
    case KeyDown(key, c) => Input.KeyAction(key) == Input.StartPause && s.status == Stopped ==> FreshFoodOk(width, c)
    case Swipe(_, _) => true
    case StartButton(c) => s.status == Stopped ==> FreshFoodOk(width, c)
    case ResetButton(c) => FreshFoodOk(width, c)
    case RestartButton(a, b) => FreshFoodOk(width, a) && FreshFoodOk(width, b)
  }

  /** The effect of one event. */
  function Apply(s: GameState, width: int, e: Event): GameState
    requires Legal(s, width, e)
  {
    match e
    case Tick(c) => Step(s, c)
    case Turn(d) => ChangeDirection(s, d)
    case KeyDown(key, c) =>
      (match Input.KeyAction(key)
       case Steer(d) => ChangeDirection(s, d)
       case StartPause => StartGame(s, width, c)
       case NoAction => s)
    case Swipe(dx, dy) => ChangeDirection(s, Input.SwipeDirection(dx, dy))
    case StartButton(c) => StartGame(s, width, c)
    case ResetButton(c) => ResetGame(s, width, c)
    case RestartButton(a, b) => Restart(s, width, a, b)
  }

  /** Every event in turn can be delivered. */
  predicate LegalRun(s: GameState, width: int, events: seq<Event>)
    decreases |events|
  {
    |events| == 0 || (Legal(s, width, events[0]) && LegalRun(Apply(s, width, events[0]), width, events[1..]))
  }

  function Run(s: GameState, width: int, events: seq<Event>): GameState
    requires LegalRun(s, width, events)
    decreases |events|
  {
    if |events| == 0 then s else Run(Apply(s, width, events[0]), width, events[1..])
  }

  /** Food eaten along a run. */
  function Meals(s: GameState, width: int, events: seq<Event>): nat
    requires LegalRun(s, width, events)
    decreases |events|
  {
    if |events| == 0 then 0
    else
      var meal := if events[0].Tick? && Eats(s) then 1 else 0;
      meal + Meals(Apply(s, width, events[0]), width, events[1..])
  }

  // ---------------------------------------------------------------------
  // Properties of the lifecycle
  // ---------------------------------------------------------------------

  /** Pausing and resuming undo each other. */
  lemma PauseResume(s: GameState, width: int, c: Cell)
    requires s.status == Running || s.status == Paused
    ensures StartGame(StartGame(s, width, c), width, c) == s
  {
  }

  /** A second reset overrides the first: only the last food cell survives. */
  lemma ResetOverridesReset(s: GameState, width: int, a: Cell, b: Cell)
    requires FreshFoodOk(width, a) && FreshFoodOk(width, b)
    ensures ResetGame(ResetGame(s, width, a), width, b) == ResetGame(s, width, b)
  {
  }

  /** Restart is a reset with the second food cell, then running. */
  lemma RestartIsResetThenRun(s: GameState, width: int, a: Cell, b: Cell)
    requires FreshFoodOk(width, a) && FreshFoodOk(width, b)
    ensures Restart(s, width, a, b) == ResetGame(s, width, b).(status := Running)
  {
  }

  /** Every event keeps the session invariant. */
  lemma ApplyPreservesValid(s: GameState, width: int, e: Event)
    requires Valid(s) && Legal(s, width, e)
    ensures Valid(Apply(s, width, e))
  {
    match e
    case Tick(c) => StepPreservesValid(s, c);
    case _ =>
  }

  /** Every run from a valid state ends in a valid state. */
  lemma {:induction false} RunPreservesValid(s: GameState, width: int, events: seq<Event>)
    requires Valid(s) && LegalRun(s, width, events)
    ensures Valid(Run(s, width, events))
    decreases |events|
  {
    if |events| > 0 {
      ApplyPreservesValid(s, width, events[0]);
      RunPreservesValid(Apply(s, width, events[0]), width, events[1..]);
    }
  }

  /** A cell `createFood` places is one the tick and the session
      initialisation accept: on a meal it is free of the pre-tick body, and
      for a fresh session it is free of the initial snake. */
  lemma PlacedFoodIsAdmissible(s: GameState, width: int, draws: seq<Cell>)
    requires width >= Grid.TargetCells
    ensures Food.DrawsInRange(s.tiles, draws) && Food.CreateFood(s.tiles, s.snake, draws).Some?
            && s.status == Running && |s.snake| > 0
            ==> Legal(s, width, Tick(Food.CreateFood(s.tiles, s.snake, draws).value))
    ensures var n := Grid.TileCount(width);
            Food.DrawsInRange(n, draws) && Food.CreateFood(n, InitialSnake, draws).Some?
            ==> FreshFoodOk(width, Food.CreateFood(n, InitialSnake, draws).value)
  {
  }

  /** While the game is not stopped, the head sits one step along the
      applied direction from the cell behind it: every event keeps this. */
  lemma ApplyKeepsAligned(s: GameState, width: int, e: Event)
    requires Valid(s) && Legal(s, width, e)
    requires s.status != Stopped ==> Aligned(s)
    ensures Apply(s, width, e).status != Stopped ==> Aligned(Apply(s, width, e))
  {
    if e.Tick? && !Fatal(s) {
      StepKeepsAligned(s, e.newFood);
    }
  }

  /** Along every run from load, a live game is aligned, so the next tick
      never turns the head back into the cell behind it. */
  lemma {:induction false} RunNeverIntoNeck(s: GameState, width: int, events: seq<Event>)
    requires Valid(s) && LegalRun(s, width, events)
    requires s.status != Stopped ==> Aligned(s)
    ensures Run(s, width, events).status != Stopped ==> Aligned(Run(s, width, events))
    ensures Run(s, width, events).status != Stopped ==>
            NextHead(Run(s, width, events)) != Run(s, width, events).snake[1]
    decreases |events|
  {
    if |events| > 0 {
      ApplyPreservesValid(s, width, events[0]);
      ApplyKeepsAligned(s, width, events[0]);
      RunNeverIntoNeck(Apply(s, width, events[0]), width, events[1..]);
    } else if s.status != Stopped {
      NeverIntoNeck(s);
    }
  }

  /** No event leads back into `Beginning`. */
  lemma NoReturnToBeginning(s: GameState, width: int, e: Event)
    requires Legal(s, width, e) && s.status != Beginning
    ensures Apply(s, width, e).status != Beginning
  {
  }

  /** Once the game has left `Beginning` it never returns there. */
  lemma {:induction false} NeverBeginningAgain(s: GameState, width: int, events: seq<Event>)
    requires LegalRun(s, width, events) && s.status != Beginning
    ensures Run(s, width, events).status != Beginning
    decreases |events|
  {
    if |events| > 0 {
      NoReturnToBeginning(s, width, events[0]);
      NeverBeginningAgain(Apply(s, width, events[0]), width, events[1..]);
    }
  }

  /** Leaving `Stopped` for `Running` always starts a fresh session: the
      board of a finished game cannot be resumed. */
  lemma StoppedResumesFresh(s: GameState, width: int, e: Event)
    requires Legal(s, width, e) && s.status == Stopped
    requires Apply(s, width, e).status == Running
    ensures Apply(s, width, e).snake == InitialSnake && Apply(s, width, e).score == 0
  {
  }

  /** The interval depends only on how much food was eaten since the
      program was loaded: resets and restarts do not restore it. */
  lemma {:induction false} SpeedCountsAllMeals(s: GameState, width: int, events: seq<Event>, k: nat)
    requires LegalRun(s, width, events) && s.speed == SpeedAfter(k)
    ensures Run(s, width, events).speed == SpeedAfter(k + Meals(s, width, events))
    decreases |events|
  {
    if |events| > 0 {
      var e := events[0];
      var next := Apply(s, width, e);
      var meal := if e.Tick? && Eats(s) then 1 else 0;
      assert next.speed == SpeedAfter(k + meal);
      SpeedCountsAllMeals(next, width, events[1..], k + meal);
    }
  }

  /** Over the whole life of the program the interval only shrinks, and it
      reaches its floor of 50 after 25 meals. */
  lemma SpeedFromLoad(width: int, c: Cell, events: seq<Event>)
    requires FreshFoodOk(width, c) && LegalRun(Load(width, c), width, events)
    ensures Run(Load(width, c), width, events).speed
            == Game.Max(MinSpeed, InitialSpeed - SpeedStep * Meals(Load(width, c), width, events))
  {
    SpeedCountsAllMeals(Load(width, c), width, events, 0);
    SpeedAfterMeals(Meals(Load(width, c), width, events));
  }

  /** Within a session, score moves only on a tick that eats, and then by
      exactly the reward. */
  lemma ScoreOnlyFromMeals(s: GameState, width: int, e: Event)
    requires Legal(s, width, e) && e.Tick?
    ensures Apply(s, width, e).score == s.score + (if Eats(s) then Reward else 0)
  {
  }

  /** A run is its first event followed by the rest. */
  lemma RunCons(s: GameState, width: int, e: Event, rest: seq<Event>)
    requires Legal(s, width, e) && LegalRun(Apply(s, width, e), width, rest)
    ensures LegalRun(s, width, [e] + rest)
    ensures Run(s, width, [e] + rest) == Run(Apply(s, width, e), width, rest)
  {
    assert ([e] + rest)[0] == e && ([e] + rest)[1..] == rest;
  }

  /** A three-cell snake in row 5 heading right, with the food further
      along the row, crawls one cell right on a tick. */
  lemma CrawlRight(s: GameState, x: int, c: Cell)
    requires s.status == Running && s.tiles == 20 && s.direction == s.nextDirection == Right
    requires s.snake == [Cell(x, 5), Cell(x - 1, 5), Cell(x - 2, 5)]
    requires s.food == Cell(10, 5) && 2 <= x < 9
    ensures Legal(s, 400, Tick(c))
    ensures Apply(s, 400, Tick(c)) == s.(snake := [Cell(x + 1, 5), Cell(x, 5), Cell(x - 1, 5)])
  {
    assert NextHead(s) == Cell(x + 1, 5);
  }

  /** The state at load on a 400-pixel canvas with food at (10, 5). */
  lemma LoadOn400()
    ensures Load(400, Cell(10, 5))
            == GameState(InitialSnake, Cell(10, 5), Right, Right, 0, InitialSpeed, 20, Beginning)
  {
    Grid.ExactWidth(20);
  }

  /** Four crawling ticks and a meal, from the started load state. */
  lemma FourCrawlsAndAMeal(s1: GameState, none: Cell, last: Cell)
    requires s1 == GameState(InitialSnake, Cell(10, 5), Right, Right, 0, InitialSpeed, 20, Running)
    requires FreeCell(20, [Cell(9, 5), Cell(8, 5), Cell(7, 5)], last)
    ensures var evs := [Tick(none), Tick(none), Tick(none), Tick(none), Tick(last)];
            && LegalRun(s1, 400, evs)
            && Run(s1, 400, evs).snake == [Cell(10, 5), Cell(9, 5), Cell(8, 5), Cell(7, 5)]
            && Run(s1, 400, evs).score == 10
  {
    CrawlRight(s1, 5, none);
    var s2 := Apply(s1, 400, Tick(none));
    CrawlRight(s2, 6, none);
    var s3 := Apply(s2, 400, Tick(none));
    CrawlRight(s3, 7, none);
    var s4 := Apply(s3, 400, Tick(none));
    CrawlRight(s4, 8, none);
    var s5 := Apply(s4, 400, Tick(none));
    assert NextHead(s5) == Cell(10, 5) && Eats(s5);
    var s6 := Apply(s5, 400, Tick(last));
    assert s6.snake == [Cell(10, 5), Cell(9, 5), Cell(8, 5), Cell(7, 5)] && s6.score == 10;
    RunCons(s5, 400, Tick(last), []);
    RunCons(s4, 400, Tick(none), [Tick(last)]);
    RunCons(s3, 400, Tick(none), [Tick(none), Tick(last)]);
    RunCons(s2, 400, Tick(none), [Tick(none), Tick(none), Tick(last)]);
    RunCons(s1, 400, Tick(none), [Tick(none), Tick(none), Tick(none), Tick(last)]);
  }

  /** Five ticks to the right from a fresh start reach food five cells
      ahead: head on it, score 10, length 4. */
  lemma FiveTicksToFood(none: Cell, last: Cell)
    requires FreeCell(20, [Cell(9, 5), Cell(8, 5), Cell(7, 5)], last)
    ensures var s := Load(400, Cell(10, 5));
            var evs := [StartButton(none), Tick(none), Tick(none), Tick(none), Tick(none), Tick(last)];
            && LegalRun(s, 400, evs)
            && |Run(s, 400, evs).snake| == 4
            && Run(s, 400, evs).snake[0] == Cell(10, 5)
            && Run(s, 400, evs).score == 10
  {
    LoadOn400();
    var s0 := Load(400, Cell(10, 5));
    var s1 := Apply(s0, 400, StartButton(none));
    var ticks := [Tick(none), Tick(none), Tick(none), Tick(none), Tick(last)];
    FourCrawlsAndAMeal(s1, none, last);
    RunCons(s0, 400, StartButton(none), ticks);
  }
}
