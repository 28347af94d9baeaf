/** Input mapping: the keydown handler (script.js:248-272) and the swipe
    rule of the touchmove handler (script.js:317-333), as pure functions
    from the event to what the game is asked to do.
 */
module Input {
  import opened Board
  import Arith

  /** What a key press asks of the game. */
  datatype Action = Steer(d: Direction) | StartPause | NoAction

  /** The `switch (event.key)` of the keydown handler. */
  function KeyAction(key: string): (r: Action)
    ensures r == StartPause <==> key == " "
    ensures r.Steer? ==> key == ArrowKey(r.d)
  {
    if key == "ArrowUp" then Steer(Up)
    else if key == "ArrowDown" then Steer(Down)
    else if key == "ArrowLeft" then Steer(Left)
    else if key == "ArrowRight" then Steer(Right)
    else if key == " " then StartPause
    else NoAction
  }

  /** The arrow key that steers towards `d`. */
  function ArrowKey(d: Direction): string {
    match d
    case Up => "ArrowUp"
    case Down => "ArrowDown"
    case Left => "ArrowLeft"
    case Right => "ArrowRight"
  }

  /** A key steers towards `d` exactly when it is the arrow key for `d`. */
  lemma SteerIffArrow(key: string, d: Direction)
    ensures KeyAction(key) == Steer(d) <==> key == ArrowKey(d)
  {
  }

  /** Only the four arrows and the space bar do anything; every other key
      is ignored. */
  lemma OnlyFiveKeys(key: string)
    ensures KeyAction(key) != NoAction <==>
      key in {"ArrowUp", "ArrowDown", "ArrowLeft", "ArrowRight", " "}
    ensures KeyAction(key) == StartPause <==> key == " "
  {
  }

  /** The swipe rule: the axis that moved further wins, a tie counts as
      vertical, and the sign picks the side (a non-positive move counts as
      left or up). */
  function SwipeDirection(dx: int, dy: int): (d: Direction)
    ensures (d == Left || d == Right) <==> Abs(dx) > Abs(dy)
    ensures d == Right ==> dx > 0
    ensures d == Left ==> dx < 0
    ensures d == Down ==> dy > 0
    ensures d == Up ==> dy <= 0
  {
    if Abs(dx) > Abs(dy) then
      if dx > 0 then Right else Left
    else
      if dy > 0 then Down else Up
  }

  /** Swiping any positive distance along a direction selects that direction. */
  lemma SwipeAlongDirection(d: Direction, k: int)
    requires k >= 1
    ensures var m := Move(Cell(0, 0), d); SwipeDirection(k * m.x, k * m.y) == d
  {
  }

  /** Only the shape of a swipe matters, not its length. */
  lemma SwipeScaleInvariant(dx: int, dy: int, k: int)
    requires k >= 1
    ensures SwipeDirection(k * dx, k * dy) == SwipeDirection(dx, dy)
  {
    AbsScale(dx, k);
    AbsScale(dy, k);
    if Abs(dx) > Abs(dy) {
      Arith.MulStrict(Abs(dy), Abs(dx), k);
    } else {
      Arith.MulMono(Abs(dx), Abs(dy), k);
    }
    SignScale(dx, k);
    SignScale(dy, k);
  }

  lemma AbsScale(a: int, k: int)
    requires k >= 1
    ensures Abs(k * a) == k * Abs(a)
  {
    if a < 0 {
      assert k * a == -(k * -a);
    }
  }

  lemma SignScale(a: int, k: int)
    requires k >= 1
    ensures k * a > 0 <==> a > 0
  {
    if a > 0 {
      Arith.MulStrict(0, a, k);
    } else {
      Arith.MulMono(a, 0, k);
    }
  }
}
