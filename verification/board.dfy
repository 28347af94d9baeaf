/** Cells, directions and the shape predicates of the snake's body.

    The board is a square grid of `n` by `n` cells addressed by integer
    coordinates; `y` grows downwards, as on the canvas.
 */
module Board {

  datatype Cell = Cell(x: int, y: int)

  datatype Direction = Up | Down | Left | Right

  function Abs(a: int): nat {
    if a < 0 then -a else a
  }

  /** The direction a 180-degree turn would face. */
  function Opposite(d: Direction): (r: Direction)
    ensures r != d
  {
    match d
    case Up => Down
    case Down => Up
    case Left => Right
    case Right => Left
  }

  /** Two cells share a side. */
  predicate Adjacent(a: Cell, b: Cell) {
    Abs(a.x - b.x) + Abs(a.y - b.y) == 1
  }

  /** The cell one step from `c` along `d` (the switch of `update`). */
  function Move(c: Cell, d: Direction): (r: Cell)
    ensures Adjacent(c, r)
  {
    match d
    case Up => c.(y := c.y - 1)
    case Down => c.(y := c.y + 1)
    case Left => c.(x := c.x - 1)
    case Right => c.(x := c.x + 1)
  }

  predicate InBounds(c: Cell, n: int) {
    0 <= c.x < n && 0 <= c.y < n
  }

  predicate AllInBounds(s: seq<Cell>, n: int) {
    forall i :: 0 <= i < |s| ==> InBounds(s[i], n)
  }

  /** No cell occurs twice. */
  predicate Distinct(s: seq<Cell>) {
    forall i, j :: 0 <= i < j < |s| ==> s[i] != s[j]
  }

  /** Consecutive cells share a side. */
  predicate Connected(s: seq<Cell>) {
    forall i :: 1 <= i < |s| ==> Adjacent(s[i - 1], s[i])
  }

  /** A cell food may be placed on: on the board and off the body. */
  predicate FreeCell(n: int, s: seq<Cell>, c: Cell) {
    InBounds(c, n) && c !in s
  }

  /** Stepping back the opposite way undoes a move. */
  lemma MoveThenBack(c: Cell, d: Direction)
    ensures Move(Move(c, d), Opposite(d)) == c
    ensures Opposite(Opposite(d)) == d
  {
  }

  /** From one cell, different directions lead to different cells. */
  lemma MoveInjective(c: Cell, d1: Direction, d2: Direction)
    ensures Move(c, d1) == Move(c, d2) <==> d1 == d2
  {
  }

  /** Adjacency is exactly "one move away", in both directions of the equivalence. */
  lemma AdjacentIffMove(a: Cell, b: Cell)
    ensures Adjacent(a, b) <==> exists d :: Move(a, d) == b
  {
    if Adjacent(a, b) {
      if b.x == a.x + 1 {
        assert Move(a, Right) == b;
      } else if b.x == a.x - 1 {
        assert Move(a, Left) == b;
      } else if b.y == a.y + 1 {
        assert Move(a, Down) == b;
      } else {
        assert Move(a, Up) == b;
      }
    }
  }
}
