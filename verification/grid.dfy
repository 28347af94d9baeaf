/** Grid arithmetic: the canvas width becomes a cell size in pixels and a
    number of cells per side (`resetCanvasDimensions`, script.js:50-54).
 */
module Grid {
  import Arith

  /** The number of cells per side the cell size is derived from. */
  const TargetCells := 20

  datatype Dimensions = Dimensions(cellSize: int, tileCount: int)

  /** Both results are floor divisions: the cell size is the largest that
      fits twenty times into the width, and the tile count the largest
      number of such cells that fits into it. A width below twenty would
      make the cell size zero and the second division undefined. */
  function ComputeGrid(width: int): (d: Dimensions)
    requires width >= TargetCells
    ensures d.cellSize >= 1
    ensures d.cellSize * TargetCells <= width < (d.cellSize + 1) * TargetCells
    ensures d.tileCount * d.cellSize <= width < (d.tileCount + 1) * d.cellSize
  {
    var g := width / TargetCells;
    Dimensions(g, width / g)
  }

  function TileCount(width: int): int
    requires width >= TargetCells
  {
    ComputeGrid(width).tileCount
  }

  /** Rounding the cell size down never leaves fewer than twenty cells per
      side, and never as many as forty. */
  lemma TileCountRange(width: int)
    requires width >= TargetCells
    ensures TargetCells <= TileCount(width) < 2 * TargetCells
  {
    var d := ComputeGrid(width);
    var g, t := d.cellSize, d.tileCount;
    // 20 * g <= width < (t + 1) * g, so t + 1 exceeds 20.
    Arith.CancelFactor(TargetCells, t + 1, g);
    // t * g <= width < 20 * g + 20 <= 40 * g, so t is below 40.
    Arith.CancelFactor(t, 2 * TargetCells, g);
  }

  /** A width that is a whole multiple of twenty gives exactly twenty cells
      that cover the canvas. */
  lemma ExactWidth(k: int)
    requires k >= 1
    ensures ComputeGrid(k * TargetCells) == Dimensions(k, TargetCells)
  {
    assert (k * TargetCells) / TargetCells == k;
    assert (k * TargetCells) / k == TargetCells;
  }
}
