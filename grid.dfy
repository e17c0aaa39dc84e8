/**
 * Geometry of the playfield: pixel positions quantised to square cells of
 * side `Box`, the four directions of travel, one step of the head, and the
 * board bounds that the wall check tests.
 */
module Grid {

  /** Side of one cell, in pixels. */
  const Box := 20

  /** A position in pixels (a segment of the snake, the food) or, for a random
      draw, a position in cells (column, row). */
  datatype Point = Point(x: int, y: int)

  datatype Direction = Up | Down | Left | Right

  /** The direction that would turn the snake straight back onto itself. */
  function Opposite(d: Direction): (r: Direction)
    ensures r != d
  {
    match d
    case Up => Down
    case Down => Up
    case Left => Right
    case Right => Left
  }

  lemma OppositeIsInvolution(d: Direction)
    ensures Opposite(Opposite(d)) == d
  {
  }

  /** The head one cell further in direction `d`. */
  function Step(p: Point, d: Direction): (q: Point)
    ensures (q.x - p.x) * (q.x - p.x) + (q.y - p.y) * (q.y - p.y) == Box * Box
    ensures d == Left || d == Right ==> q.y == p.y
    ensures d == Up || d == Down ==> q.x == p.x
  {
    match d
    case Left => Point(p.x - Box, p.y)
    case Right => Point(p.x + Box, p.y)
    case Up => Point(p.x, p.y - Box)
    case Down => Point(p.x, p.y + Box)
  }

  /** Stepping one way and then the opposite way returns to the start. */
  lemma StepThenBack(p: Point, d: Direction)
    ensures Step(Step(p, d), Opposite(d)) == p
  {
  }

  /** A canvas whose sides are whole, positive numbers of cells. */
  predicate ValidBoard(width: int, height: int)
  {
    width > 0 && height > 0 && width % Box == 0 && height % Box == 0
  }

  function Cols(width: int): (n: int) { width / Box }

  function Rows(height: int): (n: int) { height / Box }

  /** The pixel rectangle [0, width) x [0, height); a head outside it hits a wall. */
  predicate InBoard(p: Point, width: int, height: int)
  {
    0 <= p.x < width && 0 <= p.y < height
  }

  /** A pixel position at the corner of a cell. */
  predicate Aligned(p: Point)
  {
    p.x % Box == 0 && p.y % Box == 0
  }

  predicate OnGrid(p: Point, width: int, height: int)
  {
    InBoard(p, width, height) && Aligned(p)
  }

  /** A step from a cell corner lands on a cell corner. */
  lemma StepKeepsAligned(p: Point, d: Direction)
    requires Aligned(p)
    ensures Aligned(Step(p, d))
  {
  }

  /** Where a new game puts the one-segment snake: column floor(COLS/2),
      row floor(ROWS/2), in pixels. */
  function Centre(width: int, height: int): (c: Point)
    requires ValidBoard(width, height)
    ensures OnGrid(c, width, height)
  {
    Point((Cols(width) / 2) * Box, (Rows(height) / 2) * Box)
  }

  /** A draw of the random source: a cell whose column and row are within the board. */
  predicate DrawOnBoard(cell: Point, width: int, height: int)
  {
    0 <= cell.x < Cols(width) && 0 <= cell.y < Rows(height)
  }

  predicate DrawsOnBoard(draws: seq<Point>, width: int, height: int)
  {
    forall i :: 0 <= i < |draws| ==> DrawOnBoard(draws[i], width, height)
  }

  /** The pixel corner of a cell given as (column, row). */
  function CellPixel(cell: Point): (p: Point)
    ensures Aligned(p)
  {
    Point(cell.x * Box, cell.y * Box)
  }

  /** The cell (column, row) whose corner is the aligned pixel position `p`. */
  function PixelCell(p: Point): (cell: Point)
    requires Aligned(p)
    ensures CellPixel(cell) == p
  {
    Point(p.x / Box, p.y / Box)
  }

  /** The cell of a position on the board is one the random source can draw. */
  lemma PixelCellOnBoard(p: Point, width: int, height: int)
    requires ValidBoard(width, height) && OnGrid(p, width, height)
    ensures DrawOnBoard(PixelCell(p), width, height)
  {
  }

  /** A drawn cell converts to a pixel position on the board. */
  lemma CellPixelOnGrid(cell: Point, width: int, height: int)
    requires ValidBoard(width, height) && DrawOnBoard(cell, width, height)
    ensures OnGrid(CellPixel(cell), width, height)
  {
  }
}
