/**
 * The play field of the snake game: grid cells, the four directions and
 * their step vectors, the field bounds used by the wall test, and the
 * distance test used for eating food.
 */
module Geometry {

  const WIDTH: int := 800
  const HEIGHT: int := 600
  /** Side of one grid cell; every snake cell and food cell is a multiple of it. */
  const SEGMENT_SIZE: int := 20

  /** A position on the drawing surface, origin at the centre. */
  datatype Cell = Cell(x: int, y: int)

  datatype Direction = Up | Down | Left | Right

  /** The reverse of each direction, as in the `opposites` table of set_direction. */
  function Opposite(d: Direction): (o: Direction)
    ensures o != d
  {
    match d
    case Up => Down
    case Down => Up
    case Left => Right
    case Right => Left
  }

  /** The horizontal component of the direction vector table used by the tick. */
  function DeltaX(d: Direction): int
  {
    match d
    case Up => 0
    case Down => 0
    case Left => -SEGMENT_SIZE
    case Right => SEGMENT_SIZE
  }

  /** The vertical component of the direction vector table used by the tick. */
  function DeltaY(d: Direction): int
  {
    match d
    case Up => SEGMENT_SIZE
    case Down => -SEGMENT_SIZE
    case Left => 0
    case Right => 0
  }

  /** The cell one step from `c` in direction `d`. */
  function Step(c: Cell, d: Direction): (n: Cell)
    ensures Adjacent(c, n) && n != c
  {
    Cell(c.x + DeltaX(d), c.y + DeltaY(d))
  }

  predicate GridAligned(c: Cell)
  {
    c.x % SEGMENT_SIZE == 0 && c.y % SEGMENT_SIZE == 0
  }

  /** The wall test: a cell beyond any edge of the field (the edges themselves are inside). */
  predicate OutOfField(c: Cell)
  {
    c.x < -WIDTH / 2 || c.x > WIDTH / 2 || c.y < -HEIGHT / 2 || c.y > HEIGHT / 2
  }

  /** Two cells one grid step apart, horizontally or vertically. */
  predicate Adjacent(a: Cell, b: Cell)
  {
    || (a.x == b.x && (b.y == a.y + SEGMENT_SIZE || b.y == a.y - SEGMENT_SIZE))
    || (a.y == b.y && (b.x == a.x + SEGMENT_SIZE || b.x == a.x - SEGMENT_SIZE))
  }

  /** The square of the Euclidean distance between two cells. */
  function SquaredDistance(a: Cell, b: Cell): (d: int)
    ensures d >= 0
    ensures d == 0 <==> a == b
  {
    (a.x - b.x) * (a.x - b.x) + (a.y - b.y) * (a.y - b.y)
  }

  /**
   * The pickup test `distance(a, b) < SEGMENT_SIZE`. Both sides are
   * non-negative, so comparing the squares decides it exactly.
   */
  predicate WithinPickup(a: Cell, b: Cell)
  {
    SquaredDistance(a, b) < SEGMENT_SIZE * SEGMENT_SIZE
  }

  /** Stepping one way and then the opposite way returns to the start. */
  lemma StepOpposite(c: Cell, d: Direction)
    ensures Opposite(Opposite(d)) == d
    ensures Step(Step(c, d), Opposite(d)) == c
    ensures Adjacent(c, Step(c, d)) && Adjacent(Step(c, d), c)
  {
  }

  /** A step keeps a grid-aligned cell on the grid, and lands exactly one segment away. */
  lemma StepOnGrid(c: Cell, d: Direction)
    requires GridAligned(c)
    ensures GridAligned(Step(c, d))
    ensures SquaredDistance(c, Step(c, d)) == SEGMENT_SIZE * SEGMENT_SIZE
    ensures Step(c, d) != c
  {
    match d
    case Up => ShiftKeepsMultiple(c.y, SEGMENT_SIZE);
    case Down => ShiftKeepsMultiple(c.y, -SEGMENT_SIZE);
    case Left => ShiftKeepsMultiple(c.x, -SEGMENT_SIZE);
    case Right => ShiftKeepsMultiple(c.x, SEGMENT_SIZE);
  }

  lemma ShiftKeepsMultiple(v: int, delta: int)
    requires v % SEGMENT_SIZE == 0 && delta % SEGMENT_SIZE == 0
    ensures (v + delta) % SEGMENT_SIZE == 0
  {
    var k, m := v / SEGMENT_SIZE, delta / SEGMENT_SIZE;
    assert v + delta == SEGMENT_SIZE * (k + m);
  }

  /**
   * On the grid the pickup test is exact: two grid-aligned cells are within
   * pickup distance exactly when they are the same cell.
   */
  lemma PickupIffSameCell(a: Cell, b: Cell)
    requires GridAligned(a) && GridAligned(b)
    ensures WithinPickup(a, b) <==> a == b
  {
    var dx, dy := a.x - b.x, a.y - b.y;
    var k, m := dx / SEGMENT_SIZE, dy / SEGMENT_SIZE;
    DifferenceOfMultiples(a.x, b.x);
    DifferenceOfMultiples(a.y, b.y);
    assert dx == SEGMENT_SIZE * k && dy == SEGMENT_SIZE * m;
    assert SquaredDistance(a, b) == SEGMENT_SIZE * SEGMENT_SIZE * (k * k + m * m);
    if a != b {
      assert k != 0 || m != 0;
      assert k * k + m * m >= 1;
    }
  }

  lemma DifferenceOfMultiples(u: int, v: int)
    requires u % SEGMENT_SIZE == 0 && v % SEGMENT_SIZE == 0
    ensures (u - v) % SEGMENT_SIZE == 0
  {
    assert u - v == SEGMENT_SIZE * (u / SEGMENT_SIZE - v / SEGMENT_SIZE);
  }
}
