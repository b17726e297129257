/**
 * Food placement. Each attempt draws one x and one y uniformly from the
 * field minus a one-segment margin, snaps both down onto the grid and
 * accepts the cell when it is not part of the snake; the placement retries
 * until an attempt is accepted.
 *
 * The random source is a parameter: `draws` lists the pairs of values the
 * random generator returns, in order.
 */
module Food {
  import opened Geometry
  import opened Wrappers

  /** Bounds of one random draw: the field minus a one-segment margin. */
  const MIN_X: int := -WIDTH / 2 + SEGMENT_SIZE
  const MAX_X: int := WIDTH / 2 - SEGMENT_SIZE
  const MIN_Y: int := -HEIGHT / 2 + SEGMENT_SIZE
  const MAX_Y: int := HEIGHT / 2 - SEGMENT_SIZE

  /** The two values one attempt draws from the random generator. */
  datatype Draw = Draw(rx: int, ry: int)

  /** What the random generator promises of a draw: both ends of each range are included. */
  predicate InRange(d: Draw)
  {
    MIN_X <= d.rx <= MAX_X && MIN_Y <= d.ry <= MAX_Y
  }

  predicate AllInRange(draws: seq<Draw>)
  {
    forall i :: 0 <= i < |draws| ==> InRange(draws[i])
  }

  /** Where food may appear: a grid cell inside the field minus a one-segment margin. */
  predicate FoodCell(c: Cell)
  {
    GridAligned(c) && MIN_X <= c.x <= MAX_X && MIN_Y <= c.y <= MAX_Y
  }

  /**
   * `v - v % SEGMENT_SIZE`: the largest multiple of the segment size not
   * above `v` (the remainder of a positive divisor is never negative).
   */
  function Snap(v: int): (r: int)
    ensures r % SEGMENT_SIZE == 0
    ensures r <= v < r + SEGMENT_SIZE
  {
    v - v % SEGMENT_SIZE
  }

  /** Snapping a value of a draw range stays inside that range, whose ends are multiples of the segment. */
  lemma SnapInRange(v: int, lo: int, hi: int)
    requires lo % SEGMENT_SIZE == 0 && lo <= v <= hi
    ensures lo <= Snap(v) <= hi
  {
    DifferenceOfMultiples(lo, Snap(v));
  }

  /** The cell an attempt proposes. */
  function Proposed(d: Draw): (c: Cell)
    ensures GridAligned(c)
    ensures InRange(d) ==> FoodCell(c)
  {
    if InRange(d) then
      SnapInRange(d.rx, MIN_X, MAX_X);
      SnapInRange(d.ry, MIN_Y, MAX_Y);
      Cell(Snap(d.rx), Snap(d.ry))
    else
      Cell(Snap(d.rx), Snap(d.ry))
  }

  predicate Accepts(d: Draw, snake: seq<Cell>)
  {
    Proposed(d) !in snake
  }

  /** One sampling attempt: the snapped cell when it is free, nothing when it lies on the snake. */
  function Attempt(d: Draw, snake: seq<Cell>): (r: Option<Cell>)
    requires InRange(d)
    ensures r.Some? <==> Proposed(d) !in snake
    ensures r.Some? ==> r.value == Proposed(d)
    ensures r.Some? ==> FoodCell(r.value) && r.value !in snake
  {
    if Proposed(d) in snake then None else Some(Proposed(d))
  }

  /** Every free food cell is the outcome of some attempt: the draw of its own coordinates. */
  lemma AttemptReachesEveryFreeCell(c: Cell, snake: seq<Cell>)
    requires FoodCell(c) && c !in snake
    ensures InRange(Draw(c.x, c.y)) && Attempt(Draw(c.x, c.y), snake) == Some(c)
  {
    assert Snap(c.x) == c.x && Snap(c.y) == c.y;
  }

  /** Some attempt in the stream is accepted, so the retry loop returns. */
  predicate SomeAccepted(draws: seq<Draw>, snake: seq<Cell>)
  {
    |draws| > 0 && (Accepts(draws[0], snake) || SomeAccepted(draws[1..], snake))
  }

  /** The cell the retry loop returns: that of the first accepted attempt. */
  function FirstAccepted(draws: seq<Draw>, snake: seq<Cell>): (c: Cell)
    requires AllInRange(draws) && SomeAccepted(draws, snake)
    ensures FoodCell(c) && c !in snake
  {
    if Accepts(draws[0], snake) then Attempt(draws[0], snake).value
    else FirstAccepted(draws[1..], snake)
  }

  /** The retry loop's result comes from some draw in the stream, and every draw before it was rejected. */
  lemma {:induction false} FirstAcceptedIsFirst(draws: seq<Draw>, snake: seq<Cell>)
    requires AllInRange(draws) && SomeAccepted(draws, snake)
    ensures exists k :: 0 <= k < |draws| && Proposed(draws[k]) == FirstAccepted(draws, snake) &&
                        forall j :: 0 <= j < k ==> Proposed(draws[j]) in snake
  {
    if !Accepts(draws[0], snake) {
      FirstAcceptedIsFirst(draws[1..], snake);
      var k :| 0 <= k < |draws[1..]| && Proposed(draws[1..][k]) == FirstAccepted(draws[1..], snake) &&
               forall j :: 0 <= j < k ==> Proposed(draws[1..][j]) in snake;
      assert Proposed(draws[k + 1]) == FirstAccepted(draws, snake);
      forall j | 0 <= j < k + 1
        ensures Proposed(draws[j]) in snake
      {
        if j > 0 {
          assert draws[j] == draws[1..][j - 1];
        }
      }
    } else {
      assert Proposed(draws[0]) == FirstAccepted(draws, snake);
    }
  }

  /**
   * get_random_food_pos: draw, snap and retry until the proposed cell is
   * free. `tries` is the number of attempts made.
   */
  method RandomFoodPos(snake: seq<Cell>, draws: seq<Draw>) returns (food: Cell, tries: nat)
    requires AllInRange(draws) && SomeAccepted(draws, snake)
    ensures food == FirstAccepted(draws, snake)
    ensures FoodCell(food) && food !in snake
    ensures 1 <= tries <= |draws| && food == Proposed(draws[tries - 1])
    ensures forall j :: 0 <= j < tries - 1 ==> Proposed(draws[j]) in snake
  {
    var i := 0;
    while true
      invariant 0 <= i < |draws|
      invariant SomeAccepted(draws[i..], snake)
      invariant FirstAccepted(draws[i..], snake) == FirstAccepted(draws, snake)
      invariant forall j :: 0 <= j < i ==> Proposed(draws[j]) in snake
      decreases |draws| - i
    {
      var x := Snap(draws[i].rx);
      var y := Snap(draws[i].ry);
      if Cell(x, y) !in snake {
        food, tries := Cell(x, y), i + 1;
        assert draws[i..][0] == draws[i];
        return;
      }
      assert draws[i..][1..] == draws[i + 1..];
      i := i + 1;
    }
  }
}
