/** Board points with coordinates clamped at zero, and one move along a heading. */
module Vectors {
  import opened Directions

  datatype Vector = Vector(x: int, y: int)

  predicate NonNegative(v: Vector)
  {
    v.x >= 0 && v.y >= 0
  }

  /** Builds a point; a negative coordinate becomes zero, any other is kept. */
  function NewVector(x: int, y: int): (v: Vector)
    ensures NonNegative(v)
    ensures x >= 0 ==> v.x == x
    ensures y >= 0 ==> v.y == y
    ensures x < 0 ==> v.x == 0
    ensures y < 0 ==> v.y == 0
  {
    Vector(if x < 0 then 0 else x, if y < 0 then 0 else y)
  }

  /** Non-negative points are left alone, so clamping twice is clamping once. */
  lemma NewVectorIdempotent(x: int, y: int)
    ensures var v := NewVector(x, y); NewVector(v.x, v.y) == v
    ensures x >= 0 && y >= 0 ==> NewVector(x, y) == Vector(x, y)
  {
  }

  /**
   * The point `step` cells along `d`, clamped at zero. The coordinate on the
   * other axis is not carried over: it is zero in the result.
   */
  function MoveVectorTo(v: Vector, d: Direction, step: int): (r: Vector)
    ensures NonNegative(r)
    ensures IsVertical(d) ==> r.x == 0
    ensures !IsVertical(d) ==> r.y == 0
  {
    var shifted := match d
      case Up => (0, v.y - step)
      case Right => (v.x + step, 0)
      case Down => (0, v.y + step)
      case Left => (v.x - step, 0);
    NewVector(shifted.0, shifted.1)
  }

  /** The moved coordinate, for each heading. */
  lemma MoveAlongAxis(v: Vector, d: Direction, step: int)
    ensures d == Up ==> MoveVectorTo(v, d, step) == Vector(0, if v.y - step < 0 then 0 else v.y - step)
    ensures d == Down ==> MoveVectorTo(v, d, step) == Vector(0, if v.y + step < 0 then 0 else v.y + step)
    ensures d == Right ==> MoveVectorTo(v, d, step) == Vector(if v.x + step < 0 then 0 else v.x + step, 0)
    ensures d == Left ==> MoveVectorTo(v, d, step) == Vector(if v.x - step < 0 then 0 else v.x - step, 0)
  {
  }

  /** Moving towards a zero coordinate from zero stays at zero on that axis. */
  lemma MoveStopsAtZero(v: Vector, step: int)
    requires step >= 0
    ensures v.y == 0 ==> MoveVectorTo(v, Up, step).y == 0
    ensures v.x == 0 ==> MoveVectorTo(v, Left, step).x == 0
  {
  }

  /**
   * Moving `n` cells and back returns the start exactly when the other axis
   * is already zero and, for Up and Left, the start is at least `n` cells
   * away from zero.
   */
  lemma MoveRoundTrip(v: Vector, d: Direction, n: int)
    requires NonNegative(v) && n >= 0
    ensures MoveVectorTo(MoveVectorTo(v, d, n), OppositeDirection(d), n) == v <==>
              match d
              case Up => v.x == 0 && v.y >= n
              case Down => v.x == 0
              case Right => v.y == 0
              case Left => v.y == 0 && v.x >= n
  {
  }
}
