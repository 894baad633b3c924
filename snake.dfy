/**
 * The snake: an ordered body with the head at index 0, a heading, and a
 * `digesting` flag meaning "keep the tail on the next move".
 */
module Snakes {
  import opened Directions
  import opened Vectors

  /** No point occurs twice. */
  predicate Distinct(s: seq<Vector>)
  {
    forall i, j :: 0 <= i < j < |s| ==> s[i] != s[j]
  }

  /**
   * The body a new snake starts with: segment `i` is `i` cells behind the
   * start, against the heading. Like every move, this zeroes the coordinate
   * on the axis it does not walk along, the head's included.
   */
  function InitialBody(start: Vector, length: nat, heading: Direction): (body: seq<Vector>)
    ensures |body| == length
    ensures forall i :: 0 <= i < length ==> body[i] == MoveVectorTo(start, OppositeDirection(heading), i)
    ensures forall i :: 0 <= i < length ==> if IsVertical(heading) then body[i].x == 0 else body[i].y == 0
  {
    seq(length, i => MoveVectorTo(start, OppositeDirection(heading), i))
  }

  /** A length-3 snake started at (5, 5) heading Right lies on row 0, not row 5. */
  lemma InitialBodyExample()
    ensures InitialBody(Vector(5, 5), 3, Right) == [Vector(5, 0), Vector(4, 0), Vector(3, 0)]
  {
    var b := InitialBody(Vector(5, 5), 3, Right);
    assert b[0] == Vector(5, 0) && b[1] == Vector(4, 0) && b[2] == Vector(3, 0);
  }

  /**
   * The starting segments are pairwise different unless the trail runs into
   * zero: heading Right (trail to the left) needs `start.x >= length - 1`,
   * heading Down (trail upwards) needs `start.y >= length - 1`.
   */
  lemma InitialBodyDistinct(start: Vector, length: nat, heading: Direction)
    requires NonNegative(start)
    ensures Distinct(InitialBody(start, length, heading)) <==>
              (heading == Right ==> start.x + 1 >= length) &&
              (heading == Down ==> start.y + 1 >= length)
  {
    var body := InitialBody(start, length, heading);
    if heading == Right && start.x + 1 < length {
      var i := start.x;
      assert body[i] == Vector(0, 0) == body[i + 1];
    } else if heading == Down && start.y + 1 < length {
      var i := start.y;
      assert body[i] == Vector(0, 0) == body[i + 1];
    } else {
      forall i, j | 0 <= i < j < length
        ensures body[i] != body[j]
      {
        MoveAlongAxis(start, OppositeDirection(heading), i);
        MoveAlongAxis(start, OppositeDirection(heading), j);
      }
    }
  }

  /**
   * The body after one move: the new head is one cell along the heading from
   * the old head, every old segment moves one place back, and the last one
   * drops off unless the snake is digesting.
   */
  function Advanced(body: seq<Vector>, heading: Direction, digesting: bool): (r: seq<Vector>)
    requires |body| >= 1
    ensures |r| == |body| + (if digesting then 1 else 0)
    ensures r[0] == MoveVectorTo(body[0], heading, 1)
    ensures forall i :: 1 <= i < |r| ==> r[i] == body[i - 1]
    ensures forall v :: v in r ==> v == r[0] || v in body
  {
    [MoveVectorTo(body[0], heading, 1)] + (if digesting then body else body[..|body| - 1])
  }

  class Snake {
    var body: seq<Vector>
    var direction: Direction
    var digesting: bool

    /** `Snake::new`: the body trails behind the start, against the heading. */
    constructor (start: Vector, length: nat, direction: Direction)
      ensures body == InitialBody(start, length, direction)
      ensures this.direction == direction && !digesting
    {
      body := InitialBody(start, length, direction);
      this.direction := direction;
      digesting := false;
    }

    /** The head segment; `get_head_point` unwraps the first element, so the body must not be empty. */
    function Head(): (v: Vector)
      reads this
      requires |body| >= 1
      ensures v == body[0] && Contains(v)
    {
      body[0]
    }

    /** Whether some segment is at `v`. */
    function Contains(v: Vector): (r: bool)
      reads this
      ensures r <==> exists i :: 0 <= i < |body| && body[i] == v
    {
      v in body
    }

    /**
     * One move: insert the new head, then drop the tail unless digesting, in
     * which case the tail stays and the flag is cleared.
     */
    method Slither()
      requires |body| >= 1
      modifies this
      ensures body == Advanced(old(body), direction, old(digesting))
      ensures direction == old(direction) && !digesting
    {
      body := [MoveVectorTo(body[0], direction, 1)] + body;
      if !digesting {
        body := body[..|body| - 1];
      } else {
        digesting := false;
      }
    }

    /** Assigns the heading; whether a turn is allowed is decided by the caller. */
    method SetDirection(d: Direction)
      modifies this
      ensures direction == d
      ensures body == old(body) && digesting == old(digesting)
    {
      direction := d;
    }

    /** Marks the snake to keep its tail on the next move; nothing else changes now. */
    method Grow()
      modifies this
      ensures digesting
      ensures body == old(body) && direction == old(direction)
    {
      digesting := true;
    }
  }
}
