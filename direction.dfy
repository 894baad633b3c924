/** The four headings of the snake and the map to the opposite heading. */
module Directions {

  datatype Direction = Up | Right | Down | Left

  /** Up and Down move along the y axis, Right and Left along the x axis. */
  predicate IsVertical(d: Direction)
  {
    d == Up || d == Down
  }

  /** The heading that points the other way along the same axis. */
  function OppositeDirection(d: Direction): (r: Direction)
    ensures r != d
    ensures IsVertical(r) == IsVertical(d)
  {
    match d
    case Up => Down
    case Right => Left
    case Down => Up
    case Left => Right
  }

  /** Taking the opposite twice gives back the heading. */
  lemma OppositeIsInvolution(d: Direction)
    ensures OppositeDirection(OppositeDirection(d)) == d
  {
  }

  /** The map pairs Up with Down and Right with Left, in both directions. */
  lemma OppositePairs(a: Direction, b: Direction)
    ensures OppositeDirection(a) == b <==>
              ({a, b} == {Up, Down} || {a, b} == {Right, Left})
  {
  }

  /** Being its own inverse, the map is one-to-one ... */
  lemma OppositeIsInjective(a: Direction, b: Direction)
    ensures OppositeDirection(a) == OppositeDirection(b) ==> a == b
  {
    OppositeIsInvolution(a);
    OppositeIsInvolution(b);
  }

  /** ... and onto: every heading is the opposite of its own opposite. */
  lemma OppositeIsOnto(b: Direction)
    ensures exists a :: OppositeDirection(a) == b
  {
    OppositeIsInvolution(b);
  }
}
