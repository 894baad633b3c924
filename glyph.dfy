/** The symbol and colour `draw_snake` chooses for each segment. */
module Glyphs {
  import opened Wrappers
  import opened Directions
  import opened Vectors

  datatype Color = Green | Cyan | Yellow

  /** The snake's colour cycles with the speed tier. */
  function SnakeColor(speed: nat): (c: Color)
    ensures speed % 3 == 0 <==> c == Green
    ensures speed % 3 == 1 <==> c == Cyan
  {
    match speed % 3
    case 0 => Green
    case 1 => Cyan
    case _ => Yellow
  }

  /** Three tiers later the colour is back. */
  lemma SnakeColorPeriod(speed: nat)
    ensures SnakeColor(speed + 3) == SnakeColor(speed)
  {
  }

  /** The cell below `v`, as draw_snake computes it. */
  function Below(v: Vector): Vector { MoveVectorTo(v, Down, 1) }

  /** The cell right of `v`, as draw_snake computes it. */
  function RightOf(v: Vector): Vector { MoveVectorTo(v, Right, 1) }

  /** The cell above `v`; on the top row draw_snake uses `v` itself. */
  function Above(v: Vector): Vector { if v.y == 0 then v else MoveVectorTo(v, Up, 1) }

  /** The cell left of `v`; on the left column draw_snake uses `v` itself. */
  function LeftOf(v: Vector): Vector { if v.x == 0 then v else MoveVectorTo(v, Left, 1) }

  /**
   * The glyph of segment `body` from its neighbour towards the head
   * (`previous`) and towards the tail (`next`). A segment with neither
   * neighbour makes `draw_snake` panic.
   */
  function SegmentGlyph(previous: Option<Vector>, body: Vector, next: Option<Vector>): (c: char)
    requires previous.Some? || next.Some?
    ensures c in {'O', '║', '═', '╔', '╗', '╚', '╝'}
    ensures c == 'O' <==> previous.None?
    ensures next.None? ==> (c == '═' <==> body.y == previous.value.y)
    ensures next.None? && previous.Some? ==> c in {'═', '║'}
    ensures previous.Some? && next.Some? ==> (c == '║' <==> previous.value.x == next.value.x)
    ensures previous.Some? && next.Some? && previous.value.x != next.value.x ==>
              (c == '═' <==> previous.value.y == next.value.y)
    ensures previous.Some? && next.Some? && previous.value.x != next.value.x && previous.value.y != next.value.y ==>
              (c == '╔' <==> {previous.value, next.value} == {Below(body), RightOf(body)})
              && (c == '╗' <==> {previous.value, next.value} == {Below(body), LeftOf(body)})
              && (c == '╚' <==> {previous.value, next.value} == {Above(body), RightOf(body)})
  {
    if next.Some? then
      if previous.Some? then
        var p, n := previous.value, next.value;
        if p.x == n.x then '║'
        else if p.y == n.y then '═'
        else
          var d, r, u, l := Below(body), RightOf(body), Above(body), LeftOf(body);
          if (n == d && p == r) || (p == d && n == r) then '╔'
          else if (n == d && p == l) || (p == d && n == l) then '╗'
          else if (n == u && p == r) || (p == u && n == r) then '╚'
          else '╝'
      else 'O'
    else if body.y == previous.value.y then '═'
    else '║'
  }

  /** An inner segment's glyph does not depend on which neighbour is towards the head. */
  lemma SegmentGlyphSymmetric(p: Vector, body: Vector, n: Vector)
    ensures SegmentGlyph(Some(p), body, Some(n)) == SegmentGlyph(Some(n), body, Some(p))
  {
  }

  /** The glyphs of the whole body, head first; a one-segment body has none. */
  function SnakeGlyphs(body: seq<Vector>): (glyphs: seq<char>)
    requires |body| != 1
    ensures |glyphs| == |body|
    ensures |body| >= 2 ==> glyphs[0] == 'O'
    ensures forall i :: 0 < i < |body| ==> glyphs[i] != 'O'
  {
    seq(|body|, i requires 0 <= i < |body| =>
      SegmentGlyph(if i == 0 then None else Some(body[i - 1]),
                   body[i],
                   if i + 1 < |body| then Some(body[i + 1]) else None))
  }
}
