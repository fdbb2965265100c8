/**
 * Geometry of spatial focus navigation: the elements the DOM query reports,
 * the four directions, the 30-pixel dead zone on the movement axis and the
 * two sort keys (distance, cross-axis offset).
 */
module Geometry {
  import opened Wrappers

  /** A visible focusable DOM node: the centre of its bounding box in
      viewport pixels and its tag name. Its only identity is its position
      in one query result. */
  datatype Element = Element(x: real, y: real, tag: string)

  datatype Direction = Up | Down | Left | Right

  /** Minimum offset along the movement axis for an element to count as
      lying in that direction. */
  const DeadZone: real := 30.0

  /** The direction a request string names; every other string names none. */
  function ParseDirection(s: string): Option<Direction>
  {
    if s == "up" then Some(Up)
    else if s == "down" then Some(Down)
    else if s == "left" then Some(Left)
    else if s == "right" then Some(Right)
    else None
  }

  function Abs(v: real): real
  {
    if v < 0.0 then -v else v
  }

  /** Whether an element at offset (dx, dy) from the focused one lies
      strictly beyond the dead zone in direction d. */
  predicate Beyond(d: Direction, dx: real, dy: real)
  {
    match d
    case Up => dy < -DeadZone
    case Down => dy > DeadZone
    case Left => dx < -DeadZone
    case Right => dx > DeadZone
  }

  /** The secondary sort key: the offset perpendicular to the movement. */
  function CrossOffset(d: Direction, dx: real, dy: real): real
  {
    match d
    case Up | Down => Abs(dx)
    case Left | Right => Abs(dy)
  }

  /** The primary sort key. The source ranks by the Euclidean distance
      sqrt(dx*dx + dy*dy); the model ranks by its square, which orders
      candidates the same way (SquaredDistanceOrder). */
  function SquaredDistance(dx: real, dy: real): (r: real)
    ensures r >= 0.0
  {
    dx * dx + dy * dy
  }

  /** Comparing two non-negative distances is the same as comparing their
      squares, so a ranking by squared distance is a ranking by distance. */
  lemma SquaredDistanceOrder(d1: real, d2: real)
    requires 0.0 <= d1 && 0.0 <= d2
    ensures d1 < d2 <==> d1 * d1 < d2 * d2
    ensures d1 == d2 <==> d1 * d1 == d2 * d2
  {
    if d1 < d2 {
      SquareGrows(d1, d2);
    } else if d2 < d1 {
      SquareGrows(d2, d1);
    }
  }

  lemma SquareGrows(a: real, b: real)
    requires 0.0 <= a < b
    ensures a * a < b * b
  {
    LessChain(a * a, a * b, b * b);
  }

  lemma LessChain(p: real, q: real, r: real)
    requires p <= q < r
    ensures p < r
  {
  }
}
