/**
 * Points on the 8-bit coordinate grid and the four compass directions
 * (Game/Point.h, Game/Point.c, Game/Direction.h).
 */
module Point {
  import opened Size
  import opened Wrappers

  /** Direction_t, in its declaration order. */
  datatype Direction = North | East | South | West

  datatype Point = Point(X: U8, Y: U8)

  /** Points are equal when both coordinates agree. */
  function PointsEqual(p1: Point, p2: Point): (r: bool)
    ensures r <==> p1 == p2
  {
    p1.X == p2.X && p1.Y == p2.Y
  }

  lemma PointsEqualReflexive(p: Point)
    ensures PointsEqual(p, p)
  {
  }

  lemma PointsEqualSymmetric(p1: Point, p2: Point)
    ensures PointsEqual(p1, p2) == PointsEqual(p2, p1)
  {
  }

  /** Componentwise sum, each coordinate truncated to 8 bits as the uint8_t fields are. */
  function PointAdd(p1: Point, p2: Point): (r: Point)
    ensures (r.X - (p1.X + p2.X)) % 256 == 0 && (r.Y - (p1.Y + p2.Y)) % 256 == 0
  {
    Point((p1.X + p2.X) % 256, (p1.Y + p2.Y) % 256)
  }

  lemma PointAddCommutes(p1: Point, p2: Point)
    ensures PointAdd(p1, p2) == PointAdd(p2, p1)
  {
  }

  /** An 8-bit decrement / increment, wrapping like uint8_t arithmetic. */
  function Dec8(v: U8): U8 { if v == 0 then 255 else v - 1 }
  function Inc8(v: U8): U8 { if v == 255 then 0 else v + 1 }

  /**
   * The step of Point.c: North is Y-1, East X+1, South Y+1, West X-1, each
   * coordinate wrapping modulo 256: a step that does not wrap reaches a
   * four-neighbour on the side d names, and one that wraps lands on the
   * far edge. The C function updates its point argument in place; here
   * the updated point is the result.
   */
  function PointAddDirection(p: Point, d: Direction): (r: Point)
    ensures d == North || d == South ==> r.X == p.X
    ensures d == East || d == West ==> r.Y == p.Y
    ensures !StepWraps(p, d) ==>
      && Adjacent(p, r)
      && (d == North ==> r.Y < p.Y) && (d == South ==> r.Y > p.Y)
      && (d == West ==> r.X < p.X) && (d == East ==> r.X > p.X)
    ensures StepWraps(p, d) ==>
      && (d == North ==> r.Y == 255) && (d == South ==> r.Y == 0)
      && (d == West ==> r.X == 255) && (d == East ==> r.X == 0)
  {
    match d
    case North => p.(Y := Dec8(p.Y))
    case East => p.(X := Inc8(p.X))
    case South => p.(Y := Inc8(p.Y))
    case West => p.(X := Dec8(p.X))
  }

  function Opposite(d: Direction): Direction
  {
    match d
    case North => South
    case East => West
    case South => North
    case West => East
  }

  /** The four-neighbourhood on the grid (no wrap-around). */
  predicate Adjacent(p: Point, q: Point)
  {
    (p.X == q.X && (p.Y + 1 == q.Y || q.Y + 1 == p.Y)) ||
    (p.Y == q.Y && (p.X + 1 == q.X || q.X + 1 == p.X))
  }

  /** Exactly one coordinate moves, by one, in the direction's sense. */
  lemma PointAddDirectionMovesOneCoordinate(p: Point, d: Direction)
    ensures var r := PointAddDirection(p, d);
      && (d == North ==> r.X == p.X && (r.Y - p.Y + 1) % 256 == 0)
      && (d == South ==> r.X == p.X && (r.Y - p.Y - 1) % 256 == 0)
      && (d == East ==> r.Y == p.Y && (r.X - p.X - 1) % 256 == 0)
      && (d == West ==> r.Y == p.Y && (r.X - p.X + 1) % 256 == 0)
  {
  }

  /** The wrap-around of the uint8_t coordinates at the grid's edges. */
  lemma PointAddDirectionWraps(x: U8, y: U8)
    ensures PointAddDirection(Point(x, 0), North) == Point(x, 255)
    ensures PointAddDirection(Point(255, y), East) == Point(0, y)
    ensures PointAddDirection(Point(x, 255), South) == Point(x, 0)
    ensures PointAddDirection(Point(0, y), West) == Point(255, y)
  {
  }

  /** A step followed by the opposite step returns to the starting point. */
  lemma OppositeStepsCancel(p: Point, d: Direction)
    ensures PointAddDirection(PointAddDirection(p, d), Opposite(d)) == p
  {
  }

  /** True when a step from p in direction d would wrap an 8-bit coordinate. */
  predicate StepWraps(p: Point, d: Direction)
  {
    match d
    case North => p.Y == 0
    case East => p.X == 255
    case South => p.Y == 255
    case West => p.X == 0
  }

  /**
   * The bool-returning PointAddDirection that Point.h declares and the game
   * engines test as "the step succeeded": None exactly when the step would
   * wrap a coordinate, otherwise the point one tile away.
   */
  function TryAddDirection(p: Point, d: Direction): (r: Option<Point>)
    ensures r.None? <==> StepWraps(p, d)
    ensures r.Some? ==> r.value == PointAddDirection(p, d) && Adjacent(p, r.value)
  {
    if StepWraps(p, d) then None else Some(PointAddDirection(p, d))
  }

  /** A point lies inside a size when both coordinates are below its extents. */
  function PointInSize(p: Point, s: Size): (r: bool)
    ensures r <==> p.X < s.Width && p.Y < s.Height
    ensures r ==> s.Width > 0 && s.Height > 0
  {
    p.X < s.Width && p.Y < s.Height
  }

  /** Growing a size keeps every point that was inside it inside. */
  lemma PointInSizeMonotone(p: Point, s: Size, t: Size)
    requires s.Width <= t.Width && s.Height <= t.Height
    ensures PointInSize(p, s) ==> PointInSize(p, t)
    ensures t.Width == 0 || t.Height == 0 ==> !PointInSize(p, s)
  {
  }
}
