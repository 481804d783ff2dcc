/**
 * The value types both core files share: grid points, compass directions,
 * the (point, direction) key of the arc map, and the immutable arc state
 * a level description carries.
 */
module CoreData {
  /** An integer grid coordinate; equality is by value. */
  datatype Point = Point(x: int, y: int)

  /** A compass direction an arc leaves its parent node in. */
  datatype Direction = Up | Right | Down | Left

  /** `Directions.All`: every direction, each once. */
  const AllDirections: seq<Direction> := [Up, Right, Down, Left]

  lemma AllDirectionsComplete(d: Direction)
    ensures d in AllDirections
  {
  }

  /** The composite key (position, direction) of the exact arc index. */
  datatype PointDir = PointDir(pos: Point, dir: Direction)

  /** A located, directed arc with its "pulled" flag. */
  datatype ArcState = ArcState(point: Point, direction: Direction, pulled: bool)
}
