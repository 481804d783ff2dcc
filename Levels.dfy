/**
 * Level descriptions: the deserialized record shapes of a level pack, the
 * mapping of each record into a domain Level, and the guarded lookup of a
 * level by number.
 *
 * A Level keeps its serialized node and arc lists and projects them only when
 * they are enumerated (the source's deferred `Select`), so a coordinate array
 * that is too short fails at enumeration, not at construction. The start and
 * final nodes are resolved eagerly, and a pack forces every level's
 * construction, in order, when it is built.
 */
module Levels {
  import opened Wrappers
  import opened CoreData

  /** A serialized coordinate array (`int[]`); a point needs at least two entries. */
  type Coords = seq<int>

  datatype ArcSer = ArcSer(parent: Coords, direction: Direction, pulled: bool)

  /** A serialized level; an absent start or final node is None. */
  datatype LevelSer = LevelSer(
    name: string,
    description: string,
    nodes: seq<Coords>,
    arcs: seq<ArcSer>,
    startNode: Option<Coords>,
    finalNode: Option<Coords>)

  datatype LevelPackInfo = LevelPackInfo(title: string, description: string, version: string)

  datatype LevelPackSer = LevelPackSer(info: LevelPackInfo, levels: seq<LevelSer>)

  /**
   * Why building fails: a default node was needed but the node list is empty
   * (the list index is out of range), or a coordinate array has fewer than two
   * entries (the array index is out of range).
   */
  datatype LevelError = NoNodeForDefault | ShortCoordinates

  /** A domain level; its nodes and arcs are the projections `Nodes` and `Arcs`. */
  datatype Level = Level(
    name: string,
    description: string,
    nodeSource: seq<Coords>,
    arcSource: seq<ArcSer>,
    startNode: Point,
    finalNode: Point)

  datatype LevelPack = LevelPack(packInfo: LevelPackInfo, levels: seq<Level>)

  /** `new Point(c[0], c[1])`. */
  function ToPoint(c: Coords): Result<Point, LevelError>
  {
    if |c| < 2 then Err(ShortCoordinates) else Ok(Point(c[0], c[1]))
  }

  /** `new ArcState(new Point(parent[0], parent[1]), direction, pulled)`. */
  function ToArcState(a: ArcSer): Result<ArcState, LevelError>
  {
    match ToPoint(a.parent)
    case Err(e) => Err(e)
    case Ok(p) => Ok(ArcState(p, a.direction, a.pulled))
  }

  ghost predicate AllPoints(cs: seq<Coords>)
  {
    forall i | 0 <= i < |cs| :: |cs[i]| >= 2
  }

  /**
   * Enumerates the projection of coordinate arrays to points, front to back;
   * it fails exactly when some array is too short, and otherwise keeps length,
   * order and the first two entries of each array.
   */
  function ProjectPoints(cs: seq<Coords>): (r: Result<seq<Point>, LevelError>)
    ensures r.Ok? <==> AllPoints(cs)
    ensures r.Err? ==> r.error == ShortCoordinates
    ensures r.Ok? ==> |r.value| == |cs|
    ensures r.Ok? ==> forall i | 0 <= i < |cs| :: r.value[i] == Point(cs[i][0], cs[i][1])
  {
    if cs == [] then Ok([])
    else
      match ToPoint(cs[0])
      case Err(e) => Err(e)
      case Ok(p) =>
        match ProjectPoints(cs[1..])
        case Err(e) => Err(e)
        case Ok(ps) =>
          assert forall i | 1 <= i < |cs| :: cs[i] == cs[1..][i - 1];
          Ok([p] + ps)
  }

  ghost predicate AllArcParents(arcs: seq<ArcSer>)
  {
    forall i | 0 <= i < |arcs| :: |arcs[i].parent| >= 2
  }

  /**
   * Enumerates the projection of arc records to arc states, front to back;
   * it fails exactly when some parent array is too short, and otherwise keeps
   * length and order, each arc's parent point, direction and pulled flag.
   */
  function ProjectArcs(arcs: seq<ArcSer>): (r: Result<seq<ArcState>, LevelError>)
    ensures r.Ok? <==> AllArcParents(arcs)
    ensures r.Err? ==> r.error == ShortCoordinates
    ensures r.Ok? ==> |r.value| == |arcs|
    ensures r.Ok? ==> forall i | 0 <= i < |arcs| ::
      r.value[i] == ArcState(Point(arcs[i].parent[0], arcs[i].parent[1]), arcs[i].direction, arcs[i].pulled)
  {
    if arcs == [] then Ok([])
    else
      match ToArcState(arcs[0])
      case Err(e) => Err(e)
      case Ok(a) =>
        match ProjectArcs(arcs[1..])
        case Err(e) => Err(e)
        case Ok(rest) =>
          assert forall i | 1 <= i < |arcs| :: arcs[i] == arcs[1..][i - 1];
          Ok([a] + rest)
  }

  /** Enumerating `Level.Nodes`: the projection whose contract `ProjectPoints` states. */
  function Nodes(level: Level): Result<seq<Point>, LevelError>
  {
    ProjectPoints(level.nodeSource)
  }

  /** Enumerating `Level.Arcs`: the projection whose contract `ProjectArcs` states. */
  function Arcs(level: Level): Result<seq<ArcState>, LevelError>
  {
    ProjectArcs(level.arcSource)
  }

  /** `levelSer.StartNode ?? levelSer.Nodes[0]`; None where the list index fails. */
  function StartCoords(ser: LevelSer): Option<Coords>
  {
    if ser.startNode.Some? then ser.startNode
    else if |ser.nodes| == 0 then None
    else Some(ser.nodes[0])
  }

  /** `levelSer.FinalNode ?? levelSer.Nodes[Count - 1]`; None where the list index fails. */
  function FinalCoords(ser: LevelSer): Option<Coords>
  {
    if ser.finalNode.Some? then ser.finalNode
    else if |ser.nodes| == 0 then None
    else Some(ser.nodes[|ser.nodes| - 1])
  }

  /**
   * The Level constructor. Name, description and the node and arc sources are
   * carried over; an absent start node defaults to the first serialized node
   * and an absent final node to the last. It fails when a default is needed
   * and there are no nodes, or when the chosen start or final array is short,
   * in the order the source evaluates them.
   */
  function NewLevel(ser: LevelSer): (r: Result<Level, LevelError>)
    ensures r.Ok? <==>
      && (ser.startNode.Some? || |ser.nodes| > 0)
      && (ser.finalNode.Some? || |ser.nodes| > 0)
      && |StartCoords(ser).value| >= 2
      && |FinalCoords(ser).value| >= 2
    ensures (ser.startNode.None? || ser.finalNode.None?) && |ser.nodes| == 0 ==>
      r == Err(NoNodeForDefault)
    ensures r.Err? && !((ser.startNode.None? || ser.finalNode.None?) && |ser.nodes| == 0) ==>
      r.error == ShortCoordinates
    ensures r.Ok? ==>
      && r.value.name == ser.name
      && r.value.description == ser.description
      && r.value.nodeSource == ser.nodes
      && r.value.arcSource == ser.arcs
    ensures r.Ok? && ser.startNode.Some? ==>
      r.value.startNode == Point(ser.startNode.value[0], ser.startNode.value[1])
    ensures r.Ok? && ser.startNode.None? ==>
      r.value.startNode == Point(ser.nodes[0][0], ser.nodes[0][1])
    ensures r.Ok? && ser.finalNode.Some? ==>
      r.value.finalNode == Point(ser.finalNode.value[0], ser.finalNode.value[1])
    ensures r.Ok? && ser.finalNode.None? ==>
      r.value.finalNode == Point(ser.nodes[|ser.nodes| - 1][0], ser.nodes[|ser.nodes| - 1][1])
  {
    var start := StartCoords(ser);
    if start.None? then Err(NoNodeForDefault)
    else
      var final := FinalCoords(ser);
      if final.None? then Err(NoNodeForDefault)
      else
        match ToPoint(start.value)
        case Err(e) => Err(e)
        case Ok(s) =>
          match ToPoint(final.value)
          case Err(e) => Err(e)
          case Ok(f) => Ok(Level(ser.name, ser.description, ser.nodes, ser.arcs, s, f))
  }

  /**
   * A level built without an explicit start (final) node starts (ends) at the
   * first (last) point its node enumeration yields.
   */
  lemma DefaultsAreEndNodes(ser: LevelSer)
    requires NewLevel(ser).Ok? && Nodes(NewLevel(ser).value).Ok?
    ensures ser.startNode.None? ==> Nodes(NewLevel(ser).value).value[0] == NewLevel(ser).value.startNode
    ensures ser.finalNode.None? ==>
      var ns := Nodes(NewLevel(ser).value).value;
      ns[|ns| - 1] == NewLevel(ser).value.finalNode
  {
  }

  /** A well-formed record always builds, and its enumerations succeed. */
  lemma WellFormedLevelBuilds(ser: LevelSer)
    requires |ser.nodes| > 0
    requires AllPoints(ser.nodes) && AllArcParents(ser.arcs)
    requires ser.startNode.Some? ==> |ser.startNode.value| >= 2
    requires ser.finalNode.Some? ==> |ser.finalNode.value| >= 2
    ensures NewLevel(ser).Ok?
    ensures Nodes(NewLevel(ser).value).Ok? && |Nodes(NewLevel(ser).value).value| == |ser.nodes|
    ensures Arcs(NewLevel(ser).value).Ok? && |Arcs(NewLevel(ser).value).value| == |ser.arcs|
  {
  }

  /** Builds every level, front to back (the source's `Select(...).ToList()`). */
  function BuildLevels(sers: seq<LevelSer>): (r: Result<seq<Level>, LevelError>)
    ensures r.Ok? <==> forall i | 0 <= i < |sers| :: NewLevel(sers[i]).Ok?
    ensures r.Ok? ==> |r.value| == |sers|
    ensures r.Ok? ==> forall i | 0 <= i < |sers| :: r.value[i] == NewLevel(sers[i]).value
  {
    if sers == [] then Ok([])
    else
      match NewLevel(sers[0])
      case Err(e) => Err(e)
      case Ok(level) =>
        assert forall i | 1 <= i < |sers| :: sers[i] == sers[1..][i - 1];
        match BuildLevels(sers[1..])
        case Err(e) => Err(e)
        case Ok(rest) => Ok([level] + rest)
  }

  /** When building fails, the error is that of the first level that fails. */
  lemma {:induction false} BuildLevelsFirstError(sers: seq<LevelSer>)
    requires BuildLevels(sers).Err?
    ensures exists i | 0 <= i < |sers| ::
      && NewLevel(sers[i]) == Err(BuildLevels(sers).error)
      && forall j | 0 <= j < i :: NewLevel(sers[j]).Ok?
  {
    if NewLevel(sers[0]).Ok? {
      BuildLevelsFirstError(sers[1..]);
      var k :| 0 <= k < |sers[1..]| && NewLevel(sers[1..][k]) == Err(BuildLevels(sers[1..]).error)
        && forall j | 0 <= j < k :: NewLevel(sers[1..][j]).Ok?;
      assert forall j | 1 <= j < k + 1 :: sers[j] == sers[1..][j - 1];
      assert NewLevel(sers[k + 1]) == Err(BuildLevels(sers).error);
    } else {
      assert NewLevel(sers[0]) == Err(BuildLevels(sers).error);
    }
  }

  /** The LevelPack constructor: the info is copied, each level built in order. */
  function NewLevelPack(ser: LevelPackSer): (r: Result<LevelPack, LevelError>)
    ensures r.Ok? <==> forall i | 0 <= i < |ser.levels| :: NewLevel(ser.levels[i]).Ok?
    ensures r.Ok? ==> r.value.packInfo == ser.info
    ensures r.Ok? ==> |r.value.levels| == |ser.levels|
    ensures r.Ok? ==> forall i | 0 <= i < |ser.levels| :: r.value.levels[i] == NewLevel(ser.levels[i]).value
  {
    match BuildLevels(ser.levels)
    case Err(e) => Err(e)
    case Ok(levels) => Ok(LevelPack(ser.info, levels))
  }

  /** `Levels.LevelCount`. */
  function LevelCount(pack: LevelPack): nat
  {
    |pack.levels|
  }

  /**
   * `Levels.BuildLevel`: a level number outside [0, LevelCount) yields nothing;
   * any other hands that level to the board builder, which is a parameter here.
   */
  function BuildLevel<Board>(pack: LevelPack, levelNum: int, buildBoard: Level -> Board): Option<Board>
  {
    if levelNum < 0 || levelNum >= LevelCount(pack) then None
    else Some(buildBoard(pack.levels[levelNum]))
  }

  /**
   * For a pack loaded from a serialized pack, LevelCount is the number of
   * serialized levels, and BuildLevel yields a board exactly for the numbers
   * in range, built from the level that record describes.
   */
  lemma LoadedPackBuildLevel<Board>(ser: LevelPackSer, levelNum: int, buildBoard: Level -> Board)
    requires NewLevelPack(ser).Ok?
    ensures LevelCount(NewLevelPack(ser).value) == |ser.levels|
    ensures BuildLevel(NewLevelPack(ser).value, levelNum, buildBoard).None? <==>
      levelNum < 0 || levelNum >= |ser.levels|
    ensures 0 <= levelNum < |ser.levels| ==>
      BuildLevel(NewLevelPack(ser).value, levelNum, buildBoard) == Some(buildBoard(NewLevel(ser.levels[levelNum]).value))
  {
  }
}
