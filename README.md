# Puzzle board core: arc adjacency map and level descriptions

This project models, in Dafny, the two engine-independent pieces of logic in a
node/arc grid puzzle game.

- **`ArcViewMap`** (module `ArcViewMaps`) is the board view's adjacency table.
  It keeps an exact index from a (position, direction) key to the arc view
  stored there. It also keeps a multi-valued index from a position to the set
  of arc views touching it. It is a class with two map fields. The sets of the
  second index are heap objects (class `ArcSet`, the source's `HashSet`), so
  the model has the same aliasing as the source:
  - `GetArcs` hands out the live set.
  - `Add` grows a stored set in place.
  - `Reset` shares the source map's set objects.

  `Valid()` is the cross-index invariant. Every operation accepts a map in any
  state. `Add`, `GetArcs` and `Remove` keep the invariant when it held before,
  `Clear` always establishes it, and `Reset` establishes it when the other map
  has it. The invariant
  says:
  - every exact entry is a member of its position's set;
  - every set member is stored under that position in some direction;
  - no two positions share a set object.
- **Level descriptions** (module `Levels`) turn a deserialized level pack
  (`LevelPackSer`, `LevelSer`, `ArcSer`) into domain values (`LevelPack`,
  `Level`, `ArcState`). Coordinate arrays become `Point`s. An absent start node
  defaults to the first node, and an absent final node to the last. The guard
  in `BuildLevel` yields nothing for a level number outside `[0, LevelCount)`.
  The source projects a level's nodes and arcs lazily (`Select` without
  `ToList`). So a `Level` keeps its serialized lists, and `Nodes`/`Arcs` model
  enumerating them: a coordinate array shorter than two entries fails there,
  not in the constructor. The start and final nodes are resolved eagerly. The
  pack's `ToList` builds every level in order, and the first failure is the
  pack's error.

`CoreData` holds the shared value types (`Point`, `Direction`, `PointDir`,
`ArcState`), and `Wrappers` holds `Option`/`Result`. The C# exceptions
(index out of range, duplicate dictionary key) become `Result` errors or a
`false` result.

Three behaviours of the code are easy to miss:
- `Remove` reports only whether the position was a key of the set index. It
  returns `true` for a position that `GetArcs` created empty and that never
  held an arc.
- `Reset` is a shallow copy. The copy and the original share set objects, so
  adding an arc to the copy at a shared position also grows the original's
  set. That breaks the original's invariant (`AddAfterResetBreaksOriginal`).
- `Reset` on the map itself empties it, because both indices are cleared
  before they are read.

## Model

| member | source | states |
|---|---|---|
| ArcViewMaps.ArcViewMap.constructor | Nodule/Assets/Scripts/View/Data/ArcViewMap.cs:11-12 | a new map has both indices empty and satisfies the cross-index invariant |
| ArcViewMaps.ArcViewMap.ArcsMatchSetIndex | Nodule/Assets/Scripts/View/Data/ArcViewMap.cs:14-17 | under the invariant, `Arcs` (the values of the exact index) is exactly the set of arcs listed by the set index |
| ArcViewMaps.ArcViewMap.OrphanBreaksValid | Nodule/Assets/Scripts/View/Data/ArcViewMap.cs:11-12 | a set member that no exact entry stores violates the cross-index invariant |
| ArcViewMaps.ArcViewMap.Reset | Nodule/Assets/Scripts/View/Data/ArcViewMap.cs:19-31 | afterwards both indices equal the other map's and the set values are the same objects (shallow copy); resetting from itself leaves both empty; from any state, and the invariant holds when the other map's held |
| ArcViewMaps.AddAfterResetBreaksOriginal | Nodule/Assets/Scripts/View/Data/ArcViewMap.cs:28-62 | after a reset, adding a new arc to the copy at a shared position puts it into the original's set too, so the original's invariant fails while the copy's holds; the original's exact index still has no arc at that key |
| ArcViewMaps.ArcViewMap.ContainsArc | Nodule/Assets/Scripts/View/Data/ArcViewMap.cs:33-36 | true exactly when (pos, dir) is a key of the exact index, in any state; under the invariant such an arc is also a member of pos's set |
| ArcViewMaps.ArcViewMap.GetArcs | Nodule/Assets/Scripts/View/Data/ArcViewMap.cs:38-48 | returns pos's stored set; on a miss stores and returns a fresh empty set (so a later call returns that same object); the exact index is unchanged; from any state, and the invariant is kept when it held before |
| ArcViewMaps.ArcViewMap.TryGetArc | Nodule/Assets/Scripts/View/Data/ArcViewMap.cs:50-53 | found exactly when (pos, dir) is a key, in any state; then the arc is that entry and is in `Arcs`, and under the invariant also in pos's set; otherwise the arc is null |
| ArcViewMaps.ArcViewMap.Add | Nodule/Assets/Scripts/View/Data/ArcViewMap.cs:55-67 | an existing key is refused with neither index changed; otherwise only that key is added, the arc joins pos's set (the existing set object, or a fresh one), `Arcs` grows by the arc; from any state, and the invariant is kept when it held before |
| ArcViewMaps.KeysAt | Nodule/Assets/Scripts/View/Data/ArcViewMap.cs:71-74 | the keys `Remove` drops: every direction at the position and nothing at any other position |
| ArcViewMaps.ArcViewMap.Remove | Nodule/Assets/Scripts/View/Data/ArcViewMap.cs:69-76 | drops every direction's entry at pos and pos from the set index, leaving other positions untouched; `ContainsArc(pos, d)` is false for every d; the result is exactly whether pos was a set-index key; from any state, and the invariant is kept when it held before |
| ArcViewMaps.ArcViewMap.Clear | Nodule/Assets/Scripts/View/Data/ArcViewMap.cs:78-82 | both indices are empty, `Arcs` is empty, `ContainsArc` is false everywhere |
| Levels.ProjectPoints | Assets/Scripts/Core/Game/Levels.cs:123-124 | enumerating the nodes (a level's `Nodes`) fails (with `ShortCoordinates`) exactly when some coordinate array is shorter than two; otherwise it keeps the length and order, with element i `Point(nodes[i][0], nodes[i][1])` |
| Levels.ProjectArcs | Assets/Scripts/Core/Game/Levels.cs:126-130 | enumerating the arcs (a level's `Arcs`) fails (with `ShortCoordinates`) exactly when some parent array is too short; otherwise element i is `ArcState(Point(parent[0], parent[1]), direction, pulled)` of the i-th record, with the length kept |
| Levels.NewLevel | Assets/Scripts/Core/Game/Levels.cs:118-137 | succeeds exactly when each needed default has a node and the chosen start and final arrays have two entries; with no nodes and a needed default the error is `NoNodeForDefault`, and any other failure is `ShortCoordinates`; name, description and sources are copied; start is the given start or else the first node; final is the given final or else the last node |
| Levels.DefaultsAreEndNodes | Assets/Scripts/Core/Game/Levels.cs:132-136 | a defaulted start (final) node is the first (last) point the level's node enumeration yields |
| Levels.WellFormedLevelBuilds | Assets/Scripts/Core/Game/Levels.cs:118-137 | a record with nodes, all arrays of length two or more builds, and its node and arc enumerations succeed with the serialized lengths |
| Levels.BuildLevels | Assets/Scripts/Core/Game/Levels.cs:95-97 | succeeds exactly when every level builds; then one level per record, in order |
| Levels.BuildLevelsFirstError | Assets/Scripts/Core/Game/Levels.cs:95-97 | a failure carries the error of the first record that fails to build, all earlier ones building |
| Levels.NewLevelPack | Assets/Scripts/Core/Game/Levels.cs:92-98 | the pack info is copied verbatim, with one level per serialized level in the same order; it succeeds exactly when every level builds |
| Levels.LoadedPackBuildLevel | Assets/Scripts/Core/Game/Levels.cs:22-32 | for a loaded pack, `LevelCount` is the number of serialized levels and `BuildLevel(n)` is absent exactly when n < 0 or n >= LevelCount; otherwise it is the board built from level n |

## Left out

- `LevelParser.DeserializeLevelPack` (YAML deserialization and `Resources.Load`) is foreign library code and asset I/O. The model takes its output, a `LevelPackSer`, as input.
- The static `LevelPack`/`SavedPack` initialisers are load-time I/O. `BuildLevel` takes the loaded pack as a parameter. A load that fails (the type initializer throwing) is not modelled.
- `GameBoardBuilder.BuildBoard` is not part of this model. It is a function parameter of `BuildLevel`, assumed to return a board.
- `Assets/Scripts/View/Game/PuzzleScale.cs` and `Nodule/Assets/Scripts/View/Items/FieldView.cs` are not modelled. They hold engine glue: camera viewport queries, tweening, transform writes and floating-point `Vector2` arithmetic.
- The source definitions of `Point`, `PointDir`, `Direction` and `Directions.All` are not shown. The model assumes `Point` and `PointDir` compare by value and `Direction` has four compass values; `AllDirections` lists each of them, which is all `Remove` relies on.
- An absent `levels` list in the pack (a null list, which makes the `Select` in `LevelPack`'s constructor throw) is not modelled; the list is always present.
- The source's node and arc enumerations are lazy: they yield the points of the well-formed prefix before a short array throws. `Nodes` and `Arcs` are all-or-nothing: a short array anywhere makes the whole enumeration an error, and the prefix a caller could have consumed is not modelled.
- An absent `nodes` or `arcs` list (a null list, which makes `Select` throw) is not modelled. A null coordinate array inside a list is not modelled either. Both lists are always present.
- C# coordinates are 32-bit `int`s. The code does no arithmetic on them, so the model uses unbounded `int`. The exact .NET exception types are collapsed into `LevelError`.
- ArcViewMaps.ArcViewMap.Arcs: this is a snapshot set of the exact index's values. The source returns a live view of the dictionary's values, which later operations change under the caller. It also lists an arc once per key that stores it, in dictionary order. The live view, that multiplicity and that order are not modelled.
- ArcViewMaps.ArcViewMap.Add: the exception on a duplicate key becomes the result `false` with nothing changed.
- ArcViewMaps.ArcViewMap.GetArcs: a caller that adds to the returned live set can break the invariant, because the set is shared. The model's methods do not do this.
- ArcViewMaps.ArcViewMap.Add: the arc view is a non-null object. The source also accepts a null `arcView`. Both the dictionary and the hash set store null, and `TryGetArc` then reports a hit with a null arc. Null arcs are not modelled.
- `ArcView` is modelled as an object with identity only. Its view behaviour is not modelled.
