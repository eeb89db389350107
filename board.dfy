/**
 * The board-side state that the jokers read and change: the path manager's
 * coordinate-to-tile dictionary, the tiles' world positions, the start and end
 * cells, the map manager's grid, the tiles' highlight flags, the game
 * manager's move budget and its timer, and which of the scene's singleton
 * managers exist at all.
 */
module Board {

  datatype Option<T> = None | Some(value: T)

  /** A board cell, Unity's `Vector2Int`. */
  datatype Coord = Coord(x: int, y: int)

  /** `default(Vector2Int)`, which the jokers read as "no target". */
  const Default: Coord := Coord(0, 0)

  /** The identity of a tile object (a `PathController`). */
  type TileId = nat

  /** A tile's world position (a `Vector3`); the jokers only copy it. */
  datatype Position = Position(x: int, y: int, z: int)

  /** A call a joker makes into the joker manager. */
  datatype Request = NoRequest | UseJoker(selected: Coord, target: Coord) | DeselectJoker

  /** The exceptions an operation can raise. */
  datatype Fault =
    | NullReference     // a singleton manager that does not exist is dereferenced
    | KeyNotFound       // the dictionary indexer is used on a missing coordinate
    | MissingReference  // a destroyed tile is used
    | NullArgument      // `Instantiate` is given a null prefab

  /** How an operation ended: it did its work, returned early, or raised. */
  datatype Status = Applied | Skipped | Threw(fault: Fault)

  class World {
    // Which singletons exist (`X.instance != null`).
    var jokerManager: bool
    var pathManager: bool
    var mapManager: bool
    var gameManager: bool
    var gameTimer: bool       // the game manager carries a `GameTimer` component

    var coordToTile: map<Coord, TileId>
    var position: map<TileId, Position>   // the live tiles and where they stand
    var startOrEnd: set<Coord>            // the cells `IsStartOrEnd` accepts
    var gridTilePositions: set<Coord>     // the keys of the map manager's grid
    var highlighted: set<TileId>
    var moves: int
    var timerRemainingPositive: bool      // `GetRemainingTime() > 0`
    var timerPaused: bool
    var nextId: TileId                    // the next identity `Instantiate` hands out

    /**
     * Every tile identity in use was handed out before `nextId`. The scene a
     * caller sets up is assumed to satisfy it; the methods that change tiles,
     * the dictionary or the highlights keep it.
     */
    ghost predicate Valid()
      reads this
    {
      && (forall t :: t in position ==> t < nextId)
      && (forall c :: c in coordToTile ==> coordToTile[c] < nextId)
      && (forall t :: t in highlighted ==> t < nextId)
    }

    /** `JokerManager.Instance != null && JokerManager.Instance.IsStartOrEnd(c)` */
    predicate GuardsStartOrEnd(c: Coord)
      reads this
    {
      jokerManager && c in startOrEnd
    }
  }

  /** The positions after tiles `a` and `b` have exchanged places. */
  function SwapPositions(position: map<TileId, Position>, a: TileId, b: TileId): (r: map<TileId, Position>)
    requires a in position && b in position
    ensures r.Keys == position.Keys
    ensures r[a] == position[b] && r[b] == position[a]
    ensures forall t :: t in position && t != a && t != b ==> r[t] == position[t]
  {
    position[a := position[b]][b := position[a]]
  }

  /** Exchanging the same two tiles again puts every tile back. */
  lemma SwapTwiceRestores(position: map<TileId, Position>, a: TileId, b: TileId)
    requires a in position && b in position
    ensures SwapPositions(SwapPositions(position, a, b), a, b) == position
  {
  }

  /** Every tile on a path is a tile of the dictionary, so a bound on the dictionary's tiles bounds it. */
  lemma PathTilesBelow(path: seq<Coord>, coordToTile: map<Coord, TileId>, bound: nat)
    requires forall c :: c in coordToTile ==> coordToTile[c] < bound
    ensures forall t :: t in PathTiles(path, coordToTile) ==> t < bound
  {
  }

  /** The tiles that stand on the cells of `path` (cells without a tile are passed over). */
  function PathTiles(path: seq<Coord>, coordToTile: map<Coord, TileId>): (tiles: set<TileId>)
    ensures forall c :: c in path && c in coordToTile ==> coordToTile[c] in tiles
    ensures forall t :: t in tiles ==> exists c :: c in path && c in coordToTile && coordToTile[c] == t
  {
    if path == [] then {}
    else
      var last := path[|path| - 1];
      assert forall c :: c in path ==> c in path[..|path| - 1] || c == last;
      PathTiles(path[..|path| - 1], coordToTile) + (if last in coordToTile then {coordToTile[last]} else {})
  }
}
