/**
 * The jokers: consumable abilities that act on the board. Each joker class
 * carries the shared `JokerBase` part (its type and remaining count) and its
 * own parameters; `Use` performs the ability and `HandleClick` turns a tile
 * click into requests to the joker manager, which does the consuming.
 * Effects the source runs later (a coroutine after a wait, a tween's
 * completion callback) are separate methods that the caller invokes with
 * what the first step handed back.
 */
module Jokers {
  import opened Board

  datatype JokerType = Switch | ShowPath | ExtraMove | ReplaceTile | FreezeTime

  /** The part every joker shares. */
  class JokerBase {
    var jokerType: JokerType
    var count: int

    constructor (jokerType: JokerType, count: int)
      ensures this.jokerType == jokerType && this.count == count
    {
      this.jokerType := jokerType;
      this.count := count;
    }

    /** A joker can be used while it has uses left. */
    function HasAvailable(): (available: bool)
      reads this
      ensures available <==> count > 0
    {
      count > 0
    }
  }

  // ---------------------------------------------------------------------
  // Switch: two clicks select two tiles, whose positions are then exchanged.

  /** The Switch joker's selection after a click, and what the click asks of the joker manager. */
  datatype ClickResult = ClickResult(firstSelected: Option<Coord>, request: Request)

  /**
   * One click on the Switch joker, given the selection so far, whether the
   * joker manager exists, and the start and end cells.
   */
  function SwitchClick(first: Option<Coord>, clicked: Coord, jokerManager: bool, startOrEnd: set<Coord>): (r: ClickResult)
    // A first click selects the cell, unless the joker manager reports it as start or end.
    ensures first.None? ==> r.request == NoRequest
    ensures first.None? ==> r.firstSelected == if jokerManager && clicked in startOrEnd then None else Some(clicked)
    // A second click always clears the selection.
    ensures first.Some? ==> r.firstSelected == None
    // It asks for a use of exactly the two selected cells when neither is guarded ...
    ensures r.request.UseJoker? <==> first.Some? && jokerManager && first.value !in startOrEnd && clicked !in startOrEnd
    ensures r.request.UseJoker? ==> r.request == UseJoker(first.value, clicked)
    // ... and deselects the joker when one of them is.
    ensures r.request == DeselectJoker <==> first.Some? && jokerManager && (first.value in startOrEnd || clicked in startOrEnd)
  {
    match first
    case None =>
      if jokerManager && clicked in startOrEnd then ClickResult(None, NoRequest)
      else ClickResult(Some(clicked), NoRequest)
    case Some(f) =>
      if jokerManager && (f in startOrEnd || clicked in startOrEnd) then ClickResult(None, DeselectJoker)
      else if jokerManager then ClickResult(None, UseJoker(f, clicked))
      else ClickResult(None, NoRequest)
  }

  /** The selection and the requests (one per click) after a run of clicks. */
  datatype Trace = Trace(firstSelected: Option<Coord>, requests: seq<Request>)

  function RunClicks(first: Option<Coord>, clicks: seq<Coord>, jokerManager: bool, startOrEnd: set<Coord>): (r: Trace)
    ensures |r.requests| == |clicks|
    decreases |clicks|
  {
    if clicks == [] then Trace(first, [])
    else
      var step := SwitchClick(first, clicks[0], jokerManager, startOrEnd);
      var rest := RunClicks(step.firstSelected, clicks[1..], jokerManager, startOrEnd);
      Trace(rest.firstSelected, [step.request] + rest.requests)
  }

  /**
   * A use request always pairs the last two clicks: the click that made it,
   * and the click before it (or, for the first click of the run, the
   * selection the run started with).
   */
  lemma {:induction false} RequestsPairLastTwoClicks(first: Option<Coord>, clicks: seq<Coord>, jokerManager: bool, startOrEnd: set<Coord>)
    ensures forall i :: 0 <= i < |clicks| && RunClicks(first, clicks, jokerManager, startOrEnd).requests[i].UseJoker? ==>
      RunClicks(first, clicks, jokerManager, startOrEnd).requests[i] ==
        UseJoker(if i == 0 then first.value else clicks[i - 1], clicks[i])
    decreases |clicks|
  {
    if clicks != [] {
      var step := SwitchClick(first, clicks[0], jokerManager, startOrEnd);
      RequestsPairLastTwoClicks(step.firstSelected, clicks[1..], jokerManager, startOrEnd);
      var r := RunClicks(first, clicks, jokerManager, startOrEnd);
      var rest := RunClicks(step.firstSelected, clicks[1..], jokerManager, startOrEnd);
      forall i | 0 <= i < |clicks| && r.requests[i].UseJoker?
        ensures r.requests[i] == UseJoker(if i == 0 then first.value else clicks[i - 1], clicks[i])
      {
        if i > 0 {
          assert r.requests[i] == rest.requests[i - 1];
          if i == 1 {
            // the selection after the first click is that click itself
            assert step.firstSelected == Some(clicks[0]);
          } else {
            assert clicks[1..][i - 2] == clicks[i - 1];
          }
        }
      }
    }
  }

  /**
   * With the joker manager present, no run of clicks ever asks to use the
   * Switch joker on a start or end cell, and a selection that starts off
   * such cells stays off them.
   */
  lemma {:induction false} ClicksNeverUseStartOrEnd(first: Option<Coord>, clicks: seq<Coord>, startOrEnd: set<Coord>)
    requires first.Some? ==> first.value !in startOrEnd
    ensures forall i :: 0 <= i < |clicks| && RunClicks(first, clicks, true, startOrEnd).requests[i].UseJoker? ==>
      && RunClicks(first, clicks, true, startOrEnd).requests[i].selected !in startOrEnd
      && RunClicks(first, clicks, true, startOrEnd).requests[i].target !in startOrEnd
    ensures RunClicks(first, clicks, true, startOrEnd).firstSelected.Some? ==>
      RunClicks(first, clicks, true, startOrEnd).firstSelected.value !in startOrEnd
    decreases |clicks|
  {
    if clicks != [] {
      var step := SwitchClick(first, clicks[0], true, startOrEnd);
      ClicksNeverUseStartOrEnd(step.firstSelected, clicks[1..], startOrEnd);
      var r := RunClicks(first, clicks, true, startOrEnd);
      var rest := RunClicks(step.firstSelected, clicks[1..], true, startOrEnd);
      forall i | 0 <= i < |clicks| && r.requests[i].UseJoker?
        ensures r.requests[i].selected !in startOrEnd && r.requests[i].target !in startOrEnd
      {
        if i > 0 {
          assert r.requests[i] == rest.requests[i - 1];
        }
      }
    }
  }

  /**
   * `Use`'s early return: the target is the `default` coordinate, or the
   * joker manager reports one of the two cells as start or end.
   */
  predicate SwitchRefuses(w: World, selected: Coord, target: Coord)
    reads w
  {
    target == Default || w.GuardsStartOrEnd(selected) || w.GuardsStartOrEnd(target)
  }

  class SwitchJoker {
    const base: JokerBase
    var firstSelected: Option<Coord>

    constructor ()
      ensures fresh(base) && base.jokerType == Switch && base.count == 1
      ensures firstSelected == None
    {
      base := new JokerBase(Switch, 1);
      firstSelected := None;
    }

    /** Exchanges the positions of the tiles on `selected` and `target`. */
    method Use(w: World, selected: Coord, target: Coord := Default) returns (status: Status)
      modifies w`position
      ensures SwitchRefuses(w, selected, target) ==> status == Skipped
      ensures !SwitchRefuses(w, selected, target) && !w.pathManager ==> status == Threw(NullReference)
      ensures (!SwitchRefuses(w, selected, target) && w.pathManager &&
               (selected !in w.coordToTile || target !in w.coordToTile)) ==> status == Threw(KeyNotFound)
      ensures (!SwitchRefuses(w, selected, target) && w.pathManager &&
               selected in w.coordToTile && target in w.coordToTile &&
               (w.coordToTile[selected] !in old(w.position) || w.coordToTile[target] !in old(w.position))) ==>
        status == Threw(MissingReference)
      ensures status == Applied <==>
        && !SwitchRefuses(w, selected, target) && w.pathManager
        && selected in w.coordToTile && target in w.coordToTile
        && w.coordToTile[selected] in old(w.position) && w.coordToTile[target] in old(w.position)
      ensures status == Applied ==>
        w.position == SwapPositions(old(w.position), w.coordToTile[selected], w.coordToTile[target])
      ensures status != Applied ==> w.position == old(w.position)
      ensures old(w.Valid()) ==> w.Valid()
    {
      if target == Default {
        return Skipped;
      }
      if w.jokerManager && (selected in w.startOrEnd || target in w.startOrEnd) {
        return Skipped;
      }
      if !w.pathManager {
        return Threw(NullReference);
      }
      if selected !in w.coordToTile || target !in w.coordToTile {
        return Threw(KeyNotFound);
      }
      var firstTile := w.coordToTile[selected];
      var secondTile := w.coordToTile[target];
      if firstTile !in w.position || secondTile !in w.position {
        return Threw(MissingReference);
      }
      var tempPos := w.position[firstTile];
      w.position := w.position[firstTile := w.position[secondTile]];
      w.position := w.position[secondTile := tempPos];
      status := Applied;
    }

    /** Advances or resets the two-click selection. */
    method HandleClick(w: World, clicked: Coord) returns (request: Request)
      modifies this`firstSelected
      ensures ClickResult(firstSelected, request) ==
        SwitchClick(old(firstSelected), clicked, w.jokerManager, w.startOrEnd)
    {
      if firstSelected.None? {
        if w.jokerManager && clicked in w.startOrEnd {
          return NoRequest;
        }
        firstSelected := Some(clicked);
        request := NoRequest;
      } else {
        var first := firstSelected.value;
        var second := clicked;
        if w.jokerManager && (first in w.startOrEnd || second in w.startOrEnd) {
          firstSelected := None;
          return DeselectJoker;
        }
        firstSelected := None;
        request := if w.jokerManager then UseJoker(first, second) else NoRequest;
      }
    }
  }

  /**
   * The `default` sentinel swallows a real cell: clicking a cell and then
   * the cell (0, 0), neither of them start or end, makes the Switch joker
   * ask for a use that `Use` then refuses.
   */
  lemma SentinelSwallowsOrigin(w: World, a: Coord)
    requires w.jokerManager && a !in w.startOrEnd && Default !in w.startOrEnd
    ensures SwitchClick(Some(a), Default, w.jokerManager, w.startOrEnd).request == UseJoker(a, Default)
    ensures SwitchRefuses(w, a, Default)
  {
  }

  // ---------------------------------------------------------------------
  // ShowPath: highlight the tiles of the path from start to end, and clear them later.

  /**
   * The path to reveal: the path manager's `finalPath` when the start-to-end
   * path is valid and `finalPath` has cells, otherwise the traversable path
   * (`None` stands for a null list).
   */
  function ChoosePath(isValidPath: bool, finalPath: Option<seq<Coord>>, traversable: Option<seq<Coord>>): (path: Option<seq<Coord>>)
    ensures isValidPath && finalPath.Some? && |finalPath.value| > 0 ==> path == finalPath
    ensures !(isValidPath && finalPath.Some? && |finalPath.value| > 0) ==> path == traversable
  {
    if isValidPath && finalPath.Some? && |finalPath.value| > 0 then finalPath else traversable
  }

  /**
   * What the reveal step clears does not depend on who highlighted it: when
   * two reveals share a cell, the first reveal to fire clears that cell's
   * tile while the second is still pending.
   */
  lemma OverlappingRevealClearsShared(highlighted: set<TileId>, p1: seq<Coord>, p2: seq<Coord>, coordToTile: map<Coord, TileId>, c: Coord)
    requires c in p1 && c in p2 && c in coordToTile
    ensures coordToTile[c] in highlighted + PathTiles(p1, coordToTile) + PathTiles(p2, coordToTile)
    ensures coordToTile[c] !in highlighted + PathTiles(p1, coordToTile) + PathTiles(p2, coordToTile) - PathTiles(p1, coordToTile)
  {
  }

  class ShowPathJoker {
    const base: JokerBase

    constructor ()
      ensures fresh(base) && base.jokerType == ShowPath && base.count == 1
    {
      base := new JokerBase(ShowPath, 1);
    }

    /**
     * Highlights the tiles of the chosen path. `isValidPath`, `finalPath`
     * and `traversable` are the path manager's answers for the map's start
     * and end. The path comes back in `scheduled` when the reveal step has been
     * scheduled, which needs the joker manager.
     */
    method Use(w: World, isValidPath: bool, finalPath: Option<seq<Coord>>, traversable: Option<seq<Coord>>)
      returns (status: Status, scheduled: Option<seq<Coord>>)
      modifies w`highlighted
      ensures !(w.pathManager && w.mapManager) ==> status == Skipped
      ensures status == Applied <==>
        w.pathManager && w.mapManager && ChoosePath(isValidPath, finalPath, traversable).Some?
        && ChoosePath(isValidPath, finalPath, traversable).value != []
      ensures status != Applied ==> status == Skipped && scheduled == None && w.highlighted == old(w.highlighted)
      ensures status == Applied ==>
        (var path := ChoosePath(isValidPath, finalPath, traversable).value;
         w.highlighted == old(w.highlighted) + PathTiles(path, w.coordToTile) &&
         scheduled == if w.jokerManager then Some(path) else None)
      ensures old(w.Valid()) ==> w.Valid()
    {
      if !(w.pathManager && w.mapManager) {
        return Skipped, None;
      }
      var chosen: Option<seq<Coord>>;
      if isValidPath && finalPath.Some? && |finalPath.value| > 0 {
        chosen := finalPath;
      } else {
        chosen := traversable;
      }
      if chosen.None? || |chosen.value| == 0 {
        return Skipped, None;
      }
      var path := chosen.value;
      var i := 0;
      while i < |path|
        invariant 0 <= i <= |path|
        invariant w.highlighted == old(w.highlighted) + PathTiles(path[..i], w.coordToTile)
      {
        assert path[..i + 1][..i] == path[..i];
        var coord := path[i];
        if coord in w.coordToTile {
          w.highlighted := w.highlighted + {w.coordToTile[coord]};
        }
        i := i + 1;
      }
      assert path[..i] == path;
      if old(w.Valid()) {
        PathTilesBelow(path, w.coordToTile, w.nextId);
      }
      status := Applied;
      scheduled := if w.jokerManager then Some(path) else None;
    }

    /** The reveal that fires after the wait: clears the highlight of the tiles now on `path`. */
    method RevealFire(w: World, path: seq<Coord>) returns (status: Status)
      modifies w`highlighted
      ensures !w.pathManager ==> status == Skipped && w.highlighted == old(w.highlighted)
      ensures w.pathManager ==> status == Applied && w.highlighted == old(w.highlighted) - PathTiles(path, w.coordToTile)
      ensures old(w.Valid()) ==> w.Valid()
    {
      if !w.pathManager {
        return Skipped;
      }
      var i := 0;
      while i < |path|
        invariant 0 <= i <= |path|
        invariant w.highlighted == old(w.highlighted) - PathTiles(path[..i], w.coordToTile)
      {
        assert path[..i + 1][..i] == path[..i];
        var coord := path[i];
        if coord in w.coordToTile {
          w.highlighted := w.highlighted - {w.coordToTile[coord]};
        }
        i := i + 1;
      }
      assert path[..i] == path;
      status := Applied;
    }

    /** A click on any tile asks the joker manager to use the joker with no target. */
    method HandleClick(w: World, clicked: Coord) returns (request: Request)
      ensures request == if w.jokerManager then UseJoker(Default, Default) else NoRequest
    {
      request := if w.jokerManager then UseJoker(Default, Default) else NoRequest;
    }
  }

  // ---------------------------------------------------------------------
  // ExtraMove: add moves to the game manager's budget.

  class ExtraMoveJoker {
    const base: JokerBase
    var extraMoves: int

    constructor (extra: int := 1)
      ensures fresh(base) && base.jokerType == ExtraMove && base.count == 1
      ensures extraMoves == extra
    {
      base := new JokerBase(ExtraMove, 1);
      extraMoves := extra;
    }

    method Use(w: World) returns (status: Status)
      modifies w`moves
      ensures w.gameManager ==> status == Applied && w.moves == old(w.moves) + extraMoves
      ensures !w.gameManager ==> status == Skipped && w.moves == old(w.moves)
    {
      if !w.gameManager {
        return Skipped;
      }
      w.moves := w.moves + extraMoves;
      status := Applied;
    }

    /** A click on any tile asks the joker manager to use the joker with no target. */
    method HandleClick(w: World, clicked: Coord) returns (request: Request)
      ensures request == if w.jokerManager then UseJoker(Default, Default) else NoRequest
    {
      request := if w.jokerManager then UseJoker(Default, Default) else NoRequest;
    }
  }

  // ---------------------------------------------------------------------
  // ReplaceTile: shrink a tile away and put a fresh tile from the prefab in its place.

  /** What `Use` captures for the tween's completion callback. */
  datatype Replacement = Replacement(coord: Coord, oldTile: TileId, pos: Position)

  /** The replacement prefab: null, or a game object that may carry a `PathController`. */
  datatype Prefab = NullPrefab | Prefab(hasController: bool)

  class ReplaceTileJoker {
    const base: JokerBase
    var replacementPrefab: Prefab

    constructor (prefab: Prefab)
      ensures fresh(base) && base.jokerType == ReplaceTile && base.count == 1
      ensures replacementPrefab == prefab
    {
      base := new JokerBase(ReplaceTile, 1);
      replacementPrefab := prefab;
    }

    /**
     * Checks the target and starts the shrink-out; nothing on the board
     * changes yet. The tile and its position are handed back in `pending`
     * for `ReplaceComplete`.
     */
    method Use(w: World, selected: Coord, target: Coord := Default) returns (status: Status, pending: Option<Replacement>)
      ensures !w.mapManager ==> status == Threw(NullReference)
      ensures w.mapManager && selected !in w.gridTilePositions ==> status == Skipped
      ensures w.mapManager && selected in w.gridTilePositions && w.GuardsStartOrEnd(selected) ==> status == Skipped
      ensures w.mapManager && selected in w.gridTilePositions && !w.GuardsStartOrEnd(selected) ==>
        && (!w.pathManager ==> status == Threw(NullReference))
        && (w.pathManager && selected !in w.coordToTile ==> status == Skipped)
        && (w.pathManager && selected in w.coordToTile && w.coordToTile[selected] !in w.position ==>
              status == Threw(MissingReference))
      ensures status == Applied <==>
        && w.mapManager && selected in w.gridTilePositions && !w.GuardsStartOrEnd(selected)
        && w.pathManager && selected in w.coordToTile && w.coordToTile[selected] in w.position
      ensures status == Applied ==>
        pending == Some(Replacement(selected, w.coordToTile[selected], w.position[w.coordToTile[selected]]))
      ensures status != Applied ==> pending == None
    {
      pending := None;
      if !w.mapManager {
        return Threw(NullReference), None;
      }
      if selected !in w.gridTilePositions {
        return Skipped, None;
      }
      if w.jokerManager && selected in w.startOrEnd {
        return Skipped, None;
      }
      if !w.pathManager {
        return Threw(NullReference), None;
      }
      if selected !in w.coordToTile {
        return Skipped, None;
      }
      var oldTile := w.coordToTile[selected];
      if oldTile !in w.position {
        return Threw(MissingReference), None;
      }
      status := Applied;
      pending := Some(Replacement(selected, oldTile, w.position[oldTile]));
    }

    /**
     * The tween's completion: destroys the old tile, instantiates the prefab
     * where it stood and, when the prefab is a tile, points the cell at it.
     */
    method ReplaceComplete(w: World, p: Replacement) returns (status: Status, newTile: Option<TileId>)
      requires w.Valid()
      modifies w`position, w`coordToTile, w`nextId
      ensures w.Valid()
      // an old tile that an earlier completion destroyed raises before anything is done
      ensures p.oldTile !in old(w.position) ==>
        && status == Threw(MissingReference) && newTile == None
        && w.position == old(w.position) && w.coordToTile == old(w.coordToTile)
      // otherwise the old tile is destroyed, and a new tile appears exactly when the prefab carries a controller
      ensures newTile.Some? <==> p.oldTile in old(w.position) && replacementPrefab == Prefab(true)
      ensures newTile.Some? ==> newTile.value !in old(w.position) && newTile.value !in old(w.coordToTile).Values
      ensures newTile.Some? ==> newTile.value !in w.highlighted
      ensures p.oldTile in old(w.position) ==>
        w.position == if newTile.Some? then (old(w.position) - {p.oldTile})[newTile.value := p.pos]
                      else old(w.position) - {p.oldTile}
      // `Instantiate` raises on a null prefab, after the destroy
      ensures p.oldTile in old(w.position) && replacementPrefab == NullPrefab ==>
        status == Threw(NullArgument) && w.coordToTile == old(w.coordToTile)
      ensures p.oldTile in old(w.position) && replacementPrefab == Prefab(false) ==>
        status == Applied && w.coordToTile == old(w.coordToTile)
      ensures newTile.Some? && !w.pathManager ==> status == Threw(NullReference) && w.coordToTile == old(w.coordToTile)
      ensures newTile.Some? && w.pathManager ==>
        && status == Applied
        && p.coord in w.coordToTile && w.coordToTile[p.coord] == newTile.value
        && (forall c :: c != p.coord ==> (c in w.coordToTile <==> c in old(w.coordToTile)))
        && (forall c :: c in old(w.coordToTile) && c != p.coord ==> w.coordToTile[c] == old(w.coordToTile)[c])
    {
      if p.oldTile !in w.position {
        return Threw(MissingReference), None;
      }
      w.position := w.position - {p.oldTile};
      if replacementPrefab.NullPrefab? {
        return Threw(NullArgument), None;
      }
      if !replacementPrefab.hasController {
        return Applied, None;
      }
      var t := w.nextId;
      w.nextId := w.nextId + 1;
      w.position := w.position[t := p.pos];
      newTile := Some(t);
      if !w.pathManager {
        return Threw(NullReference), newTile;
      }
      w.coordToTile := w.coordToTile[p.coord := t];
      status := Applied;
    }

    /** A click asks the joker manager to use the joker on the clicked cell. */
    method HandleClick(w: World, clicked: Coord) returns (request: Request)
      ensures request == if w.jokerManager then UseJoker(clicked, Default) else NoRequest
    {
      request := if w.jokerManager then UseJoker(clicked, Default) else NoRequest;
    }
  }

  // ---------------------------------------------------------------------
  // FreezeTime: pause the game timer and resume it later if it had time left.

  /** `Use`'s guard: a target that is not the `default` coordinate and that the joker manager reports as start or end. */
  predicate FreezeRefuses(w: World, selected: Coord)
    reads w
  {
    selected != Default && w.GuardsStartOrEnd(selected)
  }

  class FreezeTimeJoker {
    const base: JokerBase

    constructor ()
      ensures fresh(base) && base.jokerType == FreezeTime && base.count == 1
    {
      base := new JokerBase(FreezeTime, 1);
    }

    /**
     * Pauses the timer. `wasRunning` carries, for `FreezeEnd`, whether the
     * timer had time left when it was paused.
     */
    method Use(w: World, selected: Coord, target: Coord := Default) returns (status: Status, wasRunning: Option<bool>)
      modifies w`timerPaused
      ensures status == Applied <==>
        !FreezeRefuses(w, selected) && w.jokerManager && w.gameManager && w.gameTimer
      ensures status != Applied ==> status == Skipped && wasRunning == None && w.timerPaused == old(w.timerPaused)
      ensures status == Applied ==> wasRunning == Some(w.timerRemainingPositive) && w.timerPaused
    {
      if w.jokerManager && selected != Default && selected in w.startOrEnd {
        return Skipped, None;
      }
      if !w.jokerManager {
        return Skipped, None;
      }
      if !(w.gameManager && w.gameTimer) {
        return Skipped, None;
      }
      wasRunning := Some(w.timerRemainingPositive);
      w.timerPaused := true;
      status := Applied;
    }

    /**
     * The end of the freeze: resumes the timer only if it had time left when
     * `Use` paused it, even if it was already paused then.
     */
    method FreezeEnd(w: World, wasRunning: bool)
      modifies w`timerPaused
      ensures w.timerPaused == if wasRunning then false else old(w.timerPaused)
    {
      if wasRunning {
        w.timerPaused := false;
      }
    }

    /** A click on a start or end cell is refused; any other asks for a use on that cell. */
    method HandleClick(w: World, clicked: Coord) returns (request: Request)
      ensures w.GuardsStartOrEnd(clicked) ==> request == NoRequest
      ensures !w.GuardsStartOrEnd(clicked) ==> request == if w.jokerManager then UseJoker(clicked, Default) else NoRequest
    {
      if w.jokerManager && clicked in w.startOrEnd {
        return NoRequest;
      }
      request := if w.jokerManager then UseJoker(clicked, Default) else NoRequest;
    }
  }

  /**
   * Two freezes that overlap: the first to end resumes the timer while the
   * second is still pending, because `wasRunning` records only whether time
   * was left, not whether the timer was already paused.
   */
  method OverlappingFreezesResumeEarly(first: FreezeTimeJoker, second: FreezeTimeJoker, w: World)
    requires w.jokerManager && w.gameManager && w.gameTimer && w.timerRemainingPositive
    modifies w`timerPaused
    ensures !w.timerPaused
  {
    var s1, r1 := first.Use(w, Default);
    var s2, r2 := second.Use(w, Default);
    assert w.timerPaused && r2 == Some(true);
    first.FreezeEnd(w, r1.value);
  }

  /**
   * `Use` guards its target only when it is not the `default` coordinate: a
   * start or end cell at (0, 0), which `HandleClick` refuses, passes `Use`'s
   * guard, while every other start or end cell is refused by it.
   */
  lemma FreezeSentinelLetsOriginThrough(w: World, c: Coord)
    requires w.jokerManager && Default in w.startOrEnd
    ensures w.GuardsStartOrEnd(Default) && !FreezeRefuses(w, Default)
    ensures c != Default && c in w.startOrEnd ==> FreezeRefuses(w, c)
  {
  }
}
