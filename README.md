# Joker abilities of a tile-path puzzle game, in Dafny

This project models the joker subsystem of a Unity tile-path puzzle game. A joker is a consumable ability. The player arms it and then clicks tiles. The joker either acts on the board or asks the joker manager to use it. There are five kinds:

- **Switch** takes two clicks and exchanges the world positions of the two tiles.
- **ShowPath** highlights the tiles on the start-to-end path and clears them again after a wait.
- **ExtraMove** adds moves to the game manager's budget.
- **ReplaceTile** shrinks a tile away and puts a fresh tile from a prefab in its place.
- **FreezeTime** pauses the game timer and later resumes it, but only if the timer had time left when it was paused, even if it was already paused.

The project has two files.

- `board.dfy` (module `Board`) holds the shared state in one class, `World`:
  - which singleton managers exist, as flags: joker, path, map and game manager, plus the game timer component;
  - the path manager's coordinate-to-tile dictionary;
  - the live tiles' positions;
  - the start and end cells;
  - the map manager's grid cells;
  - the set of highlighted tiles;
  - the move budget;
  - the timer's "has time left" and "paused" flags.

  It also defines the `Coord` type and its `default` value (0, 0), plus two functions: `SwapPositions` (exchange two tiles' positions) and `PathTiles` (the tiles standing on a path).
- `jokers.dfy` (module `Jokers`) holds `JokerBase`, which has the type, the count and `HasAvailable`, and one class per joker. Every joker class keeps its `JokerBase` part as a field. Traits are not used, so inheritance becomes composition.

Each `Use` and `HandleClick` method mirrors its C# counterpart branch by branch.

- **Early returns** become `Status.Skipped`.
- **Exceptions the code can raise** become `Status.Threw(fault)`. The code can raise when a null manager is dereferenced, when the dictionary indexer meets a missing key, when a destroyed tile is used, or when `Instantiate` is given a null prefab. In `Use` and `HandleClick` the code always raises before it writes anything, so the state stays unchanged. The exception is the completion step of ReplaceTile:
  - an old tile that an earlier completion already destroyed raises before anything is done;
  - a null prefab raises after the old tile has been destroyed;
  - a missing path manager raises after the new tile exists, so the old tile is gone and the new one is live but the cell is not repointed to it.
- **Requests to the joker manager** are returned as `Request` values: `UseJoker(selected, target)`, `DeselectJoker` or `NoRequest`. Nothing is decremented, because consumption is the joker manager's job.
- **Coroutines and tween callbacks** become explicit later methods, so no timing is modelled:
  - `ShowPathJoker.RevealFire(path)` is what `RevealCoroutine` does after its wait;
  - `ReplaceTileJoker.ReplaceComplete(pending)` is the tween's `OnComplete` closure, given what `Use` captured;
  - `FreezeTimeJoker.FreezeEnd(wasRunning)` is the rest of `FreezeCoroutine` after its wait.
- **The path manager's answers** enter `ShowPathJoker.Use` as parameters: `IsValidPath`, `finalPath` and `GetTraversablePathFromStart` for the map's start and end.

The Switch joker's selection machine is also written as a pure step function, `SwitchClick`. `RunClicks` folds it over a sequence of clicks. Lemmas proved by induction over that sequence say two things: a use request always pairs the last two clicks, and with the joker manager present no start or end cell ever reaches a use request.

Some behaviours of the code are easy to misread. The model follows the code in each of them:

- **No lock.** The code takes no per-cell lock while a tile replacement is in flight, and has no "target busy" error. None is modelled, so a second `Use` on the same cell before the first completion is accepted.
- **No ownership of highlighted cells.** A reveal does not remember which tiles its own activation highlighted. `RevealCoroutine` clears every tile that stands on its path when it fires, whoever highlighted it. `OverlappingRevealClearsShared` states this.
- **The sentinel is kept.** The code reads (0, 0), `default(Vector2Int)`, as "no target", even though (0, 0) is a real cell. It does so at `Scripts/JokerSystem/JokerBase.cs:32` and `:282`, and the model keeps it in both places:
  - `SentinelSwallowsOrigin`: a Switch request whose second cell is (0, 0) is refused by `Use`;
  - `FreezeSentinelLetsOriginThrough`: a start or end cell at (0, 0) passes the freeze guard.
- **No residency check in Switch.** Switch indexes the dictionary without checking that the cell has a tile, so a cell without one raises. This is modelled as `Threw(KeyNotFound)`.
- **The id supply is an assumption about the scene.** `World.Valid()` says every tile id that is live, in the dictionary or highlighted is below `nextId`, the next id `Instantiate` hands out. A caller's scene is assumed to satisfy it. `SwitchJoker.Use`, `ShowPathJoker.Use`, `ShowPathJoker.RevealFire` and `ReplaceTileJoker.ReplaceComplete` keep it, so a tile that `ReplaceComplete` creates starts without a highlight.
- **Highlights belong to tiles.** The highlight flag sits on the tile object (`SetHighlight`/`ClearHighlight` on the `PathController`). So `highlighted` is a set of tile identities, and `PathTiles` maps a path's cells to the tiles on them.

## Model

| member | source | states |
|---|---|---|
| `Jokers.JokerBase.HasAvailable` | Scripts/JokerSystem/JokerBase.cs:19 | a joker is available exactly when its count is positive |
| `Jokers.JokerBase.constructor` | Scripts/JokerSystem/JokerBase.cs:12-17 | the joker starts with the given type and count |
| `Board.SwapPositions` | Scripts/JokerSystem/JokerBase.cs:45-47 | the two tiles exchange positions; every other tile keeps its position; the set of tiles is unchanged |
| `Board.SwapTwiceRestores` | Scripts/JokerSystem/JokerBase.cs:45-47 | exchanging the same two tiles twice restores every position (the swap is its own inverse) |
| `Board.PathTiles` | Scripts/JokerSystem/JokerBase.cs:123-129 | the tile of every path cell that has one is included, and every tile included stands on some path cell |
| `Jokers.SwitchClick` | Scripts/JokerSystem/JokerBase.cs:52-85 | a first click selects the cell unless the manager reports it as start or end, and requests nothing; a second click always clears the selection; it requests `UseJoker(first, second)` exactly when the manager exists and neither cell is start or end, and deselects exactly when the manager exists and one of them is |
| `Jokers.RunClicks` | Scripts/JokerSystem/JokerBase.cs:52-85 | a run of clicks yields exactly one request slot per click |
| `Jokers.RequestsPairLastTwoClicks` | Scripts/JokerSystem/JokerBase.cs:63-83 | in any run of clicks, every use request names the click before it (or the selection the run started with) and the click that made it |
| `Jokers.ClicksNeverUseStartOrEnd` | Scripts/JokerSystem/JokerBase.cs:56-83 | with the joker manager present, no run of clicks requests a use on a start or end cell, and a selection off those cells stays off them |
| `Jokers.SwitchJoker.constructor` | Scripts/JokerSystem/JokerBase.cs:27-28 | a Switch joker with count 1 and no first selection |
| `Jokers.SwitchJoker.Use` | Scripts/JokerSystem/JokerBase.cs:30-50 | nothing changes for the `default` target, or for a start or end cell when the joker manager exists; it raises with no change on a missing path manager (`NullReference`), a missing key (`KeyNotFound`) or a destroyed tile (`MissingReference`); otherwise the two tiles' positions are exchanged and nothing else changes (only `position` may be written; the coordinate-to-tile dictionary stays as it was) |
| `Jokers.SwitchJoker.HandleClick` | Scripts/JokerSystem/JokerBase.cs:52-85 | the new selection and the request are those of `SwitchClick` on the old selection |
| `Jokers.SentinelSwallowsOrigin` | Scripts/JokerSystem/JokerBase.cs:30-83 | a select-then-click on the real cell (0, 0) requests a use that `Use` refuses as "no target" |
| `Jokers.ChoosePath` | Scripts/JokerSystem/JokerBase.cs:109-114 | the path is `finalPath` when the path is valid and `finalPath` is non-empty, otherwise the traversable path |
| `Jokers.ShowPathJoker.constructor` | Scripts/JokerSystem/JokerBase.cs:94-97 | a ShowPath joker with count 1 |
| `Jokers.ShowPathJoker.Use` | Scripts/JokerSystem/JokerBase.cs:99-136 | with a path or map manager missing, or with a null or empty chosen path, nothing changes and nothing is scheduled; otherwise the highlighted set grows by exactly the tiles on the chosen path, and that path is scheduled for the reveal step when the joker manager exists; `World.Valid()` is kept |
| `Jokers.ShowPathJoker.RevealFire` | Scripts/JokerSystem/JokerBase.cs:144-158 | without the path manager nothing changes; otherwise exactly the tiles now on the path lose their highlight and no other tile does; `World.Valid()` is kept |
| `Jokers.OverlappingRevealClearsShared` | Scripts/JokerSystem/JokerBase.cs:151-157 | when two reveals share a cell, the first to fire clears that cell's tile even though the second reveal is still pending |
| `Jokers.ShowPathJoker.HandleClick` | Scripts/JokerSystem/JokerBase.cs:138-142 | any click requests a use with no target when the joker manager exists, and nothing otherwise |
| `Jokers.ExtraMoveJoker.constructor` | Scripts/JokerSystem/JokerBase.cs:165-168 | an ExtraMove joker with count 1 and the given number of extra moves, 1 by default |
| `Jokers.ExtraMoveJoker.Use` | Scripts/JokerSystem/JokerBase.cs:170-183 | with the game manager, the move budget grows by exactly `extraMoves`; without it, nothing changes |
| `Jokers.ExtraMoveJoker.HandleClick` | Scripts/JokerSystem/JokerBase.cs:185-189 | any click requests a use with no target when the joker manager exists, and nothing otherwise |
| `Jokers.ReplaceTileJoker.constructor` | Scripts/JokerSystem/JokerBase.cs:213-217 | a ReplaceTile joker with count 1 and the given prefab (null, or a game object with or without a `PathController`) |
| `Jokers.ReplaceTileJoker.Use` | Scripts/JokerSystem/JokerBase.cs:219-238 | it changes nothing on the board; it refuses a cell off the grid, a start or end cell, or a cell with no tile; it raises on a missing map or path manager (`NullReference`) or a destroyed tile (`MissingReference`); otherwise it hands back the cell, its tile and that tile's position for the completion step |
| `Jokers.ReplaceTileJoker.ReplaceComplete` | Scripts/JokerSystem/JokerBase.cs:240-258 | an old tile already destroyed raises with nothing changed; otherwise the old tile is gone; a null prefab then raises with the dictionary unchanged; a prefab without a controller leaves the dictionary unchanged; a prefab with one yields a fresh, unhighlighted tile at the old position, and the selected cell points to it (every other entry unchanged) unless the path manager is missing, which raises with the dictionary unchanged |
| `Jokers.ReplaceTileJoker.HandleClick` | Scripts/JokerSystem/JokerBase.cs:263-267 | a click requests a use on the clicked cell when the joker manager exists |
| `Jokers.FreezeTimeJoker.constructor` | Scripts/JokerSystem/JokerBase.cs:274-277 | a FreezeTime joker with count 1 |
| `Jokers.FreezeTimeJoker.Use` | Scripts/JokerSystem/JokerBase.cs:279-301 | nothing happens for a target `FreezeRefuses` (a non-default start or end cell), without the joker manager, or without a timer; otherwise the timer is paused and whether it had time left is recorded |
| `Jokers.FreezeTimeJoker.FreezeEnd` | Scripts/JokerSystem/JokerBase.cs:316-325 | the timer is resumed exactly when it had time left when `Use` paused it, even if it was already paused then; otherwise its paused flag is untouched |
| `Jokers.OverlappingFreezesResumeEarly` | Scripts/JokerSystem/JokerBase.cs:316-325 | of two overlapping freezes on a timer with time left, the first to end resumes the timer while the second is still pending |
| `Jokers.FreezeTimeJoker.HandleClick` | Scripts/JokerSystem/JokerBase.cs:303-314 | a click on a start or end cell requests nothing; any other click requests a use on that cell when the joker manager exists |
| `Jokers.FreezeSentinelLetsOriginThrough` | Scripts/JokerSystem/JokerBase.cs:282-313 | a start or end cell at (0, 0), which `HandleClick`'s guard refuses, passes `Use`'s guard `FreezeRefuses`; every other start or end cell is refused by it |

## Left out

- Rendering and animation are left out: `Vector3` arithmetic, DOTween sequences, scales, easing, rotation and parent, and the highlight colour. Positions are opaque values that are only copied, and a new tile is a fresh identity.
- Coroutine timing is left out: `WaitForSecondsRealtime`, `revealDuration` and `freezeDuration` are floating-point delays. Their constructor defaults (5 and 7 seconds) go with them. Deferred steps are explicit method calls made by the caller.
- DOTween killing a tween before it completes is not modelled: a caller that never invokes `ReplaceComplete` stands for it.
- Icons loaded through `Resources.Load` are foreign asset handles and are left out.
- `Debug.Log` has no effect on behaviour and is left out.
- The commented-out ExtraMove joker at lines 191-208 is dead code and is left out.
- `JokerManager` is not part of this model: how `UseJoker` consumes a use, `DeselectJoker` and arming a joker. Requests are returned as values and counts are never decremented.
- The internals of `PathManager`, `MapManager` and `GameTimer` are not part of this model. Pathfinding and `IsValidPath` enter as parameters. Pause and resume are modelled only as the timer's paused flag.
- `ExtraMoveJoker.Use`: the move budget is an unbounded integer. Whether `GameManager.AddMoves` wraps at 32 bits is not visible, because `GameManager` is not part of this model.
- `ShowPathJoker.Use`: `SetHighlight` on a tile that was destroyed earlier is recorded like any other highlight. `PathController` is not part of this model, so whether that call raises is not captured.
- `ShowPathJoker.RevealFire`: a cell can still map to a destroyed tile after a `ReplaceComplete` that raised or used a prefab without a `PathController`. `ClearHighlight` on that tile is recorded as removing its id, and the reveal reports `Applied`. `PathController` is not part of this model, so whether that call raises is not captured. If it does, the tiles later on the path keep their highlight.
- `ReplaceTileJoker.ReplaceComplete`: `PathController.SetCoord` on the new tile and Unity's end-of-frame timing of `Object.Destroy` are not modelled.
- `ReplaceTileJoker.ReplaceComplete`: a replacement prefab without a `PathController` still creates a game object in the scene. It is not a tile, so the board model does not record it.
- `ReplaceTileJoker.ReplaceComplete`: when a raise leaves a tile live but not mapped to any cell, the model records that tile's position and nothing else about it.
