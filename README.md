# Señor Pacbomber level model

A Dafny model of the level/board core of the Rust game *Señor Pacbomber*, with proofs about it:

- **Parsing.** An ASCII map becomes a row-major grid of typed blocks.
- **Queries.** Bounds-checked lookup, the free neighbours of a cell, the cells a bomb blast reaches, and the wall flood fill behind a position.
- **Bookkeeping.** The game systems keep maps from opaque entity ids to positions for enemies, coins and bombs. Around them sit the player and exit cells, the one-way `ending_visible` flag and the `Score`.

The model covers both copies of the level in the repository: the current one in `src/game_plugin` and the older standalone one in `src/main.rs`.

Layout, one module per file:

- `wrappers.dfy` (`Wrappers`): `Option` and `Result`.
- `types.dfy` (`Types`): block kinds and the map legend, `Position`, `BoardDirection`, `apply_direction`, `is_zero`, `Mul<i8>`.
- `grid.dfy` (`Grid`):
  - the grid as a value (`Board`) and `get`;
  - the specification of `free_directions`.
- `parse.dfy` (`Parse`):
  - splitting the text into kept lines;
  - decoding rows through a legend;
  - the last `o` and `e` cells;
  - `ParseLevel`, the specification of construction.
- `blast.dfy` (`Blast`): the specification of `bomb_explode_positions` and its `follow_range` arms.
- `walls.dfy` (`Walls`):
  - the specification of `wall_positions`: the wall component of the cell below a position;
  - the invariants of its depth-first search.
- `level.dfy` (`GameLevel`):
  - the `Level` class, with the loops of `new`, `follow_range`, `free_directions` and the recursive `wall_positions` search;
  - each loop is proved equal to the specification above.
- `logic.dfy` (`Logic`): the `Score` class and the level-state rules of the game systems. These are move acceptance, the one-bomb-per-cell guard, enemy and player updates, coin pickup, detonation, destruction by explosions, the exit reveal and the end of loading.
- `legacy.dfy` (`Legacy`):
  - the older copy: its legend without `e`, its construction without an exit, and its keyboard and `update_level` systems;
  - how its construction relates to the newer one.
- `fixtures.dfy` (`Fixtures`): the map of the wall regression test, what construction does with it, and the 15-cell wall component the test expects.

How the Rust is modelled:

- **Integers.** Rust's `i8` coordinate arithmetic is modelled on unbounded integers. Every `as i8` site carries the precondition that keeps the cast the identity: grid dimensions and coordinates below 127, bomb ranges at most 127.
- **Panics.** A panic in construction (an unknown character, no `o`, no `e`) is a `Failure` result.
- **Engine queries and events.** Queries (the keys pressed, the entities that moved, the explosions on the board) become parameters. Events (player death, entering the exit, showing the exit) become returned flags.

## Model

| member | source | states |
|---|---|---|
| Types.FromChar | src/game_plugin/types.rs:46-61 | a decoded character is the legend symbol of its kind; `None` (the panic) exactly for characters that stand for no kind |
| Types.SymbolRoundTrip | src/game_plugin/types.rs:46-61 | decoding the legend character of every kind gives that kind back, so the eight characters of the legend are distinct |
| Types.WallCharacters | src/game_plugin/types.rs:38-61 | a map character decodes to a wall (`is_wall`) exactly when it is `#`, `-` or `|` |
| Types.MulSpec | src/game_plugin/types.rs:110-135 | `d * k` is zero (`is_zero`) exactly when `d` is zero or `k == 0`, and `d * 1 == d` |
| Types.ApplyDirection | src/game_plugin/types.rs:87-97 | each axis moves by its component unless that would go negative, in which case that axis alone stays put |
| Types.ApplyUnit | src/game_plugin/types.rs:87-97 | a unit step either stays put at the zero edge or reaches the adjacent cell in that direction; there is no upper bound check |
| Grid.Board.Get | src/game_plugin/level.rs:89-98 | `None` exactly for a negative or out-of-size coordinate; otherwise the block at `rows[az][ax]`, labelled `(ax, az)` |
| Grid.FreeAmongAround | src/game_plugin/level.rs:190-200 | after trying the first `n` candidates, the kept directions are exactly the free ones among them, in candidate order |
| Grid.FreeDirectionsSpec | src/game_plugin/level.rs:186-202 | a direction is listed exactly when it is a unit step onto an in-bounds non-wall cell; at most 4, no duplicates, in the order +x, -x, +z, -z |
| Grid.FreeDirectionsMember | src/game_plugin/level.rs:186-202 | membership in `free_directions(p)`, one direction at a time: a unit step onto an open cell |
| Parse.Split | src/game_plugin/level.rs:26 | `split('\n')` gives at least one piece, none holding a newline |
| Parse.JoinSplit | src/game_plugin/level.rs:26 | splitting loses nothing: the pieces joined with newlines give the text back |
| Parse.SplitJoin | src/game_plugin/level.rs:26 | newline-free pieces joined with newlines split back into the same pieces |
| Parse.NonEmpty | src/game_plugin/level.rs:26 | the filter keeps only non-empty pieces, drops no non-empty piece, and never grows the list |
| Parse.NonEmptyConcat | src/game_plugin/level.rs:26 | the filter works piece by piece in order: filtering a concatenation filters each part, and a single piece is kept exactly when it is non-empty, so the result is the in-order subsequence of non-empty pieces with their multiplicities |
| Parse.LinesShape | src/game_plugin/level.rs:26 | every kept line is non-empty and newline-free |
| Parse.LinesOfJoin | src/game_plugin/level.rs:26 | non-empty newline-free lines joined into a text are exactly the lines construction reads back |
| Parse.DecodeRowSuccess | src/game_plugin/level.rs:42-63 | a line decodes exactly when the legend knows every character; the `x`-th block is that character's kind at `(x, z)` |
| Parse.DecodeRowFailure | src/game_plugin/level.rs:42-63 | a failing line fails at its first unknown character, in left-to-right order |
| Parse.DecodeRowsSuccess | src/game_plugin/level.rs:37-66 | the map decodes exactly when every line does, one row per line in order |
| Parse.DecodeRowsFailure | src/game_plugin/level.rs:37-66 | a failing map fails with the error of its first failing line |
| Parse.LastOfSpec | src/game_plugin/level.rs:50-56 | the tracker after a row is the last block of the kind in that row, `None` when there is none |
| Parse.LastInSpec | src/game_plugin/level.rs:50-56 | the tracker after all rows is the last block of the kind in row-major order, `None` when there is none |
| Parse.DecodedCells | src/game_plugin/level.rs:37-66 | a decoded map has one row per line, one block per character, and the block at row `z`, column `x` is that character's kind at `(x, z)` |
| Parse.ParseUnknown | src/game_plugin/level.rs:42 | decoding succeeds exactly when every character is known; otherwise the panic names the first unknown character in row-major order |
| Parse.LastInDecoded | src/game_plugin/level.rs:50-56 | the tracked cell of a kind is absent exactly when its character is absent, and is the last cell holding that character |
| Parse.ParseLevelOutcome | src/game_plugin/level.rs:37-69 | construction fails on an unknown character, then on a missing `o`, then on a missing `e`, and succeeds otherwise; player and exit are the last `o` and the last `e` |
| Parse.ParseLevelBoard | src/game_plugin/level.rs:26-82 | the board of a built level has `size == (length of the last line, number of lines)` and the decoded character with `level_position == (x, z)` at every cell; a rectangular map gives a valid board |
| Blast.MulUnit | src/game_plugin/level.rs:121-122 | `position + direction * k` stays within `i8` and moves each coordinate by `k` steps along the unit direction |
| Blast.ArmCells | src/game_plugin/level.rs:119-139 | the `i`-th cell of an arm is at `origin + d * (k + i)`, in bounds, not a wall, tagged with step `k + i` and the bomb's range |
| Blast.ArmStop | src/game_plugin/level.rs:119-139 | an arm ends at the first off-grid or wall cell (not included), or right after pushing the step at which the incremented counter equals the range |
| Blast.ArmLength | src/game_plugin/level.rs:130-138 | with `range > k`, an arm from step `k` has at most `range - k` cells |
| Blast.ArmFullReach | src/game_plugin/level.rs:119-139 | where nothing blocks it, an arm from step `k` has exactly `range - k` cells, so from step 1 it stops one short of the range |
| Blast.ArmsSpec | src/game_plugin/level.rs:141-169 | the four arms hold only open cells with step at least 1 and the bomb's range; for `range >= 2`, at most `4 * (range - 1)` cells |
| Blast.ArmIsRun | src/game_plugin/level.rs:119-139 | the cells an arm walk pushes form a run: cell `i` is the open cell `origin + d * (k + i)` tagged with step `k + i` and the range, the counter never passes the range inside the run, and the run stops at a closed cell or when the counter reaches the range |
| Blast.RunUnique | src/game_plugin/level.rs:119-139 | two runs from the same step along the same direction are equal, so the description of a run fixes its cells, their order and its length |
| Blast.RunIsArm | src/game_plugin/level.rs:119-139 | any list of cells that is a run is exactly the arm the walk pushes |
| Blast.BlastOfRuns | src/game_plugin/level.rs:106-172 | a known bomb's blast is the origin at step 0 followed by the runs from step 1 along -x, -z, +x and +z, in that order |
| Blast.BlastSpec | src/game_plugin/level.rs:106-172 | empty exactly for an unknown bomb; otherwise the origin first at step 0 (not wall-checked), every cell tagged with the range, every later cell open, and at most `1 + 4 * (range - 1)` cells when `range >= 2` |
| Walls.Seed | src/game_plugin/level.rs:206-207 | the search starts from the +z neighbour, which `apply_direction` never clamps |
| Walls.ComponentComplete | src/game_plugin/level.rs:219-245 | every cell reached from the seed by 4-neighbour steps through non-`|` walls is in the component |
| Walls.ComponentSound | src/game_plugin/level.rs:219-245 | every cell of the component is reached from the seed by such a wall path |
| Walls.ComponentIsReachable | src/game_plugin/level.rs:205-247 | the component is exactly the set of cells reachable from the seed through non-`|` walls |
| Walls.ComponentUnique | src/game_plugin/level.rs:205-247 | any two components of the same seed hold the same cells and have the same length, whatever the search order |
| GameLevel.StepTarget | src/game_plugin/level.rs:121-122 | the looked-up cell is `position + direction * k` |
| GameLevel.ArmStep | src/game_plugin/level.rs:120-139 | one loop pass either completes the arm (at a wall, at the edge, or when the counter reaches the range) or pushes the open cell and goes on from the next step |
| GameLevel.FollowRange | src/game_plugin/level.rs:112-140 | `follow_range` appends exactly the arm of the specification to `into` |
| GameLevel.SearchStep | src/game_plugin/level.rs:225-243 | one candidate step of the search marks its cell tested and lists and searches it when it is a connecting wall, keeping the list grown and duplicate-free |
| GameLevel.RecursiveSearch | src/game_plugin/level.rs:219-244 | after a call the position and every cell it listed have all their neighbours tested, and the list only grows and stays a grown, duplicate-free wall list |
| GameLevel.Level.Init | src/game_plugin/level.rs:71-82 | a new level has empty enemy, coin and bomb maps, bomb size 5, the exit hidden and loading not done |
| GameLevel.Level.New | src/game_plugin/level.rs:22-83 | construction from a map text fails exactly when `ParseLevel` does, with the same error; otherwise the grid, player and exit are `ParseLevel`'s, with empty maps, bomb size 5 and the exit hidden |
| GameLevel.Level.PlaceBomb | src/game_plugin/level.rs:100-102 | `bombs[e] := (bomb_size, p)`, overwriting any entry for `e`; nothing else changes |
| GameLevel.Level.BombExplodePositions | src/game_plugin/level.rs:106-172 | the result is the blast of the specification |
| GameLevel.Level.FreeDirections | src/game_plugin/level.rs:186-202 | the result is the free directions of the specification |
| GameLevel.Level.WallPositions | src/game_plugin/level.rs:205-247 | empty exactly when the +z neighbour is not an in-bounds wall; otherwise a component of that seed: seed first, no duplicates, every later cell a non-`|` wall next to an earlier one, and closed under connecting neighbours |
| Logic.Score.Default | src/game_plugin/logic.rs:15-19 | the score starts with no coins and no moves |
| Logic.AcceptedUpToOrder | src/game_plugin/logic.rs:444-458 | the moves accepted among the first `n` controls come from those controls, in control order, none twice |
| Logic.AcceptedUpToSpec | src/game_plugin/logic.rs:444-458 | among the first `n` controls, a direction is accepted exactly when its key is pressed and it is free; at most `n` are accepted |
| Logic.AcceptedSpec | src/game_plugin/logic.rs:438-458 | a direction is accepted exactly when its arrow key is pressed and the neighbouring cell that way is in bounds and not a wall; accepted moves come in the order Left, Right, Up, Down with none twice; at most 4 per frame |
| Logic.KeyboardMoves | src/game_plugin/logic.rs:438-459 | while moving, nothing changes; otherwise `score.moves` grows by the number of accepted moves and the heading becomes the last accepted one |
| Logic.HeadingIsFree | src/game_plugin/logic.rs:450-456 | a heading is set exactly when some move is accepted; it is always a free direction, and it is the accepted move latest in control order (the last key tried wins) |
| Logic.BombValuesAt | src/game_plugin/logic.rs:464-468 | the scan finds a bomb exactly when some bomb value sits at the cell |
| Logic.DropBomb | src/game_plugin/logic.rs:460-478 | a bomb is placed exactly when space is pressed and no active bomb sits at the player's cell; it is then the one new entry, else the bombs are unchanged |
| Logic.GuardKeepsOneBombPerCell | src/game_plugin/logic.rs:461-478 | a guarded placement adds exactly one bomb and keeps at most one bomb per cell, and removing a bomb keeps that too |
| Logic.InsertAllSpec | src/game_plugin/logic.rs:553-554 | after the inserts an entity is tracked exactly when it was or some pair names it, at the location of the last pair naming it, else at its old location |
| Logic.PositionAmong | src/game_plugin/logic.rs:562-566 | the collision scan finds the cell exactly when some tracked enemy is on it |
| Logic.MoveEnemies | src/game_plugin/logic.rs:553-558 | every moved enemy's entry becomes its new location; a death exactly when one of them lands on the player's cell |
| Logic.PickupConserves | src/game_plugin/logic.rs:572-582 | every coin is kept in place or picked up, never both; none at the player's cell is kept; kept plus picked equals the coins there were |
| Logic.CollectCoins | src/game_plugin/logic.rs:572-579 | the collected ids are exactly the coins at the cell, and `score.coins` grows by their number |
| Logic.PickUpCoins | src/game_plugin/logic.rs:572-582 | the coins at the cell are counted into `score.coins` and removed; the others stay where they are |
| Logic.UpdateLevel | src/game_plugin/logic.rs:545-584 | enemy moves recorded (a death when one lands on the old player cell); a player move records the player, signals a death when an enemy is there, enters the exit exactly on the visible exit cell, and picks up the coins there |
| Logic.Detonate | src/game_plugin/logic.rs:644-662 | the blast is computed from the bombs before removal; afterwards the bomb is gone and every other bomb is untouched |
| Logic.SurvivorsSpec | src/game_plugin/logic.rs:675-694 | survivors keep their place; no listed enemy survives on an explosion; unlisted enemies and enemies on no explosion all survive; the map never grows |
| Logic.BombExplosionDestruction | src/game_plugin/logic.rs:667-700 | a death exactly when the player stands on an explosion; the listed enemies on explosions are removed; the exit is revealed exactly when no enemy is left, loading is done and it was hidden; it is never hidden again |
| Logic.ShowLevelExit | src/game_plugin/logic.rs:729-733 | revealing the exit clears every coin |
| Logic.FinishLoading | src/game_plugin/logic.rs:108-119 | the spawned enemies and coins are recorded in order and the level is marked as loaded |
| Legacy.LegacyFromChar | src/main.rs:84-98 | a decoded character is the legend symbol of its kind, and never `Exit` |
| Legacy.LegendsAgree | src/main.rs:84-98 | the older legend agrees with the newer one on every character except `e`, which it rejects |
| Legacy.DecodeRowAgrees | src/main.rs:209-226 | a line without `e` decodes the same under both legends |
| Legacy.DecodeRowsAgree | src/main.rs:204-229 | a map without `e` decodes the same under both legends |
| Legacy.ExitCharRejected | src/main.rs:84-98 | a map holding an `e` never decodes in the older copy |
| Legacy.LegacyParseOutcome | src/main.rs:191-243 | the older construction fails on every map with an `e`. On a map without one, it fails exactly as the newer one does, except that it succeeds where the newer fails for want of an exit. It then has the same board and the last `o` as the player |
| Legacy.Level.Init | src/main.rs:233-242 | a new level of the older copy has empty maps and bomb size 5 |
| Legacy.Level.New | src/main.rs:191-243 | the older construction fails exactly when `ParseLegacy` does, with the same error; otherwise its grid and player are `ParseLegacy`'s |
| Legacy.Level.PlaceBomb | src/main.rs:260-262 | `bombs[e] := (bomb_size, p)`; nothing else changes |
| Legacy.KeyboardInput | src/main.rs:868-918 | held arrow keys move the player as in the newer copy; a bomb is placed exactly when space was just pressed and no bomb sits at the player's cell |
| Legacy.UpdateLevel | src/main.rs:984-1025 | enemy moves recorded with no death check; a player move records the player, reports a collision exactly when an enemy is there, and picks up the coins there |
| Fixtures.MapTextLines | src/main.rs:1213-1220 | the test's raw string splits back into the six map lines |
| Fixtures.WallTestPanics | src/main.rs:1211-1224 | the test's map fails construction with `MissingPlayer` in both copies, before `wall_positions` runs |
| Fixtures.PlayerTestParses | src/main.rs:1211-1224 | with an `o` at `(0, 0)` the map builds in the older copy, with the player at `(0, 0)` |
| Fixtures.ExitTestParses | src/game_plugin/level.rs:254-267 | with an `o` at `(0, 0)` and an `e` at `(1, 0)` the map builds in the newer copy |
| Fixtures.ExpectedIsComponent | src/main.rs:1211-1224 | the 15 expected cells are the wall component of `(0, 1)`: all of row 1, columns 0, 1 and 10 of row 2, and column 0 of row 3 |
| Fixtures.TestWallCount | src/main.rs:1211-1224 | on the corrected map the seed below `(0, 0)` is a wall, and every result `wall_positions((0, 0))` may return has exactly 15 cells |

## Left out

- Render geometry is left out because it is floating point and has no inverse in the code to state a property against. This covers `translate_from_position`, `offsets`, `Block.position`, `BlockType::size` and `Mul<Vec2>`.
- `Level::new` now takes an index into the static `LEVELS` table. The model builds a level from the map text itself; the table is constant data with no logic.
- The `done_loading` flag is read and written by `logic.rs` but not declared in the `Level` struct of `level.rs`. The model declares it as a boolean field.
- Enemy AI is left out: its direction choice sorts by floating-point distance.
- Movement interpolation and bomb fuse timers are left out because they run on floating-point time. "Moving" is a boolean parameter, and a fuse running out is the call to `Logic.Detonate`.
- Rendering and animation are left out: tweens, meshes, materials, lights, `wobble`, the implode and coin animations, and entity spawning and despawning.
- UI, app states and plugin wiring are left out.
- Types.ApplyDirection: `apply_direction` updates a `Copy` value through `&mut self`. It is modelled as the function that returns the updated value.
- Grid.FreeDirectionsSpec: the `i8` casts are modelled as identities under the precondition that grid dimensions and coordinates are below 127. Larger maps, where the casts would wrap, are not modelled.
- Logic.KeyboardMoves: the system loops over every player entity. The model handles the one player the game spawns.
- Logic.KeyboardMoves: the heading and speed written into `Movement` are returned as the heading. The speed is left out because it is a float.
- Logic.UpdateLevel: the systems run over the entities whose location changed. The model takes them as sequences in query order.
- Logic.UpdateLevel: a death or entering the exit is returned as a flag, not sent as an event. Repeated death events collapse into one flag.
- Logic.BombExplosionDestruction: explosions and enemies are passed in as sequences. The explosion entities themselves are not modelled.
- Logic.BombExplosionDestruction: the model requires every listed enemy to be tracked when there is an explosion, because the code indexes the map and panics otherwise. The panic itself is not modelled.
- Logic.ShowLevelExit: models one reveal event. The exit tween and the lamp are rendering.
- Logic.FinishLoading: models only the end of level loading, where the spawned enemies and coins are recorded. The spawning is engine code.
- The older copy's `bomb_counter` and `bomb_explosion_destruction` (`src/main.rs:1034-1087`) are not modelled separately. Their level rules are those of `Logic.Detonate` and `Logic.BombExplosionDestruction` without the exit reveal, and their game-over outcome is only printed.
- The older copy's `Position`, `Direction`, `get`, `bomb_explode_positions`, `free_directions` and `wall_positions` (`src/main.rs:110-170`, `249-258`, `266-332`, `346-362`, `365-407`) have the same bodies as the newer ones. They are stated once, by `Types`, `Grid`, `Blast` and `Walls`, applied to `Legacy.Level.Layout()`.
- Walls.ComponentIsReachable: the model states what `wall_positions` returns, namely the seed first, each cell once, and exactly the reachable walls. It does not state the depth-first order of the cells after the seed.
- Blast.BlastSpec: the model follows the code where the usual description of the blast says it reaches `range` cells per arm, inclusive. The code checks the range after incrementing the step, so an unblocked arm reaches `range - 1` cells (`Blast.ArmFullReach`).
- Blast.BlastSpec: with a range of 0 or 1 the range check never fires and an arm runs to the first wall or edge. The model follows that too. Bombs are always placed with range 5.
- Logic.BombExplosionDestruction: an untracked enemy id is not a no-op but a panic (`level.enemy_positions[&entity]`), hence the precondition above.

## Findings

| source | as written | input that shows it | evidently intended | confidence | as-written member | corrected member |
|---|---|---|---|---|---|---|
| src/main.rs:1211-1224 | `test_wall_positions` builds a level from a map with no `o` and then expects 15 wall cells | the test's own map: `Level::new` stops at the missing player (`src/main.rs:231`) before `wall_positions` runs | the map has a player at `(0, 0)`, above the wall row, and `wall_positions((0, 0))` returns the 15 connected walls | not executed | Fixtures.WallTestPanics | Fixtures.TestWallCount |

The same map and expectation appear in `src/game_plugin/level.rs:254-267`. That copy passes the text to `Level::new`, which now takes a level index. Read as construction from the text, it stops the same way (`Fixtures.WallTestPanics`, second postcondition). With an `o` at `(0, 0)` and an `e` at `(1, 0)` it builds (`Fixtures.ExitTestParses`), and the count holds on that map too (`Fixtures.TestWallCount`).
