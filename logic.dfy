/**
 * The rules the game systems of `src/game_plugin/logic.rs` apply to the
 * level state: which key presses move the player, the one-bomb-per-cell
 * guard, the bookkeeping after enemies and the player move (deaths, the
 * exit, coin pickup), detonation, enemies destroyed by explosions, the exit
 * reveal and the end of loading.
 *
 * Engine queries become parameters (the keys pressed, the entities that
 * moved, the explosions on the board) and engine events become returned
 * flags; spawning, tweens and despawning are not modelled.
 */
module Logic {
  import opened Wrappers
  import opened Types
  import opened Grid
  import opened Blast
  import opened GameLevel

  /** The `Score` resource: coins collected and moves made. */
  class Score {
    var coins: nat
    var moves: nat

    /** `Score::default()`, as inserted when the first level starts. */
    constructor Default()
      ensures coins == 0 && moves == 0
    {
      coins, moves := 0, 0;
    }
  }

  // ---------------------------------------------------------------------------
  // Keyboard: moving the player
  // ---------------------------------------------------------------------------

  /** The arrow keys; the space bar is a separate input. */
  datatype Key = Left | Right | Up | Down

  /** The arrow keys and their directions, in the order the keyboard system tries them. */
  const Controls: seq<(Key, BoardDirection)> :=
    [(Left, BoardDirection(-1, 0)), (Right, BoardDirection(1, 0)), (Up, BoardDirection(0, -1)), (Down, BoardDirection(0, 1))]

  /** The number of arrow keys (kept as a name so that proofs do not unroll over it). */
  const KeyCount: nat := 4

  /** The directions accepted among the first `n` controls: pressed, and free at `location`. */
  function AcceptedUpTo(b: Board, location: Position, pressed: set<Key>, n: nat): seq<BoardDirection>
    requires b.Valid() && location.x < 127 && location.z < 127 && n <= KeyCount
  {
    if n == 0 then []
    else
      var (code, direction) := Controls[n - 1];
      AcceptedUpTo(b, location, pressed, n - 1)
        + (if code in pressed && direction in FreeDirections(b, location) then [direction] else [])
  }

  /** Every accepted move, in the order the keyboard system accepts them. */
  function Accepted(b: Board, location: Position, pressed: set<Key>): seq<BoardDirection>
    requires b.Valid() && location.x < 127 && location.z < 127
  {
    AcceptedUpTo(b, location, pressed, KeyCount)
  }

  /** The last element of a sequence, if any. */
  function LastMove(s: seq<BoardDirection>): Option<BoardDirection>
  {
    if s == [] then None else Some(s[|s| - 1])
  }

  lemma {:induction false} AcceptedUpToSpec(b: Board, location: Position, pressed: set<Key>, n: nat, d: BoardDirection)
    requires b.Valid() && location.x < 127 && location.z < 127 && n <= KeyCount
    ensures |AcceptedUpTo(b, location, pressed, n)| <= n
    ensures d in AcceptedUpTo(b, location, pressed, n) <==>
      (exists i :: 0 <= i < n && Controls[i].0 in pressed && Controls[i].1 == d) && d in FreeDirections(b, location)
  {
    if n > 0 {
      AcceptedUpToSpec(b, location, pressed, n - 1, d);
    }
  }

  /** The position in `Controls` of the control for direction `d` (the last one for any other direction). */
  function ControlRank(d: BoardDirection): (r: nat)
    ensures r < KeyCount
    ensures d in {BoardDirection(-1, 0), BoardDirection(1, 0), BoardDirection(0, -1), BoardDirection(0, 1)} ==> Controls[r].1 == d
  {
    if d == BoardDirection(-1, 0) then 0
    else if d == BoardDirection(1, 0) then 1
    else if d == BoardDirection(0, -1) then 2
    else 3
  }

  /** `a` lists directions of the first `n` controls, in the order of `Controls`, none twice. */
  predicate InControlOrder(a: seq<BoardDirection>, n: nat)
  {
    && (forall i :: 0 <= i < |a| ==> ControlRank(a[i]) < n && Controls[ControlRank(a[i])].1 == a[i])
    && (forall i, j :: 0 <= i < j < |a| ==> ControlRank(a[i]) < ControlRank(a[j]))
  }

  /** The accepted directions come in the order of `Controls`, each from one of the first `n` controls. */
  lemma {:induction false} AcceptedUpToOrder(b: Board, location: Position, pressed: set<Key>, n: nat)
    requires b.Valid() && location.x < 127 && location.z < 127 && n <= KeyCount
    ensures InControlOrder(AcceptedUpTo(b, location, pressed, n), n)
  {
    if n > 0 {
      AcceptedUpToOrder(b, location, pressed, n - 1);
      var (code, direction) := Controls[n - 1];
      assert ControlRank(direction) == n - 1;
      var tail := if code in pressed && direction in FreeDirections(b, location) then [direction] else [];
      OrderExtend(AcceptedUpTo(b, location, pressed, n - 1), tail, n - 1);
    }
  }

  /** Extending an ordered list by nothing or by the direction of control `n` keeps it ordered, now up to `n + 1`. */
  lemma OrderExtend(prev: seq<BoardDirection>, tail: seq<BoardDirection>, n: nat)
    requires n < KeyCount && InControlOrder(prev, n)
    requires tail == [] || tail == [Controls[n].1]
    ensures InControlOrder(prev + tail, n + 1)
  {
    var a := prev + tail;
    assert ControlRank(Controls[n].1) == n;
    forall i | 0 <= i < |a|
      ensures ControlRank(a[i]) < n + 1 && Controls[ControlRank(a[i])].1 == a[i]
    {
      if i < |prev| {
        assert a[i] == prev[i];
      }
    }
    forall i, j | 0 <= i < j < |a|
      ensures ControlRank(a[i]) < ControlRank(a[j])
    {
      assert a[i] == prev[i];
      if j < |prev| {
        assert a[j] == prev[j];
      }
    }
  }

  /** An arrow key for direction `d` is among `pressed`. */
  predicate KeyPressedFor(pressed: set<Key>, d: BoardDirection)
  {
    || (Left in pressed && d == BoardDirection(-1, 0))
    || (Right in pressed && d == BoardDirection(1, 0))
    || (Up in pressed && d == BoardDirection(0, -1))
    || (Down in pressed && d == BoardDirection(0, 1))
  }

  /**
   * A direction is accepted exactly when the key for it is pressed and the
   * neighbouring cell that way is in bounds and not a wall; at most one move
   * per arrow key.
   */
  lemma AcceptedSpec(b: Board, location: Position, pressed: set<Key>, d: BoardDirection)
    requires b.Valid() && location.x < 127 && location.z < 127
    ensures |Accepted(b, location, pressed)| <= 4
    ensures d in Accepted(b, location, pressed) <==> KeyPressedFor(pressed, d) && b.Open(location.x + d.x, location.z + d.z)
    ensures var a := Accepted(b, location, pressed);
      forall i, j :: 0 <= i < j < |a| ==> ControlRank(a[i]) < ControlRank(a[j]) && a[i] != a[j]
  {
    AcceptedUpToSpec(b, location, pressed, KeyCount, d);
    AcceptedUpToOrder(b, location, pressed, KeyCount);
    FreeDirectionsMember(b, location, d);
    if KeyPressedFor(pressed, d) {
      var i := if d == BoardDirection(-1, 0) then 0 else if d == BoardDirection(1, 0) then 1 else if d == BoardDirection(0, -1) then 2 else 3;
      assert Controls[i].0 in pressed && Controls[i].1 == d;
    }
  }

  /**
   * The movement part of `keyboard_input_system` for one player at
   * `location`: nothing while the player is moving; otherwise every arrow
   * key in `pressed` whose direction is free counts as a move, and the last
   * such direction becomes the player's heading (`None`: heading unchanged).
   */
  method KeyboardMoves(level: Level, score: Score, moving: bool, location: Position, pressed: set<Key>)
    returns (heading: Option<BoardDirection>)
    requires level.Valid() && location.x < 127 && location.z < 127
    modifies score`moves
    ensures moving ==> heading == None && score.moves == old(score.moves)
    ensures !moving ==>
      var accepted := Accepted(level.Layout(), location, pressed);
      score.moves == old(score.moves) + |accepted| && heading == LastMove(accepted)
  {
    heading := None;
    if moving {
      return;
    }
    ghost var b := level.Layout();
    for i := 0 to KeyCount
      invariant score.moves == old(score.moves) + |AcceptedUpTo(b, location, pressed, i)|
      invariant heading == LastMove(AcceptedUpTo(b, location, pressed, i))
    {
      var (code, direction) := Controls[i];
      if code in pressed {
        var directions := level.FreeDirections(location);
        if direction in directions {
          heading := Some(direction);
          score.moves := score.moves + 1;
        }
      }
    }
  }

  /** A heading the keyboard system sets is always a free direction. */
  lemma HeadingIsFree(b: Board, location: Position, pressed: set<Key>)
    requires b.Valid() && location.x < 127 && location.z < 127
    ensures var a := Accepted(b, location, pressed);
      var h := LastMove(a);
      && (h.Some? ==> h.value in FreeDirections(b, location))
      && (h.Some? ==> forall d :: d in a ==> ControlRank(d) <= ControlRank(h.value))
      && (h.None? <==> a == [])
  {
    var a := Accepted(b, location, pressed);
    if a != [] {
      AcceptedUpToSpec(b, location, pressed, KeyCount, a[|a| - 1]);
      AcceptedUpToOrder(b, location, pressed, KeyCount);
    }
  }

  // ---------------------------------------------------------------------------
  // Keyboard: placing a bomb
  // ---------------------------------------------------------------------------

  /** Some active bomb sits at `p`. */
  predicate BombAt(bombs: map<Entity, Bomb>, p: Position)
  {
    exists e :: e in bombs && bombs[e].1 == p
  }

  /** No two active bombs share a cell. */
  predicate OneBombPerCell(bombs: map<Entity, Bomb>)
  {
    forall e, f :: e in bombs && f in bombs && bombs[e].1 == bombs[f].1 ==> e == f
  }

  /** Whether any of `values` is a bomb at `p`: the scan over `bombs.values()`. */
  method BombValuesAt(values: set<Bomb>, p: Position) returns (found: bool)
    ensures found <==> exists v :: v in values && v.1 == p
  {
    var rest := values;
    while rest != {}
      invariant rest <= values
      invariant forall v :: v in values - rest ==> v.1 != p
      decreases |rest|
    {
      var v :| v in rest;
      if v.1 == p {
        return true;
      }
      rest := rest - {v};
    }
    return false;
  }

  /**
   * The bomb part of `keyboard_input_system`: when space is pressed and no
   * bomb sits at the player's cell yet, bomb `id` is placed there.
   */
  method DropBomb(level: Level, spacePressed: bool, id: Entity) returns (placed: bool)
    modifies level`bombs
    ensures placed <==> spacePressed && !BombAt(old(level.bombs), level.playerPosition)
    ensures placed ==> level.bombs == old(level.bombs)[id := (level.bombSize, level.playerPosition)]
    ensures !placed ==> level.bombs == old(level.bombs)
  {
    if !spacePressed {
      return false;
    }
    var position := level.playerPosition;
    var taken := BombValuesAt(level.bombs.Values, position);
    if taken {
      var v :| v in level.bombs.Values && v.1 == position;
      var e :| e in level.bombs && level.bombs[e] == v;
      assert level.bombs[e].1 == position;
      return false;
    }
    forall e | e in level.bombs
      ensures level.bombs[e].1 != position
    {
      assert level.bombs[e] in level.bombs.Values;
    }
    level.PlaceBomb(id, position);
    return true;
  }

  /**
   * The guard keeps bombs one per cell: placing a fresh bomb where none sits
   * adds exactly one bomb and keeps every cell to at most one, and removing a
   * bomb (detonation) keeps that too.
   */
  lemma GuardKeepsOneBombPerCell(bombs: map<Entity, Bomb>, id: Entity, size: nat, p: Position, gone: Entity)
    requires OneBombPerCell(bombs) && id !in bombs && !BombAt(bombs, p)
    ensures OneBombPerCell(bombs[id := (size, p)]) && |bombs[id := (size, p)]| == |bombs| + 1
    ensures OneBombPerCell(bombs - {gone})
  {
    var after := bombs[id := (size, p)];
    assert forall f :: f in bombs ==> bombs[f].1 != p;
    assert after.Keys == bombs.Keys + {id};
  }

  // ---------------------------------------------------------------------------
  // update_level
  // ---------------------------------------------------------------------------

  /** `insert` of each (entity, location) pair in turn: later pairs overwrite earlier ones. */
  function InsertAll(m: map<Entity, Position>, moves: seq<(Entity, Position)>): map<Entity, Position>
    decreases |moves|
  {
    if moves == [] then m
    else
      var n := |moves| - 1;
      InsertAll(m, moves[..n])[moves[n].0 := moves[n].1]
  }

  lemma InsertAllPush(m: map<Entity, Position>, moves: seq<(Entity, Position)>, i: nat)
    requires i < |moves|
    ensures InsertAll(m, moves[..i + 1]) == InsertAll(m, moves[..i])[moves[i].0 := moves[i].1]
  {
    assert moves[..i + 1][..i] == moves[..i];
  }

  /**
   * After the inserts an entity is tracked exactly when it was before or
   * some pair names it; its location is that of the last pair naming it,
   * or its old one when no pair does.
   */
  lemma {:induction false} InsertAllSpec(m: map<Entity, Position>, moves: seq<(Entity, Position)>, e: Entity)
    ensures e in InsertAll(m, moves) <==> e in m || exists i :: 0 <= i < |moves| && moves[i].0 == e
    ensures (forall i :: 0 <= i < |moves| ==> moves[i].0 != e) && e in m ==> InsertAll(m, moves)[e] == m[e]
    ensures forall i :: 0 <= i < |moves| && moves[i].0 == e && (forall j :: i < j < |moves| ==> moves[j].0 != e) ==>
      InsertAll(m, moves)[e] == moves[i].1
    decreases |moves|
  {
    if moves != [] {
      var n := |moves| - 1;
      var front := moves[..n];
      InsertAllSpec(m, front, e);
      assert forall i :: 0 <= i < n ==> front[i] == moves[i];
    }
  }

  /** The coins (or enemies) not at `p`: what the pickup loop leaves. */
  function Without(m: map<Entity, Position>, p: Position): map<Entity, Position>
  {
    map e | e in m && m[e] != p :: m[e]
  }

  /** The coins at `p`: what the pickup loop collects and removes. */
  function Picked(m: map<Entity, Position>, p: Position): set<Entity>
  {
    set e | e in m && m[e] == p
  }

  /**
   * Pickup conserves coins: every coin is either kept, where it was, or
   * picked, none at `p` is kept, and the kept and picked counts add up to
   * the coins there were.
   */
  lemma PickupConserves(m: map<Entity, Position>, p: Position)
    ensures |Without(m, p)| + |Picked(m, p)| == |m|
    ensures p !in Without(m, p).Values
    ensures forall e :: e in m ==> (e in Without(m, p) && Without(m, p)[e] == m[e]) != (e in Picked(m, p))
  {
    var kept := Without(m, p).Keys;
    var picked := Picked(m, p);
    assert m.Keys == kept + picked;
    assert kept * picked == {};
    assert forall e :: e in Without(m, p) ==> Without(m, p)[e] != p;
  }

  /** Whether `p` is among `values`: the collision scan over the enemy positions. */
  method PositionAmong(values: set<Position>, p: Position) returns (found: bool)
    ensures found <==> p in values
  {
    found := false;
    var rest := values;
    while rest != {}
      invariant rest <= values
      invariant found <==> p in values - rest
      decreases |rest|
    {
      var v :| v in rest;
      if v == p {
        found := true;
      }
      rest := rest - {v};
    }
  }

  /** The enemy loop of `update_level`: record each moved enemy; a death when one lands on the player. */
  method MoveEnemies(level: Level, moves: seq<(Entity, Position)>) returns (died: bool)
    modifies level`enemyPositions
    ensures level.enemyPositions == InsertAll(old(level.enemyPositions), moves)
    ensures died <==> exists i :: 0 <= i < |moves| && moves[i].1 == level.playerPosition
  {
    died := false;
    for i := 0 to |moves|
      invariant level.enemyPositions == InsertAll(old(level.enemyPositions), moves[..i])
      invariant died <==> exists j :: 0 <= j < i && moves[j].1 == level.playerPosition
    {
      var (entity, location) := moves[i];
      InsertAllPush(old(level.enemyPositions), moves, i);
      level.enemyPositions := level.enemyPositions[entity := location];
      if level.playerPosition == location {
        died := true;
      }
    }
    assert moves[..|moves|] == moves;
  }

  /** The ids of the coins at `p`, each once: the first coin loop of `update_level`, counting into `score.coins`. */
  method CollectCoins(coins: map<Entity, Position>, score: Score, p: Position) returns (deleted: seq<Entity>)
    modifies score`coins
    ensures forall e :: e in deleted <==> e in Picked(coins, p)
    ensures score.coins == old(score.coins) + |Picked(coins, p)|
  {
    deleted := [];
    var rest := coins.Keys;
    ghost var picked: set<Entity> := {};
    while rest != {}
      invariant rest <= coins.Keys
      invariant picked == Picked(coins, p) - rest
      invariant forall e :: e in deleted <==> e in picked
      invariant score.coins == old(score.coins) + |picked|
      decreases |rest|
    {
      var e :| e in rest;
      if coins[e] == p {
        score.coins := score.coins + 1;
        deleted := deleted + [e];
        picked := picked + {e};
      }
      rest := rest - {e};
    }
  }

  /**
   * The coin pickup of `update_level`: every coin at `p` is counted into
   * `score.coins` and then removed; the other coins stay where they are.
   */
  method PickUpCoins(level: Level, score: Score, p: Position)
    modifies level`coinPositions, score`coins
    ensures level.coinPositions == Without(old(level.coinPositions), p)
    ensures score.coins == old(score.coins) + |Picked(old(level.coinPositions), p)|
  {
    ghost var m := level.coinPositions;
    var deleted := CollectCoins(level.coinPositions, score, p);
    for i := 0 to |deleted|
      invariant forall e :: e in level.coinPositions <==> e in m && e !in deleted[..i]
      invariant forall e :: e in level.coinPositions ==> level.coinPositions[e] == m[e]
      invariant score.coins == old(score.coins) + |Picked(m, p)|
    {
      level.coinPositions := level.coinPositions - {deleted[i]};
    }
    assert deleted[..|deleted|] == deleted;
  }

  /**
   * `update_level`: record the enemies that moved (a death when one lands on
   * the player's cell), then, if the player moved to `playerMove`, record the
   * player (a death when an enemy is there; entering the exit when it is
   * the visible exit cell) and pick up the coins there.
   */
  method UpdateLevel(level: Level, score: Score, enemyMoves: seq<(Entity, Position)>, playerMove: Option<Position>)
    returns (died: bool, enterExit: bool)
    modifies level`enemyPositions, level`playerPosition, level`coinPositions, score`coins
    ensures level.enemyPositions == InsertAll(old(level.enemyPositions), enemyMoves)
    ensures died <==>
      || (exists i :: 0 <= i < |enemyMoves| && enemyMoves[i].1 == old(level.playerPosition))
      || (playerMove.Some? && playerMove.value in level.enemyPositions.Values)
    ensures playerMove.None? ==>
      && level.playerPosition == old(level.playerPosition) && level.coinPositions == old(level.coinPositions)
      && score.coins == old(score.coins) && !enterExit
    ensures playerMove.Some? ==>
      var p := playerMove.value;
      && level.playerPosition == p
      && level.coinPositions == Without(old(level.coinPositions), p)
      && score.coins == old(score.coins) + |Picked(old(level.coinPositions), p)|
      && (enterExit <==> level.endingPosition == p && level.endingVisible)
  {
    died := MoveEnemies(level, enemyMoves);
    enterExit := false;
    if playerMove.Some? {
      var location := playerMove.value;
      level.playerPosition := location;
      var hit := PositionAmong(level.enemyPositions.Values, location);
      died := died || hit;
      if level.endingPosition == location && level.endingVisible {
        enterExit := true;
      }
      PickUpCoins(level, score, location);
    }
  }

  // ---------------------------------------------------------------------------
  // Bombs going off
  // ---------------------------------------------------------------------------

  /**
   * The fuse-out branch of `bomb_counter` for bomb `e`: the blast is
   * computed from the bombs as they were, then the bomb is forgotten; the
   * other bombs are untouched.
   */
  method Detonate(level: Level, e: Entity) returns (blast: seq<BlastCell>)
    requires level.Valid() && (e in level.bombs ==> BombFits(level.bombs[e]))
    modifies level`bombs
    ensures blast == Blast.Blast(level.Layout(), old(level.bombs), e)
    ensures e !in level.bombs
    ensures forall f :: f != e ==> (f in level.bombs <==> f in old(level.bombs))
    ensures forall f :: f in level.bombs ==> level.bombs[f] == old(level.bombs)[f]
  {
    blast := level.BombExplodePositions(e);
    level.bombs := level.bombs - {e};
  }

  /** The enemies left after the explosions: every listed enemy standing on an explosion goes. */
  function Survivors(m: map<Entity, Position>, enemies: seq<Entity>, explosions: seq<Position>): map<Entity, Position>
  {
    map e | e in m && !(e in enemies && m[e] in explosions) :: m[e]
  }

  /**
   * Explosions remove exactly the listed enemies that stand on one: every
   * survivor keeps its place, no listed enemy survives on an explosion,
   * enemies not listed are all kept, and so is every enemy on no explosion.
   */
  lemma SurvivorsSpec(m: map<Entity, Position>, enemies: seq<Entity>, explosions: seq<Position>)
    ensures var s := Survivors(m, enemies, explosions);
      && s.Keys <= m.Keys
      && (forall e :: e in s ==> s[e] == m[e] && (e in enemies ==> m[e] !in explosions))
      && (forall e :: e in m && e !in enemies ==> e in s)
      && (forall e :: e in m && m[e] !in explosions ==> e in s)
      && |s| <= |m|
  {
    var s := Survivors(m, enemies, explosions);
    assert s.Keys <= m.Keys;
    SubsetCard(s.Keys, m.Keys);
  }

  lemma SubsetCard<T>(a: set<T>, b: set<T>)
    requires a <= b
    ensures |a| <= |b|
  {
    assert b == a + (b - a);
  }

  /**
   * `bomb_explosion_destruction`: a death when the player stands on an
   * explosion; every listed enemy on an explosion is removed; when no enemy
   * is left, loading is done and the exit is still hidden, the exit is
   * revealed (`showExit` stands for the reveal event). Indexing an untracked
   * enemy panics, so every listed enemy must be tracked when there is an
   * explosion.
   */
  method BombExplosionDestruction(level: Level, explosions: seq<Position>, enemies: seq<Entity>)
    returns (died: bool, showExit: bool)
    requires explosions != [] ==> forall i :: 0 <= i < |enemies| ==> enemies[i] in level.enemyPositions
    modifies level`enemyPositions, level`endingVisible
    ensures died <==> level.playerPosition in explosions
    ensures level.enemyPositions == Survivors(old(level.enemyPositions), enemies, explosions)
    ensures showExit <==> !old(level.endingVisible) && |level.enemyPositions| == 0 && level.doneLoading
    ensures level.endingVisible == (old(level.endingVisible) || showExit)
  {
    ghost var m := level.enemyPositions;
    died := false;
    var removable: seq<Entity> := [];
    for i := 0 to |explosions|
      invariant level.enemyPositions == m && level.endingVisible == old(level.endingVisible)
      invariant died <==> level.playerPosition in explosions[..i]
      invariant forall e :: e in removable <==> e in enemies && e in m && m[e] in explosions[..i]
    {
      var location := explosions[i];
      assert explosions[..i + 1] == explosions[..i] + [location];
      if level.playerPosition == location {
        died := true;
      }
      for j := 0 to |enemies|
        invariant forall e :: e in removable <==>
          (e in enemies && e in m && m[e] in explosions[..i]) || (e in enemies[..j] && m[e] == location)
      {
        var entity := enemies[j];
        assert enemies[..j + 1] == enemies[..j] + [entity];
        if level.enemyPositions[entity] == location {
          removable := removable + [entity];
        }
      }
      assert enemies[..|enemies|] == enemies;
    }
    assert explosions[..|explosions|] == explosions;
    for k := 0 to |removable|
      invariant forall e :: e in level.enemyPositions <==> e in m && e !in removable[..k]
      invariant forall e :: e in level.enemyPositions ==> level.enemyPositions[e] == m[e]
      invariant level.endingVisible == old(level.endingVisible)
    {
      level.enemyPositions := level.enemyPositions - {removable[k]};
    }
    assert removable[..|removable|] == removable;
    showExit := false;
    if |level.enemyPositions| == 0 && !level.endingVisible && level.doneLoading {
      showExit := true;
      level.endingVisible := true;
    }
  }

  /** `show_level_exit`: once the exit shows, every remaining coin is gone. */
  method ShowLevelExit(level: Level)
    modifies level`coinPositions
    ensures level.coinPositions == map[]
  {
    level.coinPositions := map[];
  }

  /**
   * The end of `level_loading`: the enemies and coins spawned from the map are
   * recorded, in order, and the level is marked as loaded.
   */
  method FinishLoading(level: Level, enemies: seq<(Entity, Position)>, coins: seq<(Entity, Position)>)
    modifies level`enemyPositions, level`coinPositions, level`doneLoading
    ensures level.enemyPositions == InsertAll(old(level.enemyPositions), enemies)
    ensures level.coinPositions == InsertAll(old(level.coinPositions), coins)
    ensures level.doneLoading
  {
    for i := 0 to |enemies|
      invariant level.enemyPositions == InsertAll(old(level.enemyPositions), enemies[..i])
      invariant level.coinPositions == old(level.coinPositions)
    {
      InsertAllPush(old(level.enemyPositions), enemies, i);
      level.enemyPositions := level.enemyPositions[enemies[i].0 := enemies[i].1];
    }
    assert enemies[..|enemies|] == enemies;
    for i := 0 to |coins|
      invariant level.coinPositions == InsertAll(old(level.coinPositions), coins[..i])
      invariant level.enemyPositions == InsertAll(old(level.enemyPositions), enemies)
    {
      InsertAllPush(old(level.coinPositions), coins, i);
      level.coinPositions := level.coinPositions[coins[i].0 := coins[i].1];
    }
    assert coins[..|coins|] == coins;
    level.doneLoading := true;
  }
}
