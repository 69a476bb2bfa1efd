/**
 * The `Level` resource of `src/game_plugin/level.rs`: the parsed grid, the
 * tracked player and exit cells, the entity bookkeeping maps and the flags,
 * with the methods the game calls on it.
 */
module GameLevel {
  import opened Wrappers
  import opened Types
  import opened Grid
  import opened Blast
  import opened Walls
  import opened Parse

  /** The cell `position + direction * k` that `follow_range` looks up at step `k`. */
  method StepTarget(position: Position, direction: BoardDirection, k: nat) returns (x: int, z: int)
    requires IsUnit(direction) && k <= 127 && position.x < 127 && position.z < 127
    ensures x == Along(position.x, direction.x, k) && z == Along(position.z, direction.z, k)
  {
    MulUnit(direction, k, position);
    var current := direction.Mul(k);
    x, z := position.x + current.x, position.z + current.z;
  }

  /**
   * `follow_range` (a free function over the level's grid): walks from `position` along `direction` one step at a
   * time, pushing each reached cell, until it leaves the grid, meets a wall,
   * or the incremented step counter equals `range`.
   */
  method FollowRange(b: Board, range: nat, position: Position, direction: BoardDirection, into: seq<BlastCell>) returns (out: seq<BlastCell>)
    requires b.Valid() && range <= 127 && position.x < 127 && position.z < 127 && IsUnit(direction)
    ensures out == into + Arm(b, range, position, direction, FirstStep)
  {
    WalkStart(b, range, position, direction, into);
    ghost var total := into + Arm(b, range, position, direction, FirstStep);
    var currentRange := FirstStep;
    out := into;
    while true
      invariant Walked(b, range, position, direction, currentRange, out, total)
      decreases 127 - currentRange
    {
      var stop;
      out, stop := ArmStep(b, range, position, direction, currentRange, out, total);
      if stop {
        break;
      }
      currentRange := currentRange + 1;
    }
  }

  /**
   * One pass of the loop body of `follow_range`: look at step `k`; stop at
   * a wall or the edge, otherwise push the cell and stop when the
   * incremented counter equals `range`.
   */
  method ArmStep(b: Board, range: nat, position: Position, direction: BoardDirection, k: nat, into: seq<BlastCell>, ghost total: seq<BlastCell>)
    returns (out: seq<BlastCell>, stop: bool)
    requires Walked(b, range, position, direction, k, into, total)
    ensures stop ==> out == total
    ensures !stop ==> Walked(b, range, position, direction, k + 1, out, total)
  {
    var x, z := StepTarget(position, direction, k);
    var item := b.Get(x, z);
    if item.None? || item.value.kind.IsWall() {
      ArmBlocked(b, range, position, direction, k, into, total);
      return into, true;
    }
    var cell := BlastCell(Position(x, z), k, range);
    ArmPush(b, range, position, direction, k, into, total, cell);
    out := into + [cell];
    stop := range == k + 1;
  }

  /**
   * `recursive_search` (nested in `wall_positions`): from `position`, tries
   * the four unit steps in the order +x, -x, +z, -z (`SearchStep` is one
   * pass of the loop). The `&mut` list and set are passed in and handed
   * back.
   */
  method RecursiveSearch(b: Board, position: Position, into: seq<Position>, tested: set<Position>)
    returns (into': seq<Position>, tested': set<Position>)
    requires b.Valid() && b.InBounds(position.x, position.z)
    requires Searching(b, into, tested) && position in into
    ensures Searching(b, into', tested') && into <= into' && tested <= tested'
    ensures Explored(position, tested')
    ensures forall i :: |into| <= i < |into'| ==> Explored(into'[i], tested')
    decreases Box() - tested, 1
  {
    into', tested' := into, tested;
    for i := 0 to |Around|
      invariant Searching(b, into', tested') && into <= into' && tested <= tested' && position in into'
      invariant forall j :: 0 <= j < i ==> ApplyDirection(position, Around[j]) in tested'
      invariant forall j :: |into| <= j < |into'| ==> Explored(into'[j], tested')
    {
      into', tested' := SearchStep(b, position, Around[i], into', tested', |into|);
    }
  }

  /**
   * One pass of the loop of `recursive_search`: the step from `position`
   * along `d`, unless already tested, is marked tested; an in-bounds wall
   * other than `|` is then listed and searched from.
   */
  method SearchStep(b: Board, position: Position, d: BoardDirection, into: seq<Position>, tested: set<Position>, ghost from: nat)
    returns (into': seq<Position>, tested': set<Position>)
    requires b.Valid() && b.InBounds(position.x, position.z) && IsUnit(d)
    requires Searching(b, into, tested) && position in into
    requires from <= |into| && forall j :: from <= j < |into| ==> Explored(into[j], tested)
    ensures Searching(b, into', tested') && into <= into' && tested <= tested' && position in into'
    ensures ApplyDirection(position, d) in tested'
    ensures forall j :: from <= j < |into'| ==> Explored(into'[j], tested')
    decreases Box() - tested, 0
  {
    into', tested' := into, tested;
    var next := ApplyDirection(position, d);
    if next in tested' {
      return;
    }
    ApplyUnit(position, d);
    InBox(next);
    tested' := tested' + {next};
    var block := b.Get(next.x, next.z);
    if block.None? || !block.value.kind.IsWall() || block.value.kind == WallSmallV {
      SearchSkip(b, into, tested, next);
      ExploredMore(into, from, tested, tested');
      return;
    }
    SearchPush(b, into, tested, position, next);
    into' := into' + [next];
    assert Box() - tested' < Box() - tested by {
      assert next in Box() - tested && next !in Box() - tested';
    }
    into', tested' := RecursiveSearch(b, next, into', tested');
    ExploredAfterSearch(into, from, tested, next, into', tested');
  }

  class Level {
    /** (columns, rows); never reassigned after construction. */
    const size: Position
    /** `rows[z][x]` is the block in column `x` of row `z`; never reassigned after construction. */
    const rows: seq<seq<Block>>
    /** The range every placed bomb gets; never reassigned after construction. */
    const bombSize: nat
    var playerPosition: Position
    var endingPosition: Position
    var enemyPositions: map<Entity, Position>
    var coinPositions: map<Entity, Position>
    /** Active bombs: id to (range, position). */
    var bombs: map<Entity, Bomb>
    /** Whether the exit has been revealed; only ever set to true. */
    var endingVisible: bool
    /** Whether the level-loading system has filled the entity maps. */
    var doneLoading: bool

    /** The grid as a value. */
    function Layout(): Board
    {
      Board(size, rows)
    }

    /** A grid the lookups can work on (a rectangular map of fewer than 127 rows and columns). */
    predicate Valid()
    {
      Layout().Valid()
    }

    /** The struct literal at the end of `Level::new`. */
    constructor Init(size: Position, rows: seq<seq<Block>>, player: Position, ending: Position)
      ensures this.size == size && this.rows == rows
      ensures playerPosition == player && endingPosition == ending
      ensures enemyPositions == map[] && coinPositions == map[] && bombs == map[]
      ensures bombSize == 5 && !endingVisible && !doneLoading
    {
      this.size := size;
      this.rows := rows;
      this.bombSize := 5;
      playerPosition := player;
      endingPosition := ending;
      enemyPositions := map[];
      coinPositions := map[];
      bombs := map[];
      endingVisible := false;
      doneLoading := false;
    }

    /**
     * `Level::new` on a map text: line by line and character by character it
     * builds the rows and overwrites the player and exit trackers; a panic
     * becomes a `Failure`. The outcome is `ParseLevel(data)`, with empty
     * entity maps, a bomb size of 5 and a hidden exit.
     */
    static method New(data: string) returns (r: Result<Level, ParseError>)
      ensures r.Failure? <==> ParseLevel(data).Failure?
      ensures r.Failure? ==> r.error == ParseLevel(data).error
      ensures r.Success? ==>
        && fresh(r.value)
        && r.value.Layout() == ParseLevel(data).value.board
        && r.value.playerPosition == ParseLevel(data).value.player
        && r.value.endingPosition == ParseLevel(data).value.ending
        && r.value.enemyPositions == map[] && r.value.coinPositions == map[] && r.value.bombs == map[]
        && r.value.bombSize == 5 && !r.value.endingVisible && !r.value.doneLoading
    {
      var lines := Lines(data);
      var grid: seq<seq<Block>> := [];
      var xSize := 0;
      var player: Option<Position> := None;
      var ending: Option<Position> := None;
      var z := 0;
      while z < |lines|
        invariant z <= |lines|
        invariant DecodeRows(lines[..z], FromChar) == Success(grid)
        invariant player == LastIn(grid, Player) && ending == LastIn(grid, Exit)
        invariant xSize == Width(lines[..z])
      {
        var line := lines[z];
        xSize := |line|;
        var row: seq<Block> := [];
        var x := 0;
        while x < |line|
          invariant x <= |line|
          invariant DecodeRow(line[..x], z, FromChar) == Success(row)
          invariant player == (if LastOf(row, Player).Some? then LastOf(row, Player) else LastIn(grid, Player))
          invariant ending == (if LastOf(row, Exit).Some? then LastOf(row, Exit) else LastIn(grid, Exit))
        {
          var kind := FromChar(line[x]);
          if kind.None? {
            DecodeRowStop(line, z, FromChar, x);
            DecodeRowsStop(lines, FromChar, z);
            return Failure(UnknownChar(line[x]));
          }
          DecodeRowStep(line, z, FromChar, x);
          var levelPosition := Position(x, z);
          if kind.value == Player {
            player := Some(levelPosition);
          }
          if kind.value == Exit {
            ending := Some(levelPosition);
          }
          LastOfPush(row, Block(kind.value, levelPosition), Player);
          LastOfPush(row, Block(kind.value, levelPosition), Exit);
          row := row + [Block(kind.value, levelPosition)];
          x := x + 1;
        }
        assert line[..x] == line;
        DecodeRowsStep(lines, FromChar, z);
        LastInPush(grid, row, Player);
        LastInPush(grid, row, Exit);
        grid := grid + [row];
        z := z + 1;
      }
      assert lines[..z] == lines;
      if player.None? {
        return Failure(MissingPlayer);
      }
      if ending.None? {
        return Failure(MissingExit);
      }
      var level := new Level.Init(Position(xSize, |lines|), grid, player.value, ending.value);
      return Success(level);
    }

    /** `place_bomb`: records (or overwrites) bomb `e` at `p` with the level's bomb size; nothing else changes. */
    method PlaceBomb(e: Entity, p: Position)
      modifies this`bombs
      ensures bombs == old(bombs)[e := (bombSize, p)]
    {
      bombs := bombs[e := (bombSize, p)];
    }
 
    /**
     * `bomb_explode_positions(e)`: nothing for an unknown bomb, otherwise the
     * origin at step 0 followed by the arms -x, -z, +x, +z.
     */
    method BombExplodePositions(e: Entity) returns (results: seq<BlastCell>)
      requires Valid() && (e in bombs ==> BombFits(bombs[e]))
      ensures results == Blast.Blast(Layout(), bombs, e)
    {
      if e !in bombs {
        return [];
      }
      BlastArms(Layout(), bombs, e);
      var (range, position) := bombs[e];
      var b := Layout();
      results := [BlastCell(position, 0, range)];
      results := FollowRange(b, range, position, BoardDirection(-1, 0), results);
      results := FollowRange(b, range, position, BoardDirection(0, -1), results);
      results := FollowRange(b, range, position, BoardDirection(1, 0), results);
      results := FollowRange(b, range, position, BoardDirection(0, 1), results);
    }

    /** `free_directions(p)`: tries +x, -x, +z, -z in turn and keeps each in-bounds, non-wall step. */
    method FreeDirections(position: Position) returns (results: seq<BoardDirection>)
      requires Valid() && position.x < 127 && position.z < 127
      ensures results == Grid.FreeDirections(Layout(), position)
    {
      var b := Layout();
      var x, z := position.x, position.z;
      results := [];
      for i := 0 to |Around|
        invariant results == FreeAmong(b, position, Around[..i])
      {
        var d := Around[i];
        FreeAmongStep(b, position, i);
        var item := b.Get(x + d.x, z + d.z);
        if item.None? {
          continue;
        }
        if item.value.kind.IsWall() {
          continue;
        }
        results := results + [d];
      }
      assert Around[..|Around|] == Around;
    }

    /**
     * `wall_positions(p)`: nothing unless the cell one step in +z is an
     * in-bounds wall; otherwise that cell followed by the walls connected to
     * it through 4-neighbour steps over walls other than `|`.
     */
    method WallPositions(position: Position) returns (results: seq<Position>)
      requires Valid() && position.x < 127 && position.z < 127
      ensures var s := Seed(position);
        results == [] <==> !(Layout().InBounds(s.x, s.z) && Layout().rows[s.z][s.x].kind.IsWall())
      ensures results != [] ==> Component(Layout(), Seed(position), results)
    {
      var b := Layout();
      var newPosition := ApplyDirection(position, BoardDirection(0, 1));
      var block := b.Get(newPosition.x, newPosition.z);
      if block.None? {
        return [];
      }
      if !block.value.kind.IsWall() {
        return [];
      }
      results := [newPosition];
      var tested := {newPosition};
      InBox(newPosition);
      results, tested := RecursiveSearch(b, newPosition, results, tested);
      ExploredClosed(b, results, tested);
    }
  }
}
