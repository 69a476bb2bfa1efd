/**
 * The older standalone copy of the level in `src/main.rs`: its legend has
 * no exit character, construction only looks for the player, and its
 * keyboard and `update_level` systems have no exit and no death events.
 *
 * Its `get`, `bomb_explode_positions`, `free_directions` and
 * `wall_positions` have the same bodies as the newer copy; they are stated
 * once, by the `Grid`, `Blast` and `Walls` functions, which apply to this
 * copy's `Layout()` unchanged.
 */
module Legacy {
  import opened Wrappers
  import opened Types
  import opened Grid
  import opened Blast
  import opened Parse
  import opened Logic

  /** This copy's `From<char> for BlockType`: the same legend without `e`. */
  function LegacyFromChar(c: char): (r: Option<BlockType>)
    ensures r.Some? ==> Symbol(r.value) == c && r.value != Exit
  {
    match c
    case '*' => Some(Coin)
    case '#' => Some(WallBig)
    case '-' => Some(WallSmallH)
    case '|' => Some(WallSmallV)
    case 'o' => Some(Player)
    case 'x' => Some(Enemy)
    case ' ' => Some(Space)
    case _ => None
  }

  /** The two legends agree on every character but `e`, which only the newer one knows. */
  lemma LegendsAgree(c: char)
    ensures LegacyFromChar(c) == if c == 'e' then None else FromChar(c)
  {
  }

  /** What this copy's construction produces: the board and the player cell. */
  datatype LegacyParsed = LegacyParsed(board: Board, player: Position)

  /** The outcome of this copy's `Level::new`: the decoded board and the last `o`, or the panic that stops it. */
  function ParseLegacy(data: string): Result<LegacyParsed, ParseError>
  {
    var lines := Lines(data);
    match DecodeRows(lines, LegacyFromChar)
    case Failure(e) => Failure(e)
    case Success(rows) =>
      match LastIn(rows, Player)
      case None => Failure(MissingPlayer)
      case Some(p) => Success(LegacyParsed(Board(Position(Width(lines), |lines|), rows), p))
  }

  lemma {:induction false} DecodeRowAgrees(line: string, z: nat)
    requires forall x :: 0 <= x < |line| ==> line[x] != 'e'
    ensures DecodeRow(line, z, LegacyFromChar) == DecodeRow(line, z, FromChar)
    decreases |line|
  {
    if line != [] {
      var n := |line| - 1;
      assert forall x :: 0 <= x < n ==> line[..n][x] == line[x];
      DecodeRowAgrees(line[..n], z);
    }
  }

  lemma {:induction false} DecodeRowsAgree(lines: seq<string>)
    requires !HasChar(lines, 'e')
    ensures DecodeRows(lines, LegacyFromChar) == DecodeRows(lines, FromChar)
    decreases |lines|
  {
    if lines != [] {
      var n := |lines| - 1;
      assert forall z :: 0 <= z < n ==> lines[..n][z] == lines[z];
      DecodeRowsAgree(lines[..n]);
      DecodeRowAgrees(lines[n], n);
    }
  }

  /** A map holding an `e` never decodes with this copy's legend. */
  lemma ExitCharRejected(lines: seq<string>)
    requires HasChar(lines, 'e')
    ensures DecodeRows(lines, LegacyFromChar).Failure?
  {
    var z, x :| 0 <= z < |lines| && 0 <= x < |lines[z]| && lines[z][x] == 'e';
    DecodeRowsSuccess(lines, LegacyFromChar);
    DecodeRowSuccess(lines[z], z, LegacyFromChar);
  }

  /**
   * How the two copies' constructions relate: this copy rejects every map
   * holding an `e`; on a map without one it fails exactly as the newer copy
   * does, except that where the newer copy fails for want of an exit this
   * copy succeeds, with the same board and the last `o` as the player.
   */
  lemma LegacyParseOutcome(data: string)
    ensures var lines, older, newer := Lines(data), ParseLegacy(data), ParseLevel(data);
      && (HasChar(lines, 'e') ==> older.Failure?)
      && (!HasChar(lines, 'e') ==>
        && (older.Success? <==> newer == Failure(MissingExit))
        && (older.Failure? ==> newer == Failure(older.error))
        && (older.Success? ==>
          && DecodeRows(lines, FromChar).Success?
          && older.value.board == Board(Position(Width(lines), |lines|), DecodeRows(lines, FromChar).value)
          && LastCharAt(lines, 'o', older.value.player)))
  {
    var lines := Lines(data);
    if HasChar(lines, 'e') {
      ExitCharRejected(lines);
    } else {
      DecodeRowsAgree(lines);
      ParseLevelOutcome(data);
      if DecodeRows(lines, FromChar).Success? {
        var rows := DecodeRows(lines, FromChar).value;
        LastInDecoded(lines, Player);
        assert Symbol(Player) == 'o';
        assert ParseLegacy(data).Success? <==> LastIn(rows, Player).Some?;
        assert LastIn(rows, Player).Some? <==> HasChar(lines, 'o');
      } else {
        ParseUnknown(lines);
      }
    }
  }

  /** This copy's `Level`: no exit and no loading flag. */
  class Level {
    /** (columns, rows); never reassigned after construction. */
    const size: Position
    /** `rows[z][x]` is the block in column `x` of row `z`; never reassigned after construction. */
    const rows: seq<seq<Block>>
    /** The range every placed bomb gets; never reassigned after construction. */
    const bombSize: nat
    var playerPosition: Position
    var enemyPositions: map<Entity, Position>
    var coinPositions: map<Entity, Position>
    /** Active bombs: id to (range, position). */
    var bombs: map<Entity, Bomb>

    /** The grid as a value. */
    function Layout(): Board
    {
      Board(size, rows)
    }

    /** The struct literal at the end of this copy's `Level::new`. */
    constructor Init(size: Position, rows: seq<seq<Block>>, player: Position)
      ensures this.size == size && this.rows == rows && playerPosition == player
      ensures enemyPositions == map[] && coinPositions == map[] && bombs == map[] && bombSize == 5
    {
      this.size := size;
      this.rows := rows;
      this.bombSize := 5;
      playerPosition := player;
      enemyPositions := map[];
      coinPositions := map[];
      bombs := map[];
    }

    /**
     * This copy's `Level::new`: the same loops as the newer copy with the
     * smaller legend and only the player tracker; the outcome is
     * `ParseLegacy(data)`, with empty entity maps and a bomb size of 5.
     */
    static method New(data: string) returns (r: Result<Level, ParseError>)
      ensures r.Failure? <==> ParseLegacy(data).Failure?
      ensures r.Failure? ==> r.error == ParseLegacy(data).error
      ensures r.Success? ==>
        && fresh(r.value)
        && r.value.Layout() == ParseLegacy(data).value.board
        && r.value.playerPosition == ParseLegacy(data).value.player
        && r.value.enemyPositions == map[] && r.value.coinPositions == map[] && r.value.bombs == map[]
        && r.value.bombSize == 5
    {
      var lines := Lines(data);
      var grid: seq<seq<Block>> := [];
      var xSize := 0;
      var player: Option<Position> := None;
      var z := 0;
      while z < |lines|
        invariant z <= |lines|
        invariant DecodeRows(lines[..z], LegacyFromChar) == Success(grid)
        invariant player == LastIn(grid, Player)
        invariant xSize == Width(lines[..z])
      {
        var line := lines[z];
        xSize := |line|;
        var row: seq<Block> := [];
        var x := 0;
        while x < |line|
          invariant x <= |line|
          invariant DecodeRow(line[..x], z, LegacyFromChar) == Success(row)
          invariant player == (if LastOf(row, Player).Some? then LastOf(row, Player) else LastIn(grid, Player))
        {
          var kind := LegacyFromChar(line[x]);
          if kind.None? {
            DecodeRowStop(line, z, LegacyFromChar, x);
            DecodeRowsStop(lines, LegacyFromChar, z);
            return Failure(UnknownChar(line[x]));
          }
          DecodeRowStep(line, z, LegacyFromChar, x);
          var levelPosition := Position(x, z);
          if kind.value == Player {
            player := Some(levelPosition);
          }
          LastOfPush(row, Block(kind.value, levelPosition), Player);
          row := row + [Block(kind.value, levelPosition)];
          x := x + 1;
        }
        assert line[..x] == line;
        DecodeRowsStep(lines, LegacyFromChar, z);
        LastInPush(grid, row, Player);
        grid := grid + [row];
        z := z + 1;
      }
      assert lines[..z] == lines;
      if player.None? {
        return Failure(MissingPlayer);
      }
      var level := new Level.Init(Position(xSize, |lines|), grid, player.value);
      return Success(level);
    }

    /** `place_bomb`: records (or overwrites) bomb `e` at `p` with the level's bomb size; nothing else changes. */
    method PlaceBomb(e: Entity, p: Position)
      modifies this`bombs
      ensures bombs == old(bombs)[e := (bombSize, p)]
    {
      bombs := bombs[e := (bombSize, p)];
    }
  }

  /**
   * This copy's `keyboard_input_system`: the arrow keys held down (`pressed`
   * rather than `just_pressed`) move the player as in the newer copy, and a
   * bomb `id` is placed at the player's cell when space was just pressed and
   * no bomb sits there yet.
   */
  method KeyboardInput(level: Level, score: Score, moving: bool, location: Position, held: set<Key>, spacePressed: bool, id: Entity)
    returns (heading: Option<BoardDirection>, placed: bool)
    requires level.Layout().Valid() && location.x < 127 && location.z < 127
    modifies score`moves, level`bombs
    ensures moving ==> heading == None && score.moves == old(score.moves)
    ensures !moving ==>
      var accepted := Accepted(level.Layout(), location, held);
      score.moves == old(score.moves) + |accepted| && heading == LastMove(accepted)
    ensures placed <==> spacePressed && !BombAt(old(level.bombs), level.playerPosition)
    ensures placed ==> level.bombs == old(level.bombs)[id := (level.bombSize, level.playerPosition)]
    ensures !placed ==> level.bombs == old(level.bombs)
  {
    heading := None;
    placed := false;
    ghost var b := level.Layout();
    if !moving {
      for i := 0 to KeyCount
        invariant score.moves == old(score.moves) + |AcceptedUpTo(b, location, held, i)|
        invariant heading == LastMove(AcceptedUpTo(b, location, held, i))
        invariant level.bombs == old(level.bombs)
      {
        var (code, direction) := Controls[i];
        if code in held {
          var directions := Grid.FreeDirections(level.Layout(), location);
          if direction in directions {
            heading := Some(direction);
            score.moves := score.moves + 1;
          }
        }
      }
    }
    if !spacePressed {
      return;
    }
    var position := level.playerPosition;
    var taken := BombValuesAt(level.bombs.Values, position);
    if taken {
      var v :| v in level.bombs.Values && v.1 == position;
      var e :| e in level.bombs && level.bombs[e] == v;
      assert level.bombs[e].1 == position;
      return;
    }
    forall e | e in level.bombs
      ensures level.bombs[e].1 != position
    {
      assert level.bombs[e] in level.bombs.Values;
    }
    level.PlaceBomb(id, position);
    placed := true;
  }

  /**
   * This copy's `update_level`: moved enemies are recorded with no death
   * check; when the player moved to `playerMove` it is recorded, `collision`
   * reports an enemy there (the source only prints it), and the coins there
   * are picked up as in the newer copy.
   */
  method UpdateLevel(level: Level, score: Score, enemyMoves: seq<(Entity, Position)>, playerMove: Option<Position>)
    returns (collision: bool)
    modifies level`enemyPositions, level`playerPosition, level`coinPositions, score`coins
    ensures level.enemyPositions == InsertAll(old(level.enemyPositions), enemyMoves)
    ensures collision <==> playerMove.Some? && playerMove.value in level.enemyPositions.Values
    ensures playerMove.None? ==>
      && level.playerPosition == old(level.playerPosition) && level.coinPositions == old(level.coinPositions)
      && score.coins == old(score.coins)
    ensures playerMove.Some? ==>
      var p := playerMove.value;
      && level.playerPosition == p
      && level.coinPositions == Without(old(level.coinPositions), p)
      && score.coins == old(score.coins) + |Picked(old(level.coinPositions), p)|
  {
    for i := 0 to |enemyMoves|
      invariant level.enemyPositions == InsertAll(old(level.enemyPositions), enemyMoves[..i])
      invariant level.playerPosition == old(level.playerPosition) && level.coinPositions == old(level.coinPositions)
      invariant score.coins == old(score.coins)
    {
      InsertAllPush(old(level.enemyPositions), enemyMoves, i);
      level.enemyPositions := level.enemyPositions[enemyMoves[i].0 := enemyMoves[i].1];
    }
    assert enemyMoves[..|enemyMoves|] == enemyMoves;
    collision := false;
    if playerMove.Some? {
      var location := playerMove.value;
      level.playerPosition := location;
      collision := PositionAmong(level.enemyPositions.Values, location);
      ghost var m := level.coinPositions;
      var deleted := CollectCoins(level.coinPositions, score, location);
      for i := 0 to |deleted|
        invariant forall e :: e in level.coinPositions <==> e in m && e !in deleted[..i]
        invariant forall e :: e in level.coinPositions ==> level.coinPositions[e] == m[e]
        invariant score.coins == old(score.coins) + |Picked(m, location)|
        invariant level.enemyPositions == InsertAll(old(level.enemyPositions), enemyMoves)
        invariant level.playerPosition == location
      {
        level.coinPositions := level.coinPositions - {deleted[i]};
      }
      assert deleted[..|deleted|] == deleted;
    }
  }
}
