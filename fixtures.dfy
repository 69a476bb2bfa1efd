/**
 * The map of the wall tests (`test_wall_positions` in `src/main.rs` and in
 * `src/game_plugin/level.rs`): each test builds a level from it and expects
 * 15 cells from `wall_positions` at `(0, 0)`. The map has no `o`, so
 * construction stops for want of a player before the expectation is
 * reached (the newer copy's test hands the text to a constructor that now
 * takes a level index; it is read here as construction from that text).
 * With an `o` at `(0, 0)` (and, for the newer copy, an `e` at `(1, 0)`)
 * the map builds and the wall component of `(0, 1)` has exactly 15 cells.
 */
module Fixtures {
  import opened Wrappers
  import opened Types
  import opened Grid
  import opened Walls
  import opened Parse
  import opened Legacy

  /** The lines of the tests' map, as written. */
  const WallTestLines: seq<string> :=
    ["          x", "###########", "##        #", "#         x", "*         x", "-----******"]

  /** The map with the player at `(0, 0)`: what the older copy needs. */
  const PlayerTestLines: seq<string> :=
    ["o         x", "###########", "##        #", "#         x", "*         x", "-----******"]

  /** The map with the player at `(0, 0)` and the exit at `(1, 0)`: what the newer copy needs. */
  const ExitTestLines: seq<string> :=
    ["oe        x", "###########", "##        #", "#         x", "*         x", "-----******"]

  /** A raw map text: a newline before the first line and after the last, as in the tests' raw string. */
  function MapText(lines: seq<string>): string
  {
    Join([""] + lines + [""])
  }

  /** The raw text of non-empty, newline-free lines splits back into those lines. */
  lemma MapTextLines(lines: seq<string>)
    requires forall i :: 0 <= i < |lines| ==> lines[i] != [] && '\n' !in lines[i]
    ensures Lines(MapText(lines)) == lines
  {
    var parts := [""] + lines + [""];
    SplitJoin(parts);
    NonEmptyKeepsAll(lines);
    NonEmptyDropsEmpty(lines);
  }

  lemma {:induction false} NonEmptyDropsEmpty(lines: seq<string>)
    ensures NonEmpty([""] + lines + [""]) == NonEmpty(lines)
  {
    assert ([""] + lines + [""])[1..] == lines + [""];
    NonEmptyAppend(lines);
  }

  lemma {:induction false} NonEmptyAppend(lines: seq<string>)
    ensures NonEmpty(lines + [""]) == NonEmpty(lines)
    decreases |lines|
  {
    if lines != [] {
      assert (lines + [""])[1..] == lines[1..] + [""];
      NonEmptyAppend(lines[1..]);
    } else {
      assert [""][1..] == [];
    }
  }

  /** Which character each cell of the three maps holds. */
  lemma TestCells(z: nat, x: nat)
    requires z < 6 && x < 11
    ensures |WallTestLines| == |PlayerTestLines| == |ExitTestLines| == 6
    ensures |WallTestLines[z]| == |PlayerTestLines[z]| == |ExitTestLines[z]| == 11
    ensures PlayerTestLines[z][x] == if z == 0 && x == 0 then 'o' else WallTestLines[z][x]
    ensures ExitTestLines[z][x] == if z == 0 && x == 1 then 'e' else PlayerTestLines[z][x]
    ensures WallTestLines[z][x] ==
      if z == 0 then (if x == 10 then 'x' else ' ')
      else if z == 1 then '#'
      else if z == 2 then (if x < 2 || x == 10 then '#' else ' ')
      else if z == 3 then (if x == 0 then '#' else if x == 10 then 'x' else ' ')
      else if z == 4 then (if x == 0 then '*' else if x == 10 then 'x' else ' ')
      else (if x < 5 then '-' else '*')
  {
  }

  /** One of the three maps. */
  predicate TestMap(lines: seq<string>)
  {
    lines == WallTestLines || lines == PlayerTestLines || lines == ExitTestLines
  }

  /** Each map has six lines of eleven known characters and no newline. */
  lemma TestMapShape(lines: seq<string>)
    requires TestMap(lines)
    ensures |lines| == 6 && forall i :: 0 <= i < 6 ==> |lines[i]| == 11 && '\n' !in lines[i]
    ensures Known(lines)
  {
    forall i | 0 <= i < 6
      ensures |lines[i]| == 11 && '\n' !in lines[i]
    {
      TestCells(i, 0);
      if '\n' in lines[i] {
        var x :| 0 <= x < 11 && lines[i][x] == '\n';
        TestCells(i, x);
      }
    }
    forall z, x | 0 <= z < 6 && 0 <= x < 11
      ensures FromChar(lines[z][x]).Some?
    {
      TestCells(z, x);
    }
  }

  /** Where the `o` and `e` characters of each map are. */
  lemma TestMapMarks(lines: seq<string>)
    requires TestMap(lines)
    ensures HasChar(lines, 'o') <==> lines != WallTestLines
    ensures HasChar(lines, 'e') <==> lines == ExitTestLines
    ensures lines != WallTestLines ==> LastCharAt(lines, 'o', Position(0, 0))
    ensures lines == ExitTestLines ==> LastCharAt(lines, 'e', Position(1, 0))
  {
    TestMapShape(lines);
    forall z, x | 0 <= z < 6 && 0 <= x < 11
      ensures lines[z][x] == 'o' <==> lines != WallTestLines && z == 0 && x == 0
      ensures lines[z][x] == 'e' <==> lines == ExitTestLines && z == 0 && x == 1
    {
      MarkAt(lines, z, x);
    }
    MarkAt(lines, 0, 0);
    MarkAt(lines, 0, 1);
  }

  /** The only `o` is at `(0, 0)` and the only `e` at `(1, 0)`, where the map has them. */
  lemma MarkAt(lines: seq<string>, z: nat, x: nat)
    requires TestMap(lines) && z < 6 && x < 11
    ensures lines[z][x] == 'o' <==> lines != WallTestLines && z == 0 && x == 0
    ensures lines[z][x] == 'e' <==> lines == ExitTestLines && z == 0 && x == 1
  {
    TestCells(z, x);
  }

  /**
   * The tests as written: their map has no `o`, so construction stops with
   * `MissingPlayer` in both copies before the wall search the tests mean to
   * check.
   */
  lemma WallTestPanics()
    ensures ParseLegacy(MapText(WallTestLines)) == Failure(MissingPlayer)
    ensures ParseLevel(MapText(WallTestLines)) == Failure(MissingPlayer)
  {
    TestMapShape(WallTestLines);
    TestMapMarks(WallTestLines);
    MapTextLines(WallTestLines);
    LegacyParseOutcome(MapText(WallTestLines));
    ParseLevelOutcome(MapText(WallTestLines));
  }

  /** The board a map decodes to. */
  function BoardOf(lines: seq<string>): Board
  {
    Board(Position(11, 6), match DecodeRows(lines, FromChar) case Success(rows) => rows case Failure(_) => [])
  }

  /** Each map decodes to a valid board whose cells are its characters decoded. */
  lemma BoardCells(lines: seq<string>)
    requires TestMap(lines)
    ensures BoardOf(lines).Valid()
    ensures forall z, x :: 0 <= z < 6 && 0 <= x < 11 ==> BoardOf(lines).rows[z][x].kind == FromChar(lines[z][x]).value
  {
    TestMapShape(lines);
    ParseUnknown(lines);
    DecodedCells(lines);
  }

  /** The corrected map builds in the older copy, with the player at `(0, 0)`. */
  lemma PlayerTestParses()
    ensures ParseLegacy(MapText(PlayerTestLines)) == Success(LegacyParsed(BoardOf(PlayerTestLines), Position(0, 0)))
  {
    var lines, data := PlayerTestLines, MapText(PlayerTestLines);
    TestMapShape(lines);
    TestMapMarks(lines);
    MapTextLines(lines);
    LegacyParseOutcome(data);
    ParseLevelOutcome(data);
    var p := ParseLegacy(data).value.player;
    MarkAt(lines, p.z, p.x);
    TestCells(5, 0);
  }

  /** The corrected map builds in the newer copy, with the player at `(0, 0)` and the exit at `(1, 0)`. */
  lemma ExitTestParses()
    ensures ParseLevel(MapText(ExitTestLines)) == Success(Parsed(BoardOf(ExitTestLines), Position(0, 0), Position(1, 0)))
  {
    var lines, data := ExitTestLines, MapText(ExitTestLines);
    TestMapShape(lines);
    TestMapMarks(lines);
    MapTextLines(lines);
    ParseLevelOutcome(data);
    var r := ParseLevel(data).value;
    MarkAt(lines, r.player.z, r.player.x);
    MarkAt(lines, r.ending.z, r.ending.x);
    TestCells(5, 0);
  }

  /** The cells the wall search grows through on the corrected maps: the `#` and `-` cells. */
  predicate TestWall(q: Position)
  {
    q.x < 11 && q.z < 6 && (q.z == 1 || (q.z == 2 && (q.x < 2 || q.x == 10)) || (q.z == 3 && q.x == 0) || (q.z == 5 && q.x < 5))
  }

  /** `b` is connected like the corrected maps: its connecting walls are exactly the `TestWall` cells. */
  ghost predicate WallsLikeTest(b: Board)
    requires b.Valid()
  {
    forall q :: Connects(b, q) <==> TestWall(q)
  }

  lemma BoardCellAt(lines: seq<string>, z: nat, x: nat)
    requires TestMap(lines) && z < 6 && x < 11
    ensures BoardOf(lines).Valid() && BoardOf(lines).rows[z][x].kind == FromChar(lines[z][x]).value
  {
    BoardCells(lines);
  }

  /** A cell of a map holds `#` or `-` exactly at a test wall, and never `|`. */
  lemma WallCharAt(lines: seq<string>, z: nat, x: nat)
    requires TestMap(lines) && z < 6 && x < 11
    ensures lines[z][x] != '|'
    ensures lines[z][x] == '#' || lines[z][x] == '-' <==> TestWall(Position(x, z))
  {
    TestCells(z, x);
  }

  lemma TestConnects(lines: seq<string>, q: Position)
    requires TestMap(lines)
    ensures BoardOf(lines).Valid()
    ensures Connects(BoardOf(lines), q) <==> TestWall(q)
  {
    var b := BoardOf(lines);
    if q.x < 11 && q.z < 6 {
      BoardCellAt(lines, q.z, q.x);
      WallCharAt(lines, q.z, q.x);
      var c, k := lines[q.z][q.x], b.rows[q.z][q.x].kind;
      assert Connects(b, q) <==> k == WallBig || k == WallSmallH;
      assert FromChar(c).Some? && k == FromChar(c).value;
      assert k == WallBig || k == WallSmallH <==> c == '#' || c == '-';
    } else {
      BoardCellAt(lines, 0, 0);
    }
  }

  /** Each map's board has the walls of the test. */
  lemma TestBoardWalls(lines: seq<string>)
    requires TestMap(lines)
    ensures BoardOf(lines).Valid() && WallsLikeTest(BoardOf(lines))
  {
    forall q
      ensures BoardOf(lines).Valid() && (Connects(BoardOf(lines), q) <==> TestWall(q))
    {
      TestConnects(lines, q);
    }
    TestConnects(lines, Position(0, 0));
  }

  /** The 15 cells the tests expect: row 1, then columns 0, 1 and 10 of row 2, then column 0 of row 3. */
  function Expected(): seq<Position>
  {
    seq(11, i requires 0 <= i < 11 => Position(i, 1)) + [Position(0, 2), Position(1, 2), Position(10, 2), Position(0, 3)]
  }

  lemma ExpectedAt(i: nat)
    requires i < 15
    ensures |Expected()| == 15
    ensures Expected()[i] ==
      if i < 11 then Position(i, 1)
      else if i == 11 then Position(0, 2)
      else if i == 12 then Position(1, 2)
      else if i == 13 then Position(10, 2)
      else Position(0, 3)
  {
  }

  /** A cell is expected exactly when it is a test wall above row 4. */
  lemma ExpectedMembers(q: Position)
    ensures q in Expected() <==> TestWall(q) && q.z < 4
  {
    var r := Expected();
    if q in r {
      var i :| 0 <= i < |r| && r[i] == q;
      ExpectedAt(i);
    } else if TestWall(q) && q.z < 4 {
      var i := if q.z == 1 then q.x else if q.z == 3 then 14 else if q.x == 0 then 11 else if q.x == 1 then 12 else 13;
      ExpectedAt(i);
    }
  }

  lemma ExpectedDistinct()
    ensures Distinct(Expected())
  {
    var r := Expected();
    forall i, j | 0 <= i < j < |r|
      ensures r[i] != r[j]
    {
      ExpectedAt(i);
      ExpectedAt(j);
    }
  }

  lemma ExpectedAttached(b: Board)
    requires b.Valid() && WallsLikeTest(b)
    ensures Attached(b, Expected())
  {
    var r := Expected();
    forall i | 0 < i < |r|
      ensures Connects(b, r[i]) && exists j :: 0 <= j < i && Adjacent(r[j], r[i])
    {
      var j := if i < 11 then i - 1 else if i == 11 then 0 else if i == 12 then 1 else if i == 13 then 10 else 11;
      ExpectedAt(i);
      ExpectedAt(j);
      assert Adjacent(r[j], r[i]);
    }
  }

  /** A wall next to an expected cell is expected. */
  lemma ExpectedClosed(q: Position, i: nat)
    requires i < 15 && Adjacent(Expected()[i], q) && TestWall(q)
    ensures q in Expected()
  {
    ExpectedAt(i);
    ExpectedMembers(q);
  }

  /** On a board walled like the tests, the expected cells are the wall component of `(0, 1)`. */
  lemma ExpectedIsComponent(b: Board)
    requires b.Valid() && WallsLikeTest(b)
    ensures Component(b, Position(0, 1), Expected())
  {
    var r := Expected();
    ExpectedDistinct();
    ExpectedAttached(b);
    ExpectedAt(0);
    forall q, i | 0 <= i < |r| && Adjacent(r[i], q) && Connects(b, q)
      ensures q in r
    {
      ExpectedClosed(q, i);
    }
  }

  /**
   * What the tests mean to check, on a corrected map: the seed `(0, 1)`
   * below the player is a wall, so `wall_positions((0, 0))` is not empty,
   * and every list it may return (a component of the seed) has 15 cells.
   */
  lemma TestWallCount(lines: seq<string>, r: seq<Position>)
    requires TestMap(lines) && BoardOf(lines).Valid() && Component(BoardOf(lines), Seed(Position(0, 0)), r)
    ensures |r| == 15
    ensures var b, s := BoardOf(lines), Seed(Position(0, 0)); b.InBounds(s.x, s.z) && b.rows[s.z][s.x].kind.IsWall()
  {
    var b := BoardOf(lines);
    TestBoardWalls(lines);
    ExpectedIsComponent(b);
    ComponentUnique(b, Position(0, 1), Expected(), r);
    BoardCells(lines);
    TestCells(1, 0);
  }
}
