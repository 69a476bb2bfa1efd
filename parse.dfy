/**
 * Parsing an ASCII level map (`Level::new`, `src/game_plugin/level.rs`):
 * the text is split into lines, blank lines are dropped, and each character
 * of line `z`, column `x` becomes the block at `Position(x, z)`.
 */
module Parse {
  import opened Wrappers
  import opened Types
  import opened Grid

  // ---------------------------------------------------------------------------
  // Lines
  // ---------------------------------------------------------------------------

  /** `str::split('\n')`: the pieces between newlines; always at least one, possibly empty. */
  function Split(s: string): (r: seq<string>)
    ensures |r| >= 1
    ensures forall i :: 0 <= i < |r| ==> '\n' !in r[i]
  {
    if s == [] then [[]]
    else
      var t := Split(s[1..]);
      if s[0] == '\n' then [[]] + t else [[s[0]] + t[0]] + t[1..]
  }

  /** The pieces put back together with a newline between each two. */
  function Join(parts: seq<string>): string
    requires |parts| >= 1
  {
    if |parts| == 1 then parts[0] else parts[0] + "\n" + Join(parts[1..])
  }

  /** Splitting loses nothing: joining the pieces gives the text back. */
  lemma {:induction false} JoinSplit(s: string)
    ensures Join(Split(s)) == s
  {
    if s != [] {
      JoinSplit(s[1..]);
      var t := Split(s[1..]);
      if s[0] != '\n' && |t| > 1 {
        assert Join(t) == t[0] + "\n" + Join(t[1..]);
        assert ([[s[0]] + t[0]] + t[1..])[1..] == t[1..];
      }
    }
  }

  /** Splitting a newline-free prefix glues it onto the first piece. */
  lemma {:induction false} SplitPrefix(a: string, rest: string)
    requires '\n' !in a
    ensures Split(a + rest) == [a + Split(rest)[0]] + Split(rest)[1..]
    decreases |a|
  {
    if a != [] {
      assert (a + rest)[1..] == a[1..] + rest;
      SplitPrefix(a[1..], rest);
      assert [a[0]] + (a[1..] + Split(rest)[0]) == a + Split(rest)[0];
    } else {
      var t := Split(rest);
      assert a + rest == rest && a + t[0] == t[0];
      assert t == [t[0]] + t[1..];
    }
  }

  /** Newline-free pieces survive joining and splitting again. */
  lemma {:induction false} SplitJoin(parts: seq<string>)
    requires |parts| >= 1 && forall i :: 0 <= i < |parts| ==> '\n' !in parts[i]
    ensures Split(Join(parts)) == parts
  {
    if |parts| == 1 {
      SplitPrefix(parts[0], []);
      assert parts[0] + [] == parts[0];
    } else {
      var rest := Join(parts[1..]);
      SplitJoin(parts[1..]);
      assert Join(parts) == parts[0] + ("\n" + rest);
      SplitPrefix(parts[0], "\n" + rest);
      assert ("\n" + rest)[1..] == rest;
      assert Split("\n" + rest) == [[]] + parts[1..];
      assert parts[0] + [] == parts[0];
      assert parts == [parts[0]] + parts[1..];
    }
  }

  /** `.filter(|e| !e.is_empty())`: the non-empty pieces, in order. */
  function NonEmpty(parts: seq<string>): (r: seq<string>)
    ensures |r| <= |parts|
    ensures forall i :: 0 <= i < |r| ==> r[i] != [] && r[i] in parts
    ensures forall i :: 0 <= i < |parts| && parts[i] != [] ==> parts[i] in r
  {
    if parts == [] then []
    else if parts[0] == [] then NonEmpty(parts[1..])
    else [parts[0]] + NonEmpty(parts[1..])
  }

  /**
   * The filter works piece by piece and keeps order: filtering a
   * concatenation filters each part, and a single piece is kept exactly when
   * it is non-empty. Together with `NonEmpty([]) == []` this pins the result
   * down to the subsequence of non-empty pieces, each as often as it occurs.
   */
  lemma {:induction false} NonEmptyConcat(a: seq<string>, b: seq<string>)
    ensures NonEmpty(a + b) == NonEmpty(a) + NonEmpty(b)
    ensures forall p :: NonEmpty([p]) == if p == [] then [] else [p]
  {
    if a == [] {
      assert a + b == b;
    } else {
      assert (a + b)[0] == a[0] && (a + b)[1..] == a[1..] + b;
      NonEmptyConcat(a[1..], b);
    }
    forall p
      ensures NonEmpty([p]) == if p == [] then [] else [p]
    {
      assert [p][1..] == [];
    }
  }

  /** The kept lines of a level text. */
  function Lines(data: string): seq<string>
  {
    NonEmpty(Split(data))
  }

  /** Kept lines are non-empty and hold no newline. */
  lemma LinesShape(data: string)
    ensures forall i :: 0 <= i < |Lines(data)| ==> Lines(data)[i] != [] && '\n' !in Lines(data)[i]
  {
  }

  /** Lines that are non-empty and newline-free come back unchanged from their joined text. */
  lemma LinesOfJoin(lines: seq<string>)
    requires |lines| >= 1 && forall i :: 0 <= i < |lines| ==> lines[i] != [] && '\n' !in lines[i]
    ensures Lines(Join(lines)) == lines
  {
    SplitJoin(lines);
    NonEmptyKeepsAll(lines);
  }

  lemma {:induction false} NonEmptyKeepsAll(parts: seq<string>)
    requires forall i :: 0 <= i < |parts| ==> parts[i] != []
    ensures NonEmpty(parts) == parts
  {
    if parts != [] {
      NonEmptyKeepsAll(parts[1..]);
    }
  }

  // ---------------------------------------------------------------------------
  // Decoding
  // ---------------------------------------------------------------------------

  /** Why construction panics: an unknown character, no `o` cell, no `e` cell. */
  datatype ParseError = UnknownChar(c: char) | MissingPlayer | MissingExit

  /**
   * The blocks of line `z`, decoded through `legend` from left to right: the
   * `x`-th character becomes the block at `Position(x, z)`; the first
   * character the legend does not know is the error.
   */
  function DecodeRow(line: string, z: nat, legend: char -> Option<BlockType>): Result<seq<Block>, ParseError>
    decreases |line|
  {
    if line == [] then Success([])
    else
      var n := |line| - 1;
      match DecodeRow(line[..n], z, legend)
      case Failure(e) => Failure(e)
      case Success(cells) =>
        match legend(line[n])
        case None => Failure(UnknownChar(line[n]))
        case Some(k) => Success(cells + [Block(k, Position(n, z))])
  }

  /** `line[i]` is the first character of `line` that `legend` does not know. */
  predicate FirstUnknown(line: string, legend: char -> Option<BlockType>, i: nat)
    requires i < |line|
  {
    legend(line[i]).None? && forall j :: 0 <= j < i ==> legend(line[j]).Some?
  }

  /** A decoded row succeeds exactly when every character is known, and then holds one block per character at its own column. */
  lemma {:induction false} DecodeRowSuccess(line: string, z: nat, legend: char -> Option<BlockType>)
    ensures DecodeRow(line, z, legend).Success? <==> forall i :: 0 <= i < |line| ==> legend(line[i]).Some?
    ensures DecodeRow(line, z, legend).Success? ==>
      var cells := DecodeRow(line, z, legend).value;
      |cells| == |line| && forall i :: 0 <= i < |line| ==> cells[i] == Block(legend(line[i]).value, Position(i, z))
    decreases |line|
  {
    if line != [] {
      var n := |line| - 1;
      DecodeRowSuccess(line[..n], z, legend);
      assert forall i :: 0 <= i < n ==> line[..n][i] == line[i];
    }
  }

  /** A row that fails to decode reports its first unknown character. */
  lemma {:induction false} DecodeRowFailure(line: string, z: nat, legend: char -> Option<BlockType>)
    requires DecodeRow(line, z, legend).Failure?
    ensures exists i :: 0 <= i < |line| && FirstUnknown(line, legend, i) && DecodeRow(line, z, legend).error == UnknownChar(line[i])
    decreases |line|
  {
    var n := |line| - 1;
    assert forall i :: 0 <= i < n ==> line[..n][i] == line[i];
    if DecodeRow(line[..n], z, legend).Failure? {
      DecodeRowFailure(line[..n], z, legend);
      var i :| 0 <= i < n && FirstUnknown(line[..n], legend, i) && DecodeRow(line[..n], z, legend).error == UnknownChar(line[..n][i]);
      assert FirstUnknown(line, legend, i);
    } else {
      DecodeRowSuccess(line[..n], z, legend);
      assert FirstUnknown(line, legend, n);
    }
  }

  /** Every line decoded in order; the error is the one of the first line that fails. */
  function DecodeRows(lines: seq<string>, legend: char -> Option<BlockType>): Result<seq<seq<Block>>, ParseError>
    decreases |lines|
  {
    if lines == [] then Success([])
    else
      var n := |lines| - 1;
      match DecodeRows(lines[..n], legend)
      case Failure(e) => Failure(e)
      case Success(rows) =>
        match DecodeRow(lines[n], n, legend)
        case Failure(e) => Failure(e)
        case Success(row) => Success(rows + [row])
  }

  /** Line `z` is the first line that fails to decode. */
  predicate FirstFailing(lines: seq<string>, legend: char -> Option<BlockType>, z: nat)
    requires z < |lines|
  {
    DecodeRow(lines[z], z, legend).Failure? && forall y :: 0 <= y < z ==> DecodeRow(lines[y], y, legend).Success?
  }

  /** All lines decode exactly when each does, and then row `z` is line `z` decoded. */
  lemma {:induction false} DecodeRowsSuccess(lines: seq<string>, legend: char -> Option<BlockType>)
    ensures DecodeRows(lines, legend).Success? <==> forall z :: 0 <= z < |lines| ==> DecodeRow(lines[z], z, legend).Success?
    ensures DecodeRows(lines, legend).Success? ==>
      var rows := DecodeRows(lines, legend).value;
      |rows| == |lines| && forall z :: 0 <= z < |lines| ==> rows[z] == DecodeRow(lines[z], z, legend).value
    decreases |lines|
  {
    if lines != [] {
      var n := |lines| - 1;
      DecodeRowsSuccess(lines[..n], legend);
      assert forall z :: 0 <= z < n ==> lines[..n][z] == lines[z];
    }
  }

  /** Decoding the lines fails with the error of the first line that fails. */
  lemma {:induction false} DecodeRowsFailure(lines: seq<string>, legend: char -> Option<BlockType>)
    requires DecodeRows(lines, legend).Failure?
    ensures exists z :: 0 <= z < |lines| && FirstFailing(lines, legend, z) && DecodeRows(lines, legend).error == DecodeRow(lines[z], z, legend).error
    decreases |lines|
  {
    var n := |lines| - 1;
    assert forall z :: 0 <= z < n ==> lines[..n][z] == lines[z];
    if DecodeRows(lines[..n], legend).Failure? {
      DecodeRowsFailure(lines[..n], legend);
      var z :| 0 <= z < n && FirstFailing(lines[..n], legend, z) && DecodeRows(lines[..n], legend).error == DecodeRow(lines[..n][z], z, legend).error;
      assert FirstFailing(lines, legend, z);
    } else {
      DecodeRowsSuccess(lines[..n], legend);
      assert FirstFailing(lines, legend, n);
    }
  }

  // ---------------------------------------------------------------------------
  // Player and exit tracking
  // ---------------------------------------------------------------------------

  /** The position of the last block of kind `k` in `row`, if any (the tracker is overwritten at every match). */
  function LastOf(row: seq<Block>, k: BlockType): Option<Position>
  {
    if row == [] then None
    else if row[|row| - 1].kind == k then Some(row[|row| - 1].levelPosition)
    else LastOf(row[..|row| - 1], k)
  }

  /** The position of the last block of kind `k` in row-major order, if any. */
  function LastIn(rows: seq<seq<Block>>, k: BlockType): Option<Position>
  {
    if rows == [] then None
    else
      match LastOf(rows[|rows| - 1], k)
      case Some(p) => Some(p)
      case None => LastIn(rows[..|rows| - 1], k)
  }

  /** No block of kind `k` comes after row `z`, column `x` in row-major order. */
  predicate NoneAfter(rows: seq<seq<Block>>, k: BlockType, z: nat, x: nat)
  {
    forall y, i :: 0 <= y < |rows| && 0 <= i < |rows[y]| && (y > z || (y == z && i > x)) ==> rows[y][i].kind != k
  }

  /** `LastOf` finds the last block of kind `k` in a row, and nothing only when there is none. */
  lemma {:induction false} LastOfSpec(row: seq<Block>, k: BlockType)
    ensures LastOf(row, k).None? <==> forall i :: 0 <= i < |row| ==> row[i].kind != k
    ensures LastOf(row, k).Some? ==> exists i :: 0 <= i < |row| && row[i].kind == k && row[i].levelPosition == LastOf(row, k).value && forall j :: i < j < |row| ==> row[j].kind != k
    decreases |row|
  {
    if row != [] {
      var n := |row| - 1;
      LastOfSpec(row[..n], k);
      assert forall i :: 0 <= i < n ==> row[..n][i] == row[i];
      if row[n].kind != k && LastOf(row, k).Some? {
        var i :| 0 <= i < n && row[..n][i].kind == k && row[..n][i].levelPosition == LastOf(row, k).value && forall j :: i < j < n ==> row[..n][j].kind != k;
        assert forall j :: i < j < |row| ==> row[j].kind != k;
      }
    }
  }

  /** `LastIn` finds the last block of kind `k` in row-major order, and nothing only when there is none. */
  lemma {:induction false} LastInSpec(rows: seq<seq<Block>>, k: BlockType)
    ensures LastIn(rows, k).None? <==> forall z, x :: 0 <= z < |rows| && 0 <= x < |rows[z]| ==> rows[z][x].kind != k
    ensures LastIn(rows, k).Some? ==> exists z, x :: 0 <= z < |rows| && 0 <= x < |rows[z]| && rows[z][x].kind == k && rows[z][x].levelPosition == LastIn(rows, k).value && NoneAfter(rows, k, z, x)
    decreases |rows|
  {
    if rows != [] {
      var n := |rows| - 1;
      var front := rows[..n];
      LastInSpec(front, k);
      LastOfSpec(rows[n], k);
      assert forall z :: 0 <= z < n ==> front[z] == rows[z];
      if LastOf(rows[n], k).Some? {
        var x :| 0 <= x < |rows[n]| && rows[n][x].kind == k && rows[n][x].levelPosition == LastOf(rows[n], k).value && forall j :: x < j < |rows[n]| ==> rows[n][j].kind != k;
        assert NoneAfter(rows, k, n, x);
      } else if LastIn(rows, k).Some? {
        var z, x :| 0 <= z < n && 0 <= x < |front[z]| && front[z][x].kind == k && front[z][x].levelPosition == LastIn(rows, k).value && NoneAfter(front, k, z, x);
        assert NoneAfter(rows, k, z, x);
      }
    }
  }

  // ---------------------------------------------------------------------------
  // The whole map
  // ---------------------------------------------------------------------------

  /** `x_size`: overwritten at every line, so the length of the last line (0 for no lines). */
  function Width(lines: seq<string>): nat
  {
    if lines == [] then 0 else |lines[|lines| - 1]|
  }

  /** Maps the board's `as i8` lookups and `rows[az][ax]` indexing can handle: equal-length lines, fewer than 127 each way. */
  predicate Rectangular(lines: seq<string>)
  {
    |lines| < 127 && Width(lines) < 127 && forall z :: 0 <= z < |lines| ==> |lines[z]| == Width(lines)
  }

  /** Every character of the map is in the legend. */
  predicate Known(lines: seq<string>)
  {
    forall z, x :: 0 <= z < |lines| && 0 <= x < |lines[z]| ==> FromChar(lines[z][x]).Some?
  }

  /** The map holds the character `c` somewhere. */
  predicate HasChar(lines: seq<string>, c: char)
  {
    exists z, x :: 0 <= z < |lines| && 0 <= x < |lines[z]| && lines[z][x] == c
  }

  /** `p` is the last cell holding `c` in row-major order. */
  predicate LastCharAt(lines: seq<string>, c: char, p: Position)
  {
    && p.z < |lines| && p.x < |lines[p.z]| && lines[p.z][p.x] == c
    && forall z, x :: 0 <= z < |lines| && 0 <= x < |lines[z]| && (z > p.z || (z == p.z && x > p.x)) ==> lines[z][x] != c
  }

  /** The cell at row `z`, column `x` is the first unknown character in row-major order. */
  predicate FirstUnknownCell(lines: seq<string>, z: nat, x: nat)
  {
    && z < |lines| && x < |lines[z]| && FromChar(lines[z][x]).None?
    && forall y, i :: 0 <= y < |lines| && 0 <= i < |lines[y]| && (y < z || (y == z && i < x)) ==> FromChar(lines[y][i]).Some?
  }

  /** What construction produces: the board and the tracked player and exit cells. */
  datatype Parsed = Parsed(board: Board, player: Position, ending: Position)

  /**
   * The outcome of `Level::new` on a map text: the decoded board with
   * `size == (length of the last line, number of lines)` and the last `o`
   * and `e` cells, or the panic that stops it.
   */
  function ParseLevel(data: string): Result<Parsed, ParseError>
  {
    var lines := Lines(data);
    match DecodeRows(lines, FromChar)
    case Failure(e) => Failure(e)
    case Success(rows) =>
      match (LastIn(rows, Player), LastIn(rows, Exit))
      case (None, _) => Failure(MissingPlayer)
      case (_, None) => Failure(MissingExit)
      case (Some(p), Some(q)) => Success(Parsed(Board(Position(Width(lines), |lines|), rows), p, q))
  }

  /** Successfully decoded rows hold, at row `z`, column `x`, the block of `lines[z][x]` at `Position(x, z)`. */
  lemma DecodedCells(lines: seq<string>)
    requires DecodeRows(lines, FromChar).Success?
    ensures Known(lines)
    ensures var rows := DecodeRows(lines, FromChar).value;
      && |rows| == |lines|
      && (forall z :: 0 <= z < |lines| ==> |rows[z]| == |lines[z]|)
      && forall z, x :: 0 <= z < |lines| && 0 <= x < |lines[z]| ==> rows[z][x] == Block(FromChar(lines[z][x]).value, Position(x, z))
  {
    DecodeRowsSuccess(lines, FromChar);
    forall z | 0 <= z < |lines|
      ensures DecodeRow(lines[z], z, FromChar).Success?
      ensures |DecodeRow(lines[z], z, FromChar).value| == |lines[z]|
      ensures forall x :: 0 <= x < |lines[z]| ==> FromChar(lines[z][x]).Some? && DecodeRow(lines[z], z, FromChar).value[x] == Block(FromChar(lines[z][x]).value, Position(x, z))
    {
      DecodeRowSuccess(lines[z], z, FromChar);
    }
  }

  /** The map decodes exactly when every character is in the legend; otherwise the error names the first unknown one in row-major order. */
  lemma ParseUnknown(lines: seq<string>)
    ensures DecodeRows(lines, FromChar).Success? <==> Known(lines)
    ensures DecodeRows(lines, FromChar).Failure? ==>
      exists z: nat, x: nat :: FirstUnknownCell(lines, z, x) && DecodeRows(lines, FromChar).error == UnknownChar(lines[z][x])
  {
    DecodeRowsSuccess(lines, FromChar);
    forall z | 0 <= z < |lines|
      ensures DecodeRow(lines[z], z, FromChar).Success? <==> forall x :: 0 <= x < |lines[z]| ==> FromChar(lines[z][x]).Some?
    {
      DecodeRowSuccess(lines[z], z, FromChar);
    }
    if DecodeRows(lines, FromChar).Failure? {
      DecodeRowsFailure(lines, FromChar);
      var z :| 0 <= z < |lines| && FirstFailing(lines, FromChar, z) && DecodeRows(lines, FromChar).error == DecodeRow(lines[z], z, FromChar).error;
      DecodeRowFailure(lines[z], z, FromChar);
      var x :| 0 <= x < |lines[z]| && FirstUnknown(lines[z], FromChar, x) && DecodeRow(lines[z], z, FromChar).error == UnknownChar(lines[z][x]);
      assert FirstUnknownCell(lines, z, x);
    }
  }

  /** In a decoded map, the last block of a kind sits at the last cell holding that kind's legend character. */
  lemma LastInDecoded(lines: seq<string>, k: BlockType)
    requires DecodeRows(lines, FromChar).Success?
    ensures var r := LastIn(DecodeRows(lines, FromChar).value, k);
      && (r.None? <==> !HasChar(lines, Symbol(k)))
      && (r.Some? ==> LastCharAt(lines, Symbol(k), r.value))
  {
    var rows := DecodeRows(lines, FromChar).value;
    DecodedCells(lines);
    LastInSpec(rows, k);
    forall z, x | 0 <= z < |lines| && 0 <= x < |lines[z]|
      ensures rows[z][x].kind == k <==> lines[z][x] == Symbol(k)
    {
      SymbolRoundTrip(k);
    }
    if LastIn(rows, k).Some? {
      var z, x :| 0 <= z < |rows| && 0 <= x < |rows[z]| && rows[z][x].kind == k && rows[z][x].levelPosition == LastIn(rows, k).value && NoneAfter(rows, k, z, x);
      assert LastCharAt(lines, Symbol(k), Position(x, z));
    }
  }

  /**
   * Construction fails on the first unknown character; with a known map it
   * fails for want of an `o` before it looks for an `e`; otherwise the player
   * and exit are the last `o` and the last `e` in row-major order.
   */
  lemma ParseLevelOutcome(data: string)
    ensures var lines, r := Lines(data), ParseLevel(data);
      && ((r.Failure? && r.error.UnknownChar?) <==> !Known(lines))
      && (r == Failure(MissingPlayer) <==> Known(lines) && !HasChar(lines, 'o'))
      && (r == Failure(MissingExit) <==> Known(lines) && HasChar(lines, 'o') && !HasChar(lines, 'e'))
      && (r.Success? <==> Known(lines) && HasChar(lines, 'o') && HasChar(lines, 'e'))
      && (r.Success? ==> LastCharAt(lines, 'o', r.value.player) && LastCharAt(lines, 'e', r.value.ending))
  {
    var lines := Lines(data);
    ParseUnknown(lines);
    if DecodeRows(lines, FromChar).Success? {
      LastInDecoded(lines, Player);
      LastInDecoded(lines, Exit);
    }
  }

  /**
   * A constructed board has `size == (length of the last line, number of
   * lines)` and holds, at row `z`, column `x`, the decoded character with
   * `level_position == (x, z)`; for a rectangular map it is a valid board.
   */
  lemma ParseLevelBoard(data: string)
    requires ParseLevel(data).Success?
    ensures var lines, b := Lines(data), ParseLevel(data).value.board;
      && b.size == Position(Width(lines), |lines|)
      && |b.rows| == |lines|
      && (forall z :: 0 <= z < |lines| ==> |b.rows[z]| == |lines[z]|)
      && Known(lines)
      && (forall z, x :: 0 <= z < |lines| && 0 <= x < |lines[z]| ==> b.rows[z][x] == Block(FromChar(lines[z][x]).value, Position(x, z)))
      && (Rectangular(lines) ==> b.Valid())
  {
    DecodedCells(Lines(data));
  }

  /** Once a prefix of a line fails to decode, the whole line fails the same way. */
  lemma {:induction false} DecodeRowFailed(line: string, z: nat, legend: char -> Option<BlockType>, j: nat)
    requires j <= |line| && DecodeRow(line[..j], z, legend).Failure?
    ensures DecodeRow(line, z, legend) == DecodeRow(line[..j], z, legend)
    decreases |line| - j
  {
    if j < |line| {
      assert line[..j + 1][..j] == line[..j];
      DecodeRowFailed(line, z, legend, j + 1);
    } else {
      assert line[..j] == line;
    }
  }

  /** Once the first lines fail to decode, the whole map fails the same way. */
  lemma {:induction false} DecodeRowsFailed(lines: seq<string>, legend: char -> Option<BlockType>, j: nat)
    requires j <= |lines| && DecodeRows(lines[..j], legend).Failure?
    ensures DecodeRows(lines, legend) == DecodeRows(lines[..j], legend)
    decreases |lines| - j
  {
    if j < |lines| {
      assert lines[..j + 1][..j] == lines[..j];
      DecodeRowsFailed(lines, legend, j + 1);
    } else {
      assert lines[..j] == lines;
    }
  }

  /** Decoding one more known character appends its block, at its own column, to the decoded prefix. */
  lemma DecodeRowStep(line: string, z: nat, legend: char -> Option<BlockType>, x: nat)
    requires x < |line| && DecodeRow(line[..x], z, legend).Success? && legend(line[x]).Some?
    ensures DecodeRow(line[..x + 1], z, legend) == Success(DecodeRow(line[..x], z, legend).value + [Block(legend(line[x]).value, Position(x, z))])
  {
    assert line[..x + 1][..x] == line[..x];
  }

  /** The first unknown character after a decodable prefix is the error of the whole line. */
  lemma DecodeRowStop(line: string, z: nat, legend: char -> Option<BlockType>, x: nat)
    requires x < |line| && DecodeRow(line[..x], z, legend).Success? && legend(line[x]).None?
    ensures DecodeRow(line, z, legend) == Failure(UnknownChar(line[x]))
  {
    assert line[..x + 1][..x] == line[..x];
    DecodeRowFailed(line, z, legend, x + 1);
  }

  /** Decoding one more decodable line appends its row to the decoded prefix, and that line now sets the width. */
  lemma DecodeRowsStep(lines: seq<string>, legend: char -> Option<BlockType>, z: nat)
    requires z < |lines| && DecodeRows(lines[..z], legend).Success? && DecodeRow(lines[z], z, legend).Success?
    ensures DecodeRows(lines[..z + 1], legend) == Success(DecodeRows(lines[..z], legend).value + [DecodeRow(lines[z], z, legend).value])
    ensures Width(lines[..z + 1]) == |lines[z]|
  {
    assert lines[..z + 1][..z] == lines[..z];
  }

  /** The first line that fails after a decodable prefix decides the error of the whole map. */
  lemma DecodeRowsStop(lines: seq<string>, legend: char -> Option<BlockType>, z: nat)
    requires z < |lines| && DecodeRows(lines[..z], legend).Success? && DecodeRow(lines[z], z, legend).Failure?
    ensures DecodeRows(lines, legend) == Failure(DecodeRow(lines[z], z, legend).error)
  {
    assert lines[..z + 1][..z] == lines[..z];
    DecodeRowsFailed(lines, legend, z + 1);
  }

  /** Appending a block moves the tracker of its kind onto it and leaves the other trackers alone. */
  lemma LastOfPush(row: seq<Block>, c: Block, k: BlockType)
    ensures LastOf(row + [c], k) == if c.kind == k then Some(c.levelPosition) else LastOf(row, k)
  {
    assert (row + [c])[..|row|] == row;
  }

  /** Appending a row: its last block of kind `k`, if any, overrides every earlier one. */
  lemma LastInPush(rows: seq<seq<Block>>, row: seq<Block>, k: BlockType)
    ensures LastIn(rows + [row], k) == if LastOf(row, k).Some? then LastOf(row, k) else LastIn(rows, k)
  {
    assert (rows + [row])[..|rows|] == rows;
  }
}
