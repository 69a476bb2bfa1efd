/**
 * The parsed grid of a level and its read-only queries: bounds-checked cell
 * lookup (`Level::get`) and the free-direction query
 * (`Level::free_directions`) of `src/game_plugin/level.rs`.
 */
module Grid {
  import opened Wrappers
  import opened Types

  /** One cell: its kind and its grid position (`Block`; the render-space anchor is left out). */
  datatype Block = Block(kind: BlockType, levelPosition: Position)

  /** `size` is (columns, rows); `rows[z][x]` is the cell in column `x` of row `z`. */
  datatype Board = Board(size: Position, rows: seq<seq<Block>>)
  {
    /**
     * What the queries rely on: one row per `size.z`, every row `size.x`
     * long, fewer than 127 of each (so grid coordinates survive `as i8` and
     * a step of one), and every cell labelled with its own position.
     */
    predicate Valid()
    {
      && size.z == |rows| && size.x < 127 && size.z < 127
      && (forall z :: 0 <= z < |rows| ==> |rows[z]| == size.x)
      && (forall z, x :: 0 <= z < |rows| && 0 <= x < |rows[z]| ==> rows[z][x].levelPosition == Position(x, z))
    }

    predicate InBounds(x: int, z: int)
    {
      0 <= x < size.x && 0 <= z < size.z
    }

    /** An in-bounds cell that is not a wall: where players, enemies and blasts may go. */
    predicate Open(x: int, z: int)
      requires Valid()
    {
      InBounds(x, z) && !rows[z][x].kind.IsWall()
    }

    /** `Level::get`: the cell at column `ax`, row `az`, or `None` off the grid. */
    function Get(ax: int, az: int): (r: Option<Block>)
      requires Valid()
      requires IsI8(ax) && IsI8(az)
      ensures r.None? <==> (ax < 0 || az < 0 || ax >= size.x || az >= size.z)
      ensures r.Some? ==> r.value.levelPosition == Position(ax, az) && r.value.kind == rows[az][ax].kind
    {
      if ax < 0 || az < 0 then None
      else if ax >= size.x || az >= size.z then None
      else Some(rows[az][ax])
    }
  }

  /** The enumeration order of `free_directions` (and of the wall search): +x, -x, +z, -z. */
  const Around: seq<BoardDirection> := [BoardDirection(1, 0), BoardDirection(-1, 0), BoardDirection(0, 1), BoardDirection(0, -1)]

  /** The index of a unit direction in `Around`. */
  function Rank(d: BoardDirection): nat
  {
    if d == BoardDirection(1, 0) then 0
    else if d == BoardDirection(-1, 0) then 1
    else if d == BoardDirection(0, 1) then 2
    else 3
  }

  /** Stepping from `p` along `d` lands on an in-bounds, non-wall cell. */
  predicate IsFree(b: Board, p: Position, d: BoardDirection)
    requires b.Valid() && p.x < 127 && p.z < 127 && IsUnit(d)
  {
    var item := b.Get(p.x + d.x, p.z + d.z);
    item.Some? && !item.value.kind.IsWall()
  }

  /** The free directions among the candidates `ds`, in the order of `ds`. */
  function FreeAmong(b: Board, p: Position, ds: seq<BoardDirection>): seq<BoardDirection>
    requires b.Valid() && p.x < 127 && p.z < 127
    requires forall i :: 0 <= i < |ds| ==> IsUnit(ds[i])
  {
    if ds == [] then []
    else
      var last := ds[|ds| - 1];
      FreeAmong(b, p, ds[..|ds| - 1]) + (if IsFree(b, p, last) then [last] else [])
  }

  /** What `free_directions(p)` returns. */
  function FreeDirections(b: Board, p: Position): seq<BoardDirection>
    requires b.Valid() && p.x < 127 && p.z < 127
  {
    FreeAmong(b, p, Around)
  }

  /**
   * The free directions among the first `n` candidates of `Around` are
   * exactly the free ones, listed once each in the order of `Around`.
   */
  lemma {:induction false} FreeAmongAround(b: Board, p: Position, n: nat)
    requires b.Valid() && p.x < 127 && p.z < 127 && n <= 4
    ensures var r := FreeAmong(b, p, Around[..n]);
      && |r| <= n
      && (forall d :: d in r <==> d in Around[..n] && IsFree(b, p, d))
      && (forall i :: 0 <= i < |r| ==> Rank(r[i]) < n)
      && (forall i, j :: 0 <= i < j < |r| ==> Rank(r[i]) < Rank(r[j]))
  {
    if n > 0 {
      FreeAmongAround(b, p, n - 1);
      assert Around[..n][..n - 1] == Around[..n - 1];
      assert Around[..n] == Around[..n - 1] + [Around[n - 1]];
      assert Rank(Around[n - 1]) == n - 1;
    }
  }

  /** Trying one more candidate of `Around` keeps the free ones found so far and appends it exactly when it is free. */
  lemma FreeAmongStep(b: Board, p: Position, i: nat)
    requires b.Valid() && p.x < 127 && p.z < 127 && i < 4
    ensures FreeAmong(b, p, Around[..i + 1]) == FreeAmong(b, p, Around[..i]) + (if IsFree(b, p, Around[i]) then [Around[i]] else [])
  {
    assert Around[..i + 1][..i] == Around[..i];
  }

  /**
   * `free_directions(p)`: a direction is listed exactly when its neighbour is
   * in bounds and not a wall; at most four, no duplicates, in the order
   * +x, -x, +z, -z.
   */
  lemma FreeDirectionsSpec(b: Board, p: Position)
    requires b.Valid() && p.x < 127 && p.z < 127
    ensures var r := FreeDirections(b, p);
      && |r| <= 4
      && (forall d :: d in r <==> IsUnit(d) && b.Open(p.x + d.x, p.z + d.z))
      && (forall i, j :: 0 <= i < j < |r| ==> Rank(r[i]) < Rank(r[j]) && r[i] != r[j])
  {
    FreeAmongAround(b, p, 4);
    assert Around[..4] == Around;
    forall d
      ensures d in FreeDirections(b, p) <==> IsUnit(d) && b.Open(p.x + d.x, p.z + d.z)
    {
      AroundUnits(d);
      if IsUnit(d) {
        FreeIsOpen(b, p, d);
      }
    }
  }

  /** The candidates of `Around` are exactly the four unit steps. */
  lemma AroundUnits(d: BoardDirection)
    ensures d in Around <==> IsUnit(d)
  {
  }

  /** A unit step is free exactly when it lands on an open cell. */
  lemma FreeIsOpen(b: Board, p: Position, d: BoardDirection)
    requires b.Valid() && p.x < 127 && p.z < 127 && IsUnit(d)
    ensures IsFree(b, p, d) <==> b.Open(p.x + d.x, p.z + d.z)
  {
  }

  /** A direction is free at `p` exactly when it is a unit step onto an in-bounds, non-wall cell. */
  lemma FreeDirectionsMember(b: Board, p: Position, d: BoardDirection)
    requires b.Valid() && p.x < 127 && p.z < 127
    ensures d in FreeDirections(b, p) <==> IsUnit(d) && b.Open(p.x + d.x, p.z + d.z)
  {
    FreeDirectionsSpec(b, p);
  }
}
