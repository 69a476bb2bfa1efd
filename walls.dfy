/**
 * The wall flood fill of `Level::wall_positions` (`src/game_plugin/level.rs`):
 * the walls connected to the cell just "below" (+z) a position, used to make
 * the walls in front of the player see-through.
 */
module Walls {
  import opened Types
  import opened Grid

  /** The cell the search starts from: one step in +z. */
  function Seed(p: Position): (r: Position)
    requires p.x < 127 && p.z < 127
    ensures r == Position(p.x, p.z + 1)
  {
    ApplyDirection(p, BoardDirection(0, 1))
  }

  /** A cell the search adds and grows from: an in-bounds wall other than `|`. */
  predicate Connects(b: Board, q: Position)
    requires b.Valid()
  {
    b.InBounds(q.x, q.z) && b.rows[q.z][q.x].kind.IsWall() && b.rows[q.z][q.x].kind != WallSmallV
  }

  /**
   * `r` is the wall component of `seed`: the seed first, no cell twice,
   * every later cell a connecting wall next to an earlier one, and every
   * connecting wall next to a listed cell listed too.
   */
  ghost predicate Component(b: Board, seed: Position, r: seq<Position>)
    requires b.Valid()
  {
    && Grown(b, r) && r[0] == seed
    && (forall q, i :: 0 <= i < |r| && Adjacent(r[i], q) && Connects(b, q) ==> q in r)
  }

  /** A walk from `path[0]` by 4-neighbour steps through connecting walls. */
  ghost predicate WallPath(b: Board, path: seq<Position>)
    requires b.Valid()
  {
    && |path| >= 1
    && (forall i :: 0 < i < |path| ==> Adjacent(path[i - 1], path[i]) && Connects(b, path[i]))
  }

  /** Every cell a wall path from the seed reaches is in the component. */
  lemma {:induction false} ComponentComplete(b: Board, seed: Position, r: seq<Position>, path: seq<Position>)
    requires b.Valid() && Component(b, seed, r)
    requires WallPath(b, path) && path[0] == seed
    ensures path[|path| - 1] in r
    decreases |path|
  {
    if |path| > 1 {
      var prefix := path[..|path| - 1];
      assert WallPath(b, prefix);
      ComponentComplete(b, seed, r, prefix);
      var i :| 0 <= i < |r| && r[i] == prefix[|prefix| - 1];
      assert Adjacent(r[i], path[|path| - 1]);
    }
  }

  /** Every cell of the component is reached by a wall path from the seed. */
  lemma {:induction false} ComponentSound(b: Board, seed: Position, r: seq<Position>, i: nat)
    requires b.Valid() && Component(b, seed, r) && i < |r|
    ensures exists path :: WallPath(b, path) && path[0] == seed && path[|path| - 1] == r[i]
    decreases i
  {
    if i == 0 {
      assert WallPath(b, [seed]);
    } else {
      var j :| 0 <= j < i && Adjacent(r[j], r[i]);
      ComponentSound(b, seed, r, j);
      var path :| WallPath(b, path) && path[0] == seed && path[|path| - 1] == r[j];
      var longer := path + [r[i]];
      assert Connects(b, r[i]);
      forall k | 0 < k < |longer|
        ensures Adjacent(longer[k - 1], longer[k]) && Connects(b, longer[k])
      {
        if k < |path| {
          assert longer[k - 1] == path[k - 1] && longer[k] == path[k];
        } else {
          assert longer[k - 1] == r[j] && longer[k] == r[i];
        }
      }
      assert WallPath(b, longer) && longer[0] == seed && longer[|longer| - 1] == r[i];
    }
  }

  /** The component is exactly the set of cells reachable from the seed by wall paths. */
  lemma ComponentIsReachable(b: Board, seed: Position, r: seq<Position>, q: Position)
    requires b.Valid() && Component(b, seed, r)
    ensures q in r <==> exists path :: WallPath(b, path) && path[0] == seed && path[|path| - 1] == q
  {
    if q in r {
      var i :| 0 <= i < |r| && r[i] == q;
      ComponentSound(b, seed, r, i);
    }
    if exists path :: WallPath(b, path) && path[0] == seed && path[|path| - 1] == q {
      var path :| WallPath(b, path) && path[0] == seed && path[|path| - 1] == q;
      ComponentComplete(b, seed, r, path);
    }
  }

  /** The cells of a list. */
  ghost function Cells(r: seq<Position>): set<Position>
  {
    set q | q in r
  }

  /** A list without repeats has as many cells as elements. */
  lemma {:induction false} DistinctCells(r: seq<Position>)
    requires Distinct(r)
    ensures |Cells(r)| == |r|
    decreases |r|
  {
    if r != [] {
      var n := |r| - 1;
      var front := r[..n];
      assert Distinct(front);
      DistinctCells(front);
      assert Cells(r) == Cells(front) + {r[n]};
      assert r[n] !in Cells(front);
    }
  }

  /**
   * The component of a seed is unique up to order: any two lists that are
   * components of the same seed hold the same cells, and as many of them.
   */
  lemma ComponentUnique(b: Board, seed: Position, r: seq<Position>, s: seq<Position>)
    requires b.Valid() && Component(b, seed, r) && Component(b, seed, s)
    ensures Cells(r) == Cells(s) && |r| == |s|
  {
    forall q
      ensures q in r <==> q in s
    {
      ComponentIsReachable(b, seed, r, q);
      ComponentIsReachable(b, seed, s, q);
    }
    DistinctCells(r);
    DistinctCells(s);
  }

  // ---------------------------------------------------------------------------
  // What the depth-first search keeps true
  // ---------------------------------------------------------------------------

  /** `r` is grown from its first cell: no cell twice, and every later cell a connecting wall next to an earlier one. */
  ghost predicate Grown(b: Board, r: seq<Position>)
    requires b.Valid()
  {
    |r| >= 1 && Distinct(r) && Attached(b, r)
  }

  /** No cell is listed twice. */
  ghost predicate Distinct(r: seq<Position>)
  {
    forall i, j :: 0 <= i < j < |r| ==> r[i] != r[j]
  }

  /** Every cell after the first is a connecting wall next to an earlier one. */
  ghost predicate Attached(b: Board, r: seq<Position>)
    requires b.Valid()
  {
    forall i :: 0 < i < |r| ==> Connects(b, r[i]) && exists j :: 0 <= j < i && Adjacent(r[j], r[i])
  }

  /** All four steps from `q` (in the search's order) have been tested. */
  predicate Explored(q: Position, tested: set<Position>)
  {
    q.x < 127 && q.z < 127 && forall i :: 0 <= i < 4 ==> ApplyDirection(q, Around[i]) in tested
  }

  /** A unit step from an in-range cell reaches each of its neighbours. */
  lemma NeighbourIsStep(p: Position, q: Position)
    requires p.x < 127 && p.z < 127 && Adjacent(p, q)
    ensures exists i :: 0 <= i < 4 && ApplyDirection(p, Around[i]) == q
  {
    if q.x == p.x + 1 {
      assert ApplyDirection(p, Around[0]) == q;
    } else if p.x == q.x + 1 {
      assert ApplyDirection(p, Around[1]) == q;
    } else if q.z == p.z + 1 {
      assert ApplyDirection(p, Around[2]) == q;
    } else {
      assert ApplyDirection(p, Around[3]) == q;
    }
  }

  /**
   * When every listed cell is explored and every tested connecting wall is
   * listed, the list is closed: each connecting wall next to a listed cell
   * is listed.
   */
  lemma ExploredClosed(b: Board, r: seq<Position>, tested: set<Position>)
    requires b.Valid()
    requires forall i :: 0 <= i < |r| ==> Explored(r[i], tested)
    requires forall q :: q in tested && Connects(b, q) ==> q in r
    ensures forall q, i :: 0 <= i < |r| && Adjacent(r[i], q) && Connects(b, q) ==> q in r
  {
    forall q, i | 0 <= i < |r| && Adjacent(r[i], q) && Connects(b, q)
      ensures q in r
    {
      NeighbourIsStep(r[i], q);
    }
  }

  /** Every position whose coordinates survive a step of one and an `as i8` cast: the cells the search can ever test. */
  ghost function Box(): set<Position>
  {
    set x: nat, z: nat | x < 128 && z < 128 :: Position(x, z)
  }

  lemma InBox(q: Position)
    requires q.x < 128 && q.z < 128
    ensures q in Box()
  {
    assert q == Position(q.x, q.z);
  }

  /**
   * What the search keeps true of its list `into` and its set `tested`:
   * the list is grown from its first cell, every listed cell is tested,
   * everything tested lies in `Box()`, and every tested connecting wall is
   * listed.
   */
  ghost predicate Searching(b: Board, into: seq<Position>, tested: set<Position>)
    requires b.Valid()
  {
    && Grown(b, into)
    && (forall i :: 0 <= i < |into| ==> into[i] in tested)
    && tested <= Box()
    && (forall q :: q in tested && Connects(b, q) ==> q in into)
  }

  /** Appending a new connecting wall next to a listed cell keeps a list grown. */
  lemma GrownPush(b: Board, r: seq<Position>, p: Position, q: Position)
    requires b.Valid() && Grown(b, r) && p in r && q !in r && Adjacent(p, q) && Connects(b, q)
    ensures Grown(b, r + [q])
  {
    DistinctPush(r, q);
    AttachedPush(b, r, p, q);
  }

  /** Appending a cell not yet listed keeps a list free of repeats. */
  lemma DistinctPush(r: seq<Position>, q: Position)
    requires Distinct(r) && q !in r
    ensures Distinct(r + [q])
  {
    var s := r + [q];
    assert forall i :: 0 <= i < |r| ==> s[i] == r[i];
  }

  /** Appending a connecting wall next to a listed cell keeps every later cell attached. */
  lemma AttachedPush(b: Board, r: seq<Position>, p: Position, q: Position)
    requires b.Valid() && Attached(b, r) && p in r && Adjacent(p, q) && Connects(b, q)
    ensures Attached(b, r + [q])
  {
    var s := r + [q];
    assert forall i :: 0 <= i < |r| ==> s[i] == r[i];
    var j :| 0 <= j < |r| && r[j] == p;
    assert s[|r|] == q && Adjacent(s[j], s[|r|]);
  }

  /** Testing a connecting wall next to a listed cell and listing it keeps the search invariant. */
  lemma SearchPush(b: Board, into: seq<Position>, tested: set<Position>, p: Position, q: Position)
    requires b.Valid() && Searching(b, into, tested) && p in into
    requires q !in tested && q in Box() && Adjacent(p, q) && Connects(b, q)
    ensures Searching(b, into + [q], tested + {q})
  {
    GrownPush(b, into, p, q);
    var r := into + [q];
    forall i | 0 <= i < |r|
      ensures r[i] in tested + {q}
    {
      if i < |into| {
        assert r[i] == into[i];
      }
    }
  }

  /** Testing a cell that does not connect, without listing it, keeps the search invariant. */
  lemma SearchSkip(b: Board, into: seq<Position>, tested: set<Position>, q: Position)
    requires b.Valid() && Searching(b, into, tested)
    requires q in Box() && !Connects(b, q)
    ensures Searching(b, into, tested + {q})
  {
  }

  /** The cells listed from index `from` on stay explored while the tested set grows. */
  lemma ExploredMore(r: seq<Position>, from: nat, tested: set<Position>, more: set<Position>)
    requires forall j :: from <= j < |r| ==> Explored(r[j], tested)
    requires tested <= more
    ensures forall j :: from <= j < |r| ==> Explored(r[j], more)
  {
    forall j | from <= j < |r|
      ensures Explored(r[j], more)
    {
      assert Explored(r[j], tested);
    }
  }

  /**
   * After listing `q` and searching from it: the cells listed before stay
   * explored, and `q` and everything the inner search listed were explored
   * by it.
   */
  lemma ExploredAfterSearch(r: seq<Position>, from: nat, tested: set<Position>, q: Position, r2: seq<Position>, t2: set<Position>)
    requires forall j :: from <= j < |r| ==> Explored(r[j], tested)
    requires r + [q] <= r2 && tested <= t2
    requires Explored(q, t2)
    requires forall j :: |r + [q]| <= j < |r2| ==> Explored(r2[j], t2)
    ensures forall j :: from <= j < |r2| ==> Explored(r2[j], t2)
  {
    ExploredMore(r, from, tested, t2);
    forall j | from <= j < |r2|
      ensures Explored(r2[j], t2)
    {
      if j < |r| {
        assert r2[j] == (r + [q])[j] == r[j];
      } else if j == |r| {
        assert r2[j] == (r + [q])[j] == q;
      }
    }
  }
}
