/**
 * Bomb blast propagation (`Level::bomb_explode_positions` and its inner
 * `follow_range`, `src/game_plugin/level.rs`), as specification functions.
 */
module Blast {
  import opened Wrappers
  import opened Types
  import opened Grid

  /** One reached cell: its position, its step from the bomb, and the bomb's range. */
  datatype BlastCell = BlastCell(position: Position, step: nat, range: nat)

  /** A bomb entry: (range, position), as in the `bombs` map. */
  type Bomb = (nat, Position)

  /** A bomb whose range and origin survive the `as i8` casts of the blast walk. */
  predicate BombFits(bomb: Bomb)
  {
    bomb.0 <= 127 && bomb.1.x < 127 && bomb.1.z < 127
  }

  /** The four arm directions, in the order the blast walks them: -x, -z, +x, +z. */
  const ArmOrder: seq<BoardDirection> := [BoardDirection(-1, 0), BoardDirection(0, -1), BoardDirection(1, 0), BoardDirection(0, 1)]

  /** The first step of every arm (`current_range` starts at 1). */
  const FirstStep: nat := 1

  /** The coordinate `c + dc * k` for a unit component `dc`, written without multiplication. */
  function Along(c: int, dc: int, k: int): int
  {
    if dc == 0 then c else if dc > 0 then c + k else c - k
  }

  /** `o + d * k`, for a unit `d`, moves each coordinate of `o` by `Along`. */
  lemma MulUnit(d: BoardDirection, k: int, o: Position)
    requires IsUnit(d) && 0 <= k <= 127
    ensures IsI8(d.x * k) && IsI8(d.z * k)
    ensures o.x + d.Mul(k).x == Along(o.x, d.x, k) && o.z + d.Mul(k).z == Along(o.z, d.z, k)
  {
  }

  /** Preconditions of one arm walk, from step `k` on. */
  predicate ArmReady(b: Board, range: nat, o: Position, d: BoardDirection, k: nat)
  {
    && b.Valid() && range <= 127 && o.x < 127 && o.z < 127 && IsUnit(d)
    && 1 <= k <= 127 && IsI8(Along(o.x, d.x, k)) && IsI8(Along(o.z, d.z, k))
  }

  /**
   * The cells `follow_range` pushes from step `k` on: the cell at step `k`
   * is `o + d * k` (written with `Along`; `MulUnit` shows it is the same); the walk stops, without that cell, off the grid or at a
   * wall, and stops after pushing step `k` when `range == k + 1` (the range
   * test runs after the step counter is incremented).
   */
  function Arm(b: Board, range: nat, o: Position, d: BoardDirection, k: nat): seq<BlastCell>
    requires ArmReady(b, range, o, d, k)
    decreases 127 - k
  {
    var x, z := Along(o.x, d.x, k), Along(o.z, d.z, k);
    if !b.Open(x, z) then []
    else [BlastCell(Position(x, z), k, range)] + (if range == k + 1 then [] else Arm(b, range, o, d, k + 1))
  }

  /** One step of an arm: the cell at step `k` is pushed when open, and the walk goes on unless `range == k + 1`. */
  lemma ArmUnfold(b: Board, range: nat, o: Position, d: BoardDirection, k: nat)
    requires ArmReady(b, range, o, d, k)
    ensures var x, z := Along(o.x, d.x, k), Along(o.z, d.z, k);
      if b.Open(x, z) then
        && (range != k + 1 ==> ArmReady(b, range, o, d, k + 1))
        && Arm(b, range, o, d, k) == [BlastCell(Position(x, z), k, range)] + (if range == k + 1 then [] else Arm(b, range, o, d, k + 1))
      else Arm(b, range, o, d, k) == []
  {
  }

  /** An arm whose cell at step `k` is open and whose counter then reaches the range is that cell alone. */
  lemma ArmLast(b: Board, range: nat, o: Position, d: BoardDirection, k: nat)
    requires ArmReady(b, range, o, d, k) && range == k + 1
    requires b.Open(Along(o.x, d.x, k), Along(o.z, d.z, k))
    ensures Arm(b, range, o, d, k) == [BlastCell(Position(Along(o.x, d.x, k), Along(o.z, d.z, k)), k, range)]
  {
    ArmUnfold(b, range, o, d, k);
  }

  /** An arm whose cell at step `k` is open and whose counter stays below the range goes on from step `k + 1`. */
  lemma ArmStep(b: Board, range: nat, o: Position, d: BoardDirection, k: nat)
    requires ArmReady(b, range, o, d, k) && range != k + 1
    requires b.Open(Along(o.x, d.x, k), Along(o.z, d.z, k))
    ensures ArmReady(b, range, o, d, k + 1)
    ensures Arm(b, range, o, d, k) == [BlastCell(Position(Along(o.x, d.x, k), Along(o.z, d.z, k)), k, range)] + Arm(b, range, o, d, k + 1)
  {
    ArmUnfold(b, range, o, d, k);
  }

  /** A walk that has produced `out` so far and goes on from step `k` ends with `total`. */
  predicate Walked(b: Board, range: nat, o: Position, d: BoardDirection, k: nat, out: seq<BlastCell>, total: seq<BlastCell>)
  {
    ArmReady(b, range, o, d, k) && out + Arm(b, range, o, d, k) == total
  }

  /** A walk starts at the first step from any in-range origin, with nothing of the arm pushed yet. */
  lemma WalkStart(b: Board, range: nat, o: Position, d: BoardDirection, out: seq<BlastCell>)
    requires b.Valid() && range <= 127 && o.x < 127 && o.z < 127 && IsUnit(d)
    ensures Walked(b, range, o, d, FirstStep, out, out + Arm(b, range, o, d, FirstStep))
  {
  }

  /**
   * One pushed cell of a walk: after pushing the open cell at step `k`,
   * either the walk is complete (`range == k + 1`) or it goes on from step `k + 1`.
   */
  lemma ArmPush(b: Board, range: nat, o: Position, d: BoardDirection, k: nat, out: seq<BlastCell>, total: seq<BlastCell>, cell: BlastCell)
    requires Walked(b, range, o, d, k, out, total)
    requires b.Open(Along(o.x, d.x, k), Along(o.z, d.z, k))
    requires cell == BlastCell(Position(Along(o.x, d.x, k), Along(o.z, d.z, k)), k, range)
    ensures range == k + 1 ==> out + [cell] == total
    ensures range != k + 1 ==> Walked(b, range, o, d, k + 1, out + [cell], total)
  {
    ArmUnfold(b, range, o, d, k);
    if range != k + 1 {
      assert (out + [cell]) + Arm(b, range, o, d, k + 1) == out + ([cell] + Arm(b, range, o, d, k + 1));
    }
  }

  /** A walk that meets the grid's edge or a wall at step `k` is complete. */
  lemma ArmBlocked(b: Board, range: nat, o: Position, d: BoardDirection, k: nat, out: seq<BlastCell>, total: seq<BlastCell>)
    requires Walked(b, range, o, d, k, out, total)
    requires !b.Open(Along(o.x, d.x, k), Along(o.z, d.z, k))
    ensures out == total
  {
    ArmUnfold(b, range, o, d, k);
    assert out + [] == out;
  }

  /** Why an arm that holds `n` cells from step `k` stopped where it did. */
  predicate ArmStopped(b: Board, range: nat, o: Position, d: BoardDirection, k: nat, n: nat)
    requires b.Valid()
  {
    !b.Open(Along(o.x, d.x, k + n), Along(o.z, d.z, k + n)) || (n > 0 && k + n == range)
  }

  /** `c` is the cell an arm from `o` along `d` reaches at step `s`: open, and tagged with `s` and `range`. */
  predicate ReachedAt(b: Board, range: nat, o: Position, d: BoardDirection, s: nat, c: BlastCell)
    requires b.Valid()
  {
    && c.step == s && c.range == range
    && c.position.x == Along(o.x, d.x, s) && c.position.z == Along(o.z, d.z, s)
    && b.Open(c.position.x, c.position.z)
  }

  /**
   * An arm is the run of consecutive steps `k, k+1, ...`: the `i`-th cell is
   * at `o + d * (k + i)`, is in bounds and not a wall, and is tagged with its
   * step and the bomb's range.
   */
  lemma {:induction false} ArmCells(b: Board, range: nat, o: Position, d: BoardDirection, k: nat)
    requires ArmReady(b, range, o, d, k)
    ensures forall i :: 0 <= i < |Arm(b, range, o, d, k)| ==> ReachedAt(b, range, o, d, k + i, Arm(b, range, o, d, k)[i])
    decreases 127 - k
  {
    ArmUnfold(b, range, o, d, k);
    var x, z := Along(o.x, d.x, k), Along(o.z, d.z, k);
    var a := Arm(b, range, o, d, k);
    if b.Open(x, z) {
      var cell := BlastCell(Position(x, z), k, range);
      assert ReachedAt(b, range, o, d, k, cell);
      if range != k + 1 {
        ArmCells(b, range, o, d, k + 1);
        var rest := Arm(b, range, o, d, k + 1);
        assert a == [cell] + rest;
        forall i | 0 <= i < |a|
          ensures ReachedAt(b, range, o, d, k + i, a[i])
        {
          if i > 0 {
            assert a[i] == rest[i - 1];
            assert ReachedAt(b, range, o, d, k + 1 + (i - 1), rest[i - 1]);
          }
        }
      } else {
        assert a == [cell];
      }
    }
  }

  /**
   * An arm ends at the first cell that is off the grid or a wall, or right
   * after the step at which the counter reaches `range`, whichever comes first.
   */
  lemma {:induction false} ArmStop(b: Board, range: nat, o: Position, d: BoardDirection, k: nat)
    requires ArmReady(b, range, o, d, k)
    ensures ArmStopped(b, range, o, d, k, |Arm(b, range, o, d, k)|)
    decreases 127 - k
  {
    ArmUnfold(b, range, o, d, k);
    if b.Open(Along(o.x, d.x, k), Along(o.z, d.z, k)) && range != k + 1 {
      ArmStop(b, range, o, d, k + 1);
      var n := |Arm(b, range, o, d, k + 1)|;
      assert |Arm(b, range, o, d, k)| == n + 1;
      assert k + (n + 1) == (k + 1) + n;
    }
  }

  /** With `range > k`, an arm from step `k` holds at most `range - k` cells: steps reach `range - 1` at most. */
  lemma {:induction false} ArmLength(b: Board, range: nat, o: Position, d: BoardDirection, k: nat)
    requires ArmReady(b, range, o, d, k) && range > k
    ensures |Arm(b, range, o, d, k)| <= range - k
    decreases 127 - k
  {
    ArmUnfold(b, range, o, d, k);
    if b.Open(Along(o.x, d.x, k), Along(o.z, d.z, k)) && range != k + 1 {
      ArmLength(b, range, o, d, k + 1);
    }
  }

  /** The four arms of a blast from `o`, in the order -x, -z, +x, +z. */
  function Arms(b: Board, range: nat, o: Position): seq<BlastCell>
    requires b.Valid() && range <= 127 && o.x < 127 && o.z < 127
  {
    Arm(b, range, o, ArmOrder[0], FirstStep) + Arm(b, range, o, ArmOrder[1], FirstStep)
      + Arm(b, range, o, ArmOrder[2], FirstStep) + Arm(b, range, o, ArmOrder[3], FirstStep)
  }

  /** What `bomb_explode_positions(e)` returns: empty for an unknown bomb, else the origin at step 0 followed by the four arms. */
  function Blast(b: Board, bombs: map<Entity, Bomb>, e: Entity): seq<BlastCell>
    requires b.Valid() && (e in bombs ==> BombFits(bombs[e]))
  {
    if e !in bombs then []
    else [BlastCell(bombs[e].1, 0, bombs[e].0)] + Arms(b, bombs[e].0, bombs[e].1)
  }

  /** A blast of a known bomb, spelled out arm by arm in the order -x, -z, +x, +z. */
  lemma BlastArms(b: Board, bombs: map<Entity, Bomb>, e: Entity)
    requires b.Valid() && e in bombs && BombFits(bombs[e])
    ensures var (range, o) := bombs[e];
      Blast(b, bombs, e) == [BlastCell(o, 0, range)] + Arm(b, range, o, BoardDirection(-1, 0), FirstStep)
        + Arm(b, range, o, BoardDirection(0, -1), FirstStep) + Arm(b, range, o, BoardDirection(1, 0), FirstStep)
        + Arm(b, range, o, BoardDirection(0, 1), FirstStep)
  {
  }

  /**
   * Where nothing blocks it, an arm from step `k` with `range > k` holds
   * exactly `range - k` cells: the steps `k .. range - 1`. From step 1 that
   * is `range - 1` cells, one short of the range.
   */
  lemma {:induction false} ArmFullReach(b: Board, range: nat, o: Position, d: BoardDirection, k: nat)
    requires ArmReady(b, range, o, d, k) && range > k
    requires forall s :: k <= s < range ==> b.Open(Along(o.x, d.x, s), Along(o.z, d.z, s))
    ensures |Arm(b, range, o, d, k)| == range - k
    decreases 127 - k
  {
    ArmUnfold(b, range, o, d, k);
    assert b.Open(Along(o.x, d.x, k), Along(o.z, d.z, k));
    if range != k + 1 {
      ArmFullReach(b, range, o, d, k + 1);
    }
  }

  /** Every cell of an arm walked from step 1 carries the bomb's range, a step of at least one, and is open. */
  lemma ArmMembers(b: Board, range: nat, o: Position, d: BoardDirection)
    requires ArmReady(b, range, o, d, FirstStep)
    ensures forall c :: c in Arm(b, range, o, d, FirstStep) ==> c.range == range && c.step >= 1 && b.Open(c.position.x, c.position.z)
  {
    ArmCells(b, range, o, d, FirstStep);
  }

  /** The cells of the four arms carry the bomb's range, a step of at least one, and are open; with `range >= 2` there are at most `4 * (range - 1)` of them. */
  lemma ArmsSpec(b: Board, range: nat, o: Position)
    requires b.Valid() && range <= 127 && o.x < 127 && o.z < 127
    ensures forall c :: c in Arms(b, range, o) ==> c.range == range && c.step >= 1 && b.Open(c.position.x, c.position.z)
    ensures range >= 2 ==> |Arms(b, range, o)| <= 4 * (range - 1)
  {
    ArmMembers(b, range, o, ArmOrder[0]);
    ArmMembers(b, range, o, ArmOrder[1]);
    ArmMembers(b, range, o, ArmOrder[2]);
    ArmMembers(b, range, o, ArmOrder[3]);
    if range >= 2 {
      ArmLength(b, range, o, ArmOrder[0], FirstStep);
      ArmLength(b, range, o, ArmOrder[1], FirstStep);
      ArmLength(b, range, o, ArmOrder[2], FirstStep);
      ArmLength(b, range, o, ArmOrder[3], FirstStep);
    }
  }

  /**
   * The blast of a bomb: nothing for an id not in `bombs`; otherwise the
   * origin first at step 0 (not wall-checked), every cell tagged with the
   * bomb's range, every later cell in bounds and not a wall with a step of
   * at least one, and, for a range of at least 2, at most `1 + 4 * (range - 1)` cells.
   */
  lemma BlastSpec(b: Board, bombs: map<Entity, Bomb>, e: Entity)
    requires b.Valid() && (e in bombs ==> BombFits(bombs[e]))
    ensures var r := Blast(b, bombs, e);
      && (e !in bombs <==> r == [])
      && (e in bombs ==>
            && r[0] == BlastCell(bombs[e].1, 0, bombs[e].0)
            && (forall c :: c in r ==> c.range == bombs[e].0)
            && (forall c :: c in r[1..] ==> c.step >= 1 && b.Open(c.position.x, c.position.z))
            && (bombs[e].0 >= 2 ==> |r| <= 1 + 4 * (bombs[e].0 - 1)))
  {
    if e in bombs {
      ArmsSpec(b, bombs[e].0, bombs[e].1);
      assert Blast(b, bombs, e)[1..] == Arms(b, bombs[e].0, bombs[e].1);
    }
  }

  // ---------------------------------------------------------------------------
  // Arms characterised without the walk
  // ---------------------------------------------------------------------------

  /**
   * `cells` is a run of an arm from step `k`: its `j`-th cell is the open
   * cell at step `k + j`, tagged with that step and the range; the counter
   * never reaches the range before the last cell; and the run stops at a
   * wall, the edge, or the step at which the counter reaches the range.
   */
  predicate Run(b: Board, range: nat, o: Position, d: BoardDirection, k: nat, cells: seq<BlastCell>)
    requires b.Valid()
  {
    && (forall j :: 0 <= j < |cells| ==> ReachedAt(b, range, o, d, k + j, cells[j]))
    && !(k < range < k + |cells|)
    && ArmStopped(b, range, o, d, k, |cells|)
  }

  /** The arm the walk produces is a run. */
  lemma {:induction false} ArmIsRun(b: Board, range: nat, o: Position, d: BoardDirection, k: nat)
    requires ArmReady(b, range, o, d, k)
    ensures Run(b, range, o, d, k, Arm(b, range, o, d, k))
    decreases 127 - k
  {
    if !b.Open(Along(o.x, d.x, k), Along(o.z, d.z, k)) {
      ArmUnfold(b, range, o, d, k);
    } else if range == k + 1 {
      ArmLast(b, range, o, d, k);
      var a := Arm(b, range, o, d, k);
      assert ReachedAt(b, range, o, d, k + 0, a[0]);
    } else {
      ArmStep(b, range, o, d, k);
      ArmIsRun(b, range, o, d, k + 1);
      RunCons(b, range, o, d, k, Arm(b, range, o, d, k + 1));
    }
  }

  /** The open cell at step `k` followed by a run from step `k + 1` is a run from step `k`, when the counter stays below the range. */
  lemma RunCons(b: Board, range: nat, o: Position, d: BoardDirection, k: nat, rest: seq<BlastCell>)
    requires b.Valid() && range != k + 1 && Run(b, range, o, d, k + 1, rest)
    requires b.Open(Along(o.x, d.x, k), Along(o.z, d.z, k))
    ensures Run(b, range, o, d, k, [BlastCell(Position(Along(o.x, d.x, k), Along(o.z, d.z, k)), k, range)] + rest)
  {
    var a := [BlastCell(Position(Along(o.x, d.x, k), Along(o.z, d.z, k)), k, range)] + rest;
    forall j | 0 <= j < |a|
      ensures ReachedAt(b, range, o, d, k + j, a[j])
    {
      if j > 0 {
        assert a[j] == rest[j - 1] && k + j == (k + 1) + (j - 1);
      }
    }
    assert (k + 1) + |rest| == k + |a|;
  }

  /** A run is the arm: no other list of cells fits the description. */
  lemma RunIsArm(b: Board, range: nat, o: Position, d: BoardDirection, k: nat, cells: seq<BlastCell>)
    requires ArmReady(b, range, o, d, k) && Run(b, range, o, d, k, cells)
    ensures cells == Arm(b, range, o, d, k)
  {
    ArmIsRun(b, range, o, d, k);
    RunUnique(b, range, o, d, k, cells, Arm(b, range, o, d, k));
  }

  /**
   * Two runs from the same step are equal: their cells agree step by step,
   * and neither can stop before the other, since the longer one shows the
   * next cell open and the counter still below the range.
   */
  lemma RunUnique(b: Board, range: nat, o: Position, d: BoardDirection, k: nat, c1: seq<BlastCell>, c2: seq<BlastCell>)
    requires b.Valid() && Run(b, range, o, d, k, c1) && Run(b, range, o, d, k, c2)
    ensures c1 == c2
  {
    RunPrefix(b, range, o, d, k, c1, c2);
    RunPrefix(b, range, o, d, k, c2, c1);
    forall j | 0 <= j < |c1|
      ensures c1[j] == c2[j]
    {
      assert ReachedAt(b, range, o, d, k + j, c1[j]) && ReachedAt(b, range, o, d, k + j, c2[j]);
    }
  }

  /** A run is never shorter than another run from the same step. */
  lemma RunPrefix(b: Board, range: nat, o: Position, d: BoardDirection, k: nat, c1: seq<BlastCell>, c2: seq<BlastCell>)
    requires b.Valid() && Run(b, range, o, d, k, c1) && Run(b, range, o, d, k, c2)
    ensures |c1| >= |c2|
  {
    RunOpenAt(b, range, o, d, k, c2, k + |c1|);
  }

  /** Every step a run covers is open. */
  lemma RunOpenAt(b: Board, range: nat, o: Position, d: BoardDirection, k: nat, c: seq<BlastCell>, s: nat)
    requires b.Valid() && Run(b, range, o, d, k, c)
    ensures k <= s < k + |c| ==> b.Open(Along(o.x, d.x, s), Along(o.z, d.z, s))
  {
    if k <= s < k + |c| {
      assert ReachedAt(b, range, o, d, k + (s - k), c[s - k]);
    }
  }

  /**
   * The blast of a known bomb, characterised by runs: whatever four runs
   * from step 1 along -x, -z, +x and +z are, the blast is the origin at step
   * 0 followed by those runs in that order (and `ArmIsRun` shows the runs
   * exist).
   */
  lemma BlastOfRuns(b: Board, bombs: map<Entity, Bomb>, e: Entity, left: seq<BlastCell>, up: seq<BlastCell>, right: seq<BlastCell>, down: seq<BlastCell>)
    requires b.Valid() && e in bombs && BombFits(bombs[e])
    requires var (range, o) := bombs[e];
      && Run(b, range, o, BoardDirection(-1, 0), 1, left)
      && Run(b, range, o, BoardDirection(0, -1), 1, up)
      && Run(b, range, o, BoardDirection(1, 0), 1, right)
      && Run(b, range, o, BoardDirection(0, 1), 1, down)
    ensures Blast(b, bombs, e) == [BlastCell(bombs[e].1, 0, bombs[e].0)] + left + up + right + down
  {
    var (range, o) := bombs[e];
    RunIsArm(b, range, o, BoardDirection(-1, 0), FirstStep, left);
    RunIsArm(b, range, o, BoardDirection(0, -1), FirstStep, up);
    RunIsArm(b, range, o, BoardDirection(1, 0), FirstStep, right);
    RunIsArm(b, range, o, BoardDirection(0, 1), FirstStep, down);
    BlastArms(b, bombs, e);
  }
}
