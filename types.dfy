/**
 * The value types of the board: block kinds and the map legend, grid
 * positions, and board directions (`src/game_plugin/types.rs`).
 *
 * Rust's `i8` arithmetic is modelled on `int`; every member that stands for
 * an `i8` operation requires that its operands and result fit in `i8`, which
 * is what the source (built with overflow checks) demands.
 */
module Types {
  import opened Wrappers

  /** An engine entity (enemy, coin, bomb), used only as an opaque key. */
  type Entity = nat

  predicate IsI8(n: int) { -128 <= n < 128 }

  datatype BlockType = WallBig | WallSmallV | WallSmallH | Coin | Enemy | Player | Space | Exit
  {
    /** `is_wall`: the three wall kinds. */
    predicate IsWall() { this == WallBig || this == WallSmallH || this == WallSmallV }
  }

  /** The map legend: the character that stands for each kind of block. */
  function Symbol(k: BlockType): char
  {
    match k
    case Coin => '*'
    case WallBig => '#'
    case WallSmallH => '-'
    case WallSmallV => '|'
    case Player => 'o'
    case Enemy => 'x'
    case Space => ' '
    case Exit => 'e'
  }

  /** `From<char> for BlockType`; `None` where the source panics on an unknown character. */
  function FromChar(c: char): (r: Option<BlockType>)
    ensures r.Some? ==> Symbol(r.value) == c
    ensures r.None? ==> forall k: BlockType :: Symbol(k) != c
  {
    match c
    case '*' => Some(Coin)
    case '#' => Some(WallBig)
    case '-' => Some(WallSmallH)
    case '|' => Some(WallSmallV)
    case 'o' => Some(Player)
    case 'x' => Some(Enemy)
    case ' ' => Some(Space)
    case 'e' => Some(Exit)
    case _ => None
  }

  /** Decoding the legend character of a kind gives that kind back. */
  lemma SymbolRoundTrip(k: BlockType)
    ensures FromChar(Symbol(k)) == Some(k)
  {
  }

  /** A map character decodes to a wall exactly when it is `#`, `-` or `|`. */
  lemma WallCharacters(c: char)
    ensures (FromChar(c).Some? && FromChar(c).value.IsWall()) <==> (c == '#' || c == '-' || c == '|')
  {
  }

  datatype Position = Position(x: nat, z: nat)

  datatype BoardDirection = BoardDirection(x: int, z: int)
  {
    /** `is_zero`: the direction that stands for "not moving". */
    predicate IsZero() { x == 0 && z == 0 }

    /** `Mul<i8>`: scales both components (an `i8` multiplication in the source). */
    function Mul(k: int): BoardDirection
      requires IsI8(k) && IsI8(x * k) && IsI8(z * k)
    {
      BoardDirection(x * k, z * k)
    }
  }

  /** Scaling by 1 changes nothing, and a scaled direction is zero exactly when the direction or the factor is. */
  lemma MulSpec(d: BoardDirection, k: int)
    requires IsI8(k) && IsI8(d.x * k) && IsI8(d.z * k)
    ensures d.Mul(k).IsZero() <==> (d.IsZero() || k == 0)
    ensures k == 1 ==> d.Mul(k) == d
  {
  }

  /** The four unit steps. */
  predicate IsUnit(d: BoardDirection)
  {
    d == BoardDirection(1, 0) || d == BoardDirection(-1, 0) || d == BoardDirection(0, 1) || d == BoardDirection(0, -1)
  }

  predicate Adjacent(p: Position, q: Position)
  {
    (p.z == q.z && (p.x == q.x + 1 || q.x == p.x + 1)) || (p.x == q.x && (p.z == q.z + 1 || q.z == p.z + 1))
  }

  /**
   * `Position::apply_direction`, an update of `self` in place, modelled as
   * the updated value. Each axis moves independently, and a move that would
   * make a coordinate negative leaves that coordinate alone.
   */
  function ApplyDirection(p: Position, d: BoardDirection): (r: Position)
    requires IsI8(p.x) && IsI8(p.z) && IsI8(p.x + d.x) && IsI8(p.z + d.z)
    ensures r.x == p.x + d.x || (r.x == p.x && p.x + d.x < 0)
    ensures r.z == p.z + d.z || (r.z == p.z && p.z + d.z < 0)
  {
    var x := p.x + d.x;
    var z := p.z + d.z;
    Position(if x >= 0 then x else p.x, if z >= 0 then z else p.z)
  }

  /** A unit step either reaches a neighbouring cell or, at the zero edge, stays put; it never passes an upper bound check. */
  lemma ApplyUnit(p: Position, d: BoardDirection)
    requires IsUnit(d) && p.x < 127 && p.z < 127
    ensures var r := ApplyDirection(p, d);
      (r == p && (p.x + d.x < 0 || p.z + d.z < 0)) || (Adjacent(p, r) && r.x == p.x + d.x && r.z == p.z + d.z)
  {
  }
}
