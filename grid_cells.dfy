/** The pieces of Tiled3D/Grid.h that are plain values: a cell's state, an
    input tile, the periodic wrapping of positions (FilterPos), the index
    check of the cell array, the neighbour lists and the cached count of a
    cell's possibilities. A TransformSet held by value is represented here by
    its set of bit indices (see TransformSets), so its Size is the
    cardinality of that set. */
module GridCells {
  import opened Vectors
  import opened Faces3D
  import opened CubeTransforms
  import WfcMath

  /** TileIdx_INVALID, the largest uint16_t: the "no tile" marker. */
  const TILE_IDX_INVALID: nat := 65535

  /** N_DIRECTIONS_3D + 1: a history entry remembers the cell itself and
      its six neighbours. */
  const N_HISTORY_NEIGHBORS: nat := 7

  /** Grid::CellState; the default value is unset, changeable and without
      possibilities. */
  datatype CellState = CellState(ChosenTile: nat, ChosenPermutation: Transform3D,
                                 IsChangeable: bool, NPossibilities: nat)
  {
    predicate IsSet() { ChosenTile != TILE_IDX_INVALID }
  }

  const DefaultCell: CellState := CellState(TILE_IDX_INVALID, Identity, true, 0)

  /** An input tile: the faces of its cube, and the permutations of it that
      may be placed (the bit indices of its TransformSet). */
  datatype Tile = Tile(Data: CubePermutation, Permutations: set<nat>)

  /** Every dimension of the grid is positive. */
  predicate PositiveSize(size: Vector3i)
  {
    size.x > 0 && size.y > 0 && size.z > 0
  }

  /** Array3D::IsIndexValid: the position lies inside Region3i(size). */
  predicate InBounds(size: Vector3i, p: Vector3i)
  {
    FromSize3(size).Contains(p)
  }

  /** Grid::FilterPos: every periodic axis is wrapped into [0, size) with
      PositiveModulo; the other axes are left alone. */
  function WrapPeriodic(size: Vector3i, px: bool, py: bool, pz: bool, p: Vector3i): Vector3i
    requires PositiveSize(size)
  {
    Vector3i(if px then WfcMath.PositiveModulo(p.x, size.x) else p.x,
             if py then WfcMath.PositiveModulo(p.y, size.y) else p.y,
             if pz then WfcMath.PositiveModulo(p.z, size.z) else p.z)
  }

  /** Each periodic coordinate is reduced modulo the size (a non-negative
      remainder), the others are kept. */
  lemma WrapComponents(size: Vector3i, px: bool, py: bool, pz: bool, p: Vector3i)
    requires PositiveSize(size)
    ensures var r := WrapPeriodic(size, px, py, pz, p);
            r.x == (if px then p.x % size.x else p.x) &&
            r.y == (if py then p.y % size.y else p.y) &&
            r.z == (if pz then p.z % size.z else p.z)
  {
  }

  /** A wrapped position is inside the grid exactly when its non-periodic
      coordinates already were, and wrapping twice changes nothing more. */
  lemma WrapLandsInBounds(size: Vector3i, px: bool, py: bool, pz: bool, p: Vector3i)
    requires PositiveSize(size)
    ensures InBounds(size, WrapPeriodic(size, px, py, pz, p)) <==>
              (px || 0 <= p.x < size.x) && (py || 0 <= p.y < size.y) && (pz || 0 <= p.z < size.z)
    ensures WrapPeriodic(size, px, py, pz, WrapPeriodic(size, px, py, pz, p)) == WrapPeriodic(size, px, py, pz, p)
    ensures InBounds(size, p) ==> WrapPeriodic(size, px, py, pz, p) == p
  {
    WfcMath.InRangeMod(p.x % size.x, size.x);
    WfcMath.InRangeMod(p.y % size.y, size.y);
    WfcMath.InRangeMod(p.z % size.z, size.z);
    WfcMath.InRangeMod(p.x, size.x);
    WfcMath.InRangeMod(p.y, size.y);
    WfcMath.InRangeMod(p.z, size.z);
  }

  /** Stepping by `e` and wrapping, then stepping back and wrapping, returns
      to the wrapped start. */
  lemma WrapStepBack(size: Vector3i, px: bool, py: bool, pz: bool, p: Vector3i, e: Vector3i)
    requires PositiveSize(size)
    ensures WrapPeriodic(size, px, py, pz, WrapPeriodic(size, px, py, pz, p.Plus(e)).Minus(e))
         == WrapPeriodic(size, px, py, pz, p)
  {
    ModStepBack(p.x, e.x, size.x);
    ModStepBack(p.y, e.y, size.y);
    ModStepBack(p.z, e.z, size.z);
  }

  lemma ModStepBack(a: int, e: int, d: int)
    requires d > 0
    ensures ((a + e) % d - e) % d == a % d
  {
    var q := (a + e) / d;
    assert (a + e) % d - e == a - q * d;
    ModShift(a, -q, d);
  }

  lemma ModShift(a: int, k: int, d: int)
    requires d > 0
    ensures (a + k * d) % d == a % d
  {
    WfcMath.LemmaDivModUnique(a + k * d, d, a / d + k, a % d);
  }

  /** Grid::GetNeighbors: the six neighbours (LessX, MoreX, LessY, MoreY,
      LessZ, MoreZ), each wrapped and tagged with the side facing it. */
  function Neighbors(size: Vector3i, px: bool, py: bool, pz: bool, p: Vector3i): (r: seq<(Vector3i, Direction3D)>)
    requires PositiveSize(size)
    ensures |r| == 6
  {
    [(WrapPeriodic(size, px, py, pz, Vector3i(p.x - 1, p.y, p.z)), MinX),
     (WrapPeriodic(size, px, py, pz, Vector3i(p.x + 1, p.y, p.z)), MaxX),
     (WrapPeriodic(size, px, py, pz, Vector3i(p.x, p.y - 1, p.z)), MinY),
     (WrapPeriodic(size, px, py, pz, Vector3i(p.x, p.y + 1, p.z)), MaxY),
     (WrapPeriodic(size, px, py, pz, Vector3i(p.x, p.y, p.z - 1)), MinZ),
     (WrapPeriodic(size, px, py, pz, Vector3i(p.x, p.y, p.z + 1)), MaxZ)]
  }

  /** The i-th neighbour is one step towards direction i, wrapped. */
  lemma NeighborsAt(size: Vector3i, px: bool, py: bool, pz: bool, p: Vector3i, i: nat)
    requires PositiveSize(size) && i < 6
    ensures Neighbors(size, px, py, pz, p)[i].1 == DirFromOrdinal(i)
    ensures Neighbors(size, px, py, pz, p)[i].0 == WrapPeriodic(size, px, py, pz, p.Plus(GetFaceDirection(DirFromOrdinal(i))))
  {
  }

  /** Neighbourhood is mutual: the neighbour of a cell on side d has that
      cell as its neighbour on the opposite side. */
  lemma NeighborsAreMutual(size: Vector3i, px: bool, py: bool, pz: bool, p: Vector3i, i: nat)
    requires PositiveSize(size) && InBounds(size, p) && i < 6
    ensures var q := Neighbors(size, px, py, pz, p)[i].0;
            var j := DirOrdinal(GetOpposite(DirFromOrdinal(i)));
            j < 6 && Neighbors(size, px, py, pz, q)[j] == (p, GetOpposite(DirFromOrdinal(i)))
  {
    var d := DirFromOrdinal(i);
    var e := GetFaceDirection(d);
    var q := WrapPeriodic(size, px, py, pz, p.Plus(e));
    var j := DirOrdinal(GetOpposite(d));
    assert GetFaceDirection(DirFromOrdinal(j)) == Vector3i(-e.x, -e.y, -e.z) by {
      assert DirFromOrdinal(j) == GetOpposite(d);
    }
    assert q.Plus(Vector3i(-e.x, -e.y, -e.z)) == q.Minus(e);
    NeighborsAt(size, px, py, pz, p, i);
    NeighborsAt(size, px, py, pz, q, j);
    WrapStepBack(size, px, py, pz, p, e);
    WrapLandsInBounds(size, px, py, pz, p);
  }

  /** The offset of the neighborI-th cell of a history entry: the cell
      itself, then the six neighbours in Direction3D order. */
  function HistoryOffset(i: nat): (v: Vector3i)
    requires i < N_HISTORY_NEIGHBORS
    ensures i == 0 ==> v == Vector3i(0, 0, 0)
    ensures i > 0 ==> v == GetFaceDirection(DirFromOrdinal(i - 1))
  {
    if i == 0 then Vector3i(0, 0, 0) else GetFaceDirection(DirFromOrdinal(i - 1))
  }

  // ---------------------------------------------------------------------
  // Cached counts

  /** The total size of a cell's per-tile permutation sets: what
      NPossibilities caches. */
  function SumSizes(s: seq<set<nat>>): nat
  {
    if |s| == 0 then 0 else SumSizes(s[..|s| - 1]) + |s[|s| - 1]|
  }

  /** n empty TransformSets. */
  function Empties(n: nat): (r: seq<set<nat>>)
    ensures |r| == n && forall t :: 0 <= t < n ==> r[t] == {}
  {
    seq(n, _ => {})
  }

  /** Replacing one set changes the total by the difference of the sizes. */
  lemma {:induction false} SumSizesUpdate(s: seq<set<nat>>, i: nat, x: set<nat>)
    requires i < |s|
    ensures SumSizes(s[i := x]) + |s[i]| == SumSizes(s) + |x|
    decreases |s|
  {
    var n := |s| - 1;
    var u := s[i := x];
    assert u[..n] == if i < n then s[..n][i := x] else s[..n];
    if i < n {
      SumSizesUpdate(s[..n], i, x);
    }
  }

  /** One set is never larger than the total. */
  lemma {:induction false} SumSizesBound(s: seq<set<nat>>, i: nat)
    requires i < |s|
    ensures |s[i]| <= SumSizes(s)
    decreases |s|
  {
    var n := |s| - 1;
    if i < n {
      assert s[..n][i] == s[i];
      SumSizesBound(s[..n], i);
    }
  }

  /** The totals of two sequences are ordered when the sets are. */
  lemma {:induction false} SumSizesMono(s: seq<set<nat>>, u: seq<set<nat>>)
    requires |s| == |u| && forall t :: 0 <= t < |s| ==> s[t] <= u[t]
    ensures SumSizes(s) <= SumSizes(u)
    decreases |s|
  {
    if |s| > 0 {
      var n := |s| - 1;
      SubsetSize(s[n], u[n]);
      SumSizesMono(s[..n], u[..n]);
    }
  }

  lemma {:induction false} SumSizesEmpties(n: nat)
    ensures SumSizes(Empties(n)) == 0
  {
    if n > 0 {
      assert Empties(n)[..n - 1] == Empties(n - 1);
      SumSizesEmpties(n - 1);
    }
  }

  lemma SubsetSize(a: set<nat>, b: set<nat>)
    requires a <= b
    ensures |a| <= |b|
  {
    assert b == a + (b - a);
  }

  /** A set splits into the part inside `m` and the part outside it: the
      counts TransformSet Remove and Intersect return add up to its size. */
  lemma SplitSize(a: set<nat>, m: set<nat>)
    ensures |a * m| + |a - m| == |a|
  {
    assert a == (a * m) + (a - m);
    assert (a * m) * (a - m) == {};
  }
}
