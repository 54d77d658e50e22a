/** What clearing a region and the passes after it do to the Tiled3D grid's
    cells (Grid.cpp, ClearCells): the region's eligible cells are reset, then
    the border and the cells left placed only narrow the counts of unset
    cells. */
module GridClear {
  import opened Vectors
  import opened GridCells
  import opened GridState
  import WfcMath

  /** The cells a clear resets: the grid cells the region's points land on
      that are changeable, or all of them when immutable cells are
      included. */
  ghost function Cleared(cells0: map<Vector3i, CellState>, ps: seq<Vector3i>, includeImmutable: bool): set<Vector3i>
  {
    set q | q in ps && q in cells0 && (includeImmutable || cells0[q].IsChangeable)
  }

  /** One more visited point adds its cell to the cleared ones when it is
      eligible. */
  lemma ClearedStep(cells0: map<Vector3i, CellState>, ps: seq<Vector3i>, i: nat, includeImmutable: bool)
    requires i < |ps|
    ensures Cleared(cells0, ps[..i + 1], includeImmutable) ==
              Cleared(cells0, ps[..i], includeImmutable) +
              (if ps[i] in cells0 && (includeImmutable || cells0[ps[i]].IsChangeable) then {ps[i]} else {})
  {
    assert ps[..i + 1] == ps[..i] + [ps[i]];
  }

  /** Only the unset cells' counts differ: every cell keeps its tile, its
      permutation and its changeability, and a placed cell keeps its whole
      state. */
  ghost predicate OnlyCounts(cells0: map<Vector3i, CellState>, cells: map<Vector3i, CellState>)
  {
    cells.Keys == cells0.Keys &&
    forall p {:trigger cells[p]} :: p in cells ==>
      cells[p] == cells0[p].(NPossibilities := cells[p].NPossibilities) &&
      (cells0[p].IsSet() ==> cells[p] == cells0[p])
  }

  lemma OnlyCountsTrans(a: map<Vector3i, CellState>, b: map<Vector3i, CellState>, c: map<Vector3i, CellState>)
    requires OnlyCounts(a, b) && OnlyCounts(b, c)
    ensures OnlyCounts(a, c)
  {
    forall p | p in c
      ensures c[p] == a[p].(NPossibilities := c[p].NPossibilities) && (a[p].IsSet() ==> c[p] == a[p])
    {
      assert b[p] == a[p].(NPossibilities := b[p].NPossibilities);
    }
  }

  /** Giving an unset cell a new count is such a change. */
  lemma OnlyCountsUpdate(cells0: map<Vector3i, CellState>, cells: map<Vector3i, CellState>, p: Vector3i, count: nat)
    requires OnlyCounts(cells0, cells) && p in cells && !cells[p].IsSet()
    ensures OnlyCounts(cells0, cells[p := cells[p].(NPossibilities := count)])
  {
  }

  /** The cells after the clear loop and any narrowing after it, compared
      with the cells before: a cleared cell has its changeability raised
      when the clear makes cells mutable, and stays placed only when the
      tileset has a single permutation (a placed cell counts one
      possibility, and ResetCellPossibilities leaves a cell counting
      NPermutedTiles alone); no cell becomes placed or changes its permutation, and a
      placed cell that was not cleared keeps its state. */
  ghost predicate ClearedFrom(cells0: map<Vector3i, CellState>, cells: map<Vector3i, CellState>,
                              cleared: set<Vector3i>, becomeMutable: bool, nPermuted: nat)
  {
    cells.Keys == cells0.Keys &&
    forall p {:trigger cells[p]} :: p in cells ==>
      cells[p].IsChangeable == (cells0[p].IsChangeable || (becomeMutable && p in cleared)) &&
      cells[p].ChosenPermutation == cells0[p].ChosenPermutation &&
      (cells[p].IsSet() ==> cells0[p].IsSet() && cells[p].ChosenTile == cells0[p].ChosenTile) &&
      (cells0[p].IsSet() && p !in cleared ==> cells[p] == cells0[p]) &&
      (cells[p].IsSet() && p in cleared ==> nPermuted == 1)
  }

  /** Narrowing after the clear keeps what the clear established. */
  lemma ClearedThenCounts(cells0: map<Vector3i, CellState>, mid: map<Vector3i, CellState>, cells: map<Vector3i, CellState>,
                          cleared: set<Vector3i>, becomeMutable: bool, nPermuted: nat)
    requires ClearedFrom(cells0, mid, cleared, becomeMutable, nPermuted) && OnlyCounts(mid, cells)
    ensures ClearedFrom(cells0, cells, cleared, becomeMutable, nPermuted)
  {
    forall p | p in cells
      ensures cells[p].IsChangeable == (cells0[p].IsChangeable || (becomeMutable && p in cleared))
      ensures cells[p].ChosenPermutation == cells0[p].ChosenPermutation
      ensures cells[p].IsSet() ==> cells0[p].IsSet() && cells[p].ChosenTile == cells0[p].ChosenTile
      ensures cells0[p].IsSet() && p !in cleared ==> cells[p] == cells0[p]
      ensures cells[p].IsSet() && p in cleared ==> nPermuted == 1
    {
      assert cells[p] == mid[p].(NPossibilities := cells[p].NPossibilities);
    }
  }

  /** Every point, wrapped as FilterPos wraps it. */
  function WrappedPoints(size: Vector3i, px: bool, py: bool, pz: bool, pts: seq<Vector3i>): (r: seq<Vector3i>)
    requires PositiveSize(size)
    ensures |r| == |pts| && forall i :: 0 <= i < |pts| ==> r[i] == WrapPeriodic(size, px, py, pz, pts[i])
  {
    seq(|pts|, i requires 0 <= i < |pts| => WrapPeriodic(size, px, py, pz, pts[i]))
  }

  /** An eligible cell is reset: it keeps its permutation, its
      changeability is raised when asked, and it stays placed only with
      a single permutation in the tileset. */
  lemma ClearedFromStep(cells0: map<Vector3i, CellState>, before: map<Vector3i, CellState>, after: map<Vector3i, CellState>,
                        cleared: set<Vector3i>, q: Vector3i, becomeMutable: bool, nPermuted: nat)
    requires ClearedFrom(cells0, before, cleared, becomeMutable, nPermuted) && q in before && q in after
    requires after == before[q := after[q]]
    requires after[q] == before[q].(IsChangeable := before[q].IsChangeable || becomeMutable,
                                    ChosenTile := after[q].ChosenTile, NPossibilities := after[q].NPossibilities)
    requires after[q].IsSet() ==> after[q].ChosenTile == before[q].ChosenTile && nPermuted == 1
    ensures ClearedFrom(cells0, after, cleared + {q}, becomeMutable, nPermuted)
  {
    forall p | p in after
      ensures after[p].IsChangeable == (cells0[p].IsChangeable || (becomeMutable && p in cleared + {q}))
      ensures after[p].ChosenPermutation == cells0[p].ChosenPermutation
      ensures after[p].IsSet() ==> cells0[p].IsSet() && after[p].ChosenTile == cells0[p].ChosenTile
      ensures cells0[p].IsSet() && p !in cleared + {q} ==> after[p] == cells0[p]
      ensures after[p].IsSet() && p in cleared + {q} ==> nPermuted == 1
    {
      if p != q {
        assert after[p] == before[p];
      } else {
        assert before[q].IsChangeable == (cells0[q].IsChangeable || (becomeMutable && q in cleared));
      }
    }
  }

  /** The placed cells of the visited points that may not be cleared,
      each listed once: ClearCells' leftovers. */
  ghost predicate LeftoversOf(cells0: map<Vector3i, CellState>, ps: seq<Vector3i>, includeImmutable: bool,
                              leftovers: seq<Vector3i>)
  {
    forall q :: q in leftovers <==>
      q in ps && q in cells0 && !(includeImmutable || cells0[q].IsChangeable) && cells0[q].IsSet()
  }

  lemma LeftoversStep(cells0: map<Vector3i, CellState>, ps: seq<Vector3i>, i: nat, includeImmutable: bool,
                      leftovers0: seq<Vector3i>, leftovers: seq<Vector3i>)
    requires i < |ps| && LeftoversOf(cells0, ps[..i], includeImmutable, leftovers0)
    requires var q := ps[i];
             leftovers == if q in cells0 && !(includeImmutable || cells0[q].IsChangeable) && cells0[q].IsSet() &&
                             q !in leftovers0
                          then leftovers0 + [q] else leftovers0
    ensures LeftoversOf(cells0, ps[..i + 1], includeImmutable, leftovers)
  {
    assert ps[..i + 1] == ps[..i] + [ps[i]];
  }

  // ---------------------------------------------------------------------
  // The possible sets

  /** The possible sets after the clear loop, compared with those before: a
      cleared cell that did not count every permutation has its initial
      sets back and counts their total size; every other cell keeps its
      sets and its count. */
  ghost predicate ResetFrom(cells0: map<Vector3i, CellState>, poss0: map<Vector3i, seq<set<nat>>>,
                            cells: map<Vector3i, CellState>, poss: map<Vector3i, seq<set<nat>>>,
                            init: map<Vector3i, seq<set<nat>>>, cleared: set<Vector3i>, nPermuted: nat)
  {
    poss.Keys == poss0.Keys &&
    forall p {:trigger poss[p]} :: p in poss ==>
      p in cells0 && p in cells && p in init &&
      if p in cleared && cells0[p].NPossibilities != nPermuted then
        poss[p] == init[p] && cells[p].NPossibilities == SumSizes(init[p])
      else
        poss[p] == poss0[p] && cells[p].NPossibilities == cells0[p].NPossibilities
  }

  lemma ResetFromSame(cells: map<Vector3i, CellState>, poss: map<Vector3i, seq<set<nat>>>,
                      init: map<Vector3i, seq<set<nat>>>, nPermuted: nat)
    requires poss.Keys <= cells.Keys && poss.Keys <= init.Keys
    ensures ResetFrom(cells, poss, cells, poss, init, {}, nPermuted)
  {
  }

  /** Resetting one more cell q (ResetCellPossibilities: a cell counting
      every permutation is left alone, any other gets its initial sets)
      adds it to the reset ones; resetting a cell twice changes nothing
      more. */
  lemma ResetFromStep(cells0: map<Vector3i, CellState>, poss0: map<Vector3i, seq<set<nat>>>,
                      cellsB: map<Vector3i, CellState>, possB: map<Vector3i, seq<set<nat>>>,
                      cellsA: map<Vector3i, CellState>, possA: map<Vector3i, seq<set<nat>>>,
                      init: map<Vector3i, seq<set<nat>>>, cleared: set<Vector3i>, q: Vector3i, nPermuted: nat)
    requires ResetFrom(cells0, poss0, cellsB, possB, init, cleared, nPermuted) && q in possB && q in cellsA && q in possA
    requires cellsA == cellsB[q := cellsA[q]] && possA == possB[q := possA[q]]
    requires cellsB[q].NPossibilities == nPermuted ==>
               possA[q] == possB[q] && cellsA[q].NPossibilities == nPermuted
    requires cellsB[q].NPossibilities != nPermuted ==>
               possA[q] == init[q] && cellsA[q].NPossibilities == SumSizes(init[q])
    ensures ResetFrom(cells0, poss0, cellsA, possA, init, cleared + {q}, nPermuted)
  {
    forall p | p in possA
      ensures p in cells0 && p in cellsA && p in init &&
              if p in cleared + {q} && cells0[p].NPossibilities != nPermuted then
                possA[p] == init[p] && cellsA[p].NPossibilities == SumSizes(init[p])
              else
                possA[p] == poss0[p] && cellsA[p].NPossibilities == cells0[p].NPossibilities
    {
      assert p in possB;
      if p != q {
        assert possA[p] == possB[p] && cellsA[p] == cellsB[p];
      }
    }
  }

  /** Every set of `poss` lies inside the matching set of `bound`. */
  ghost predicate Within(poss: seq<set<nat>>, bound: seq<set<nat>>)
  {
    |poss| == |bound| && forall t :: 0 <= t < |poss| ==> poss[t] <= bound[t]
  }

  lemma WithinSelf(a: seq<set<nat>>)
    ensures Within(a, a)
  {
  }

  lemma WithinTrans(a: seq<set<nat>>, b: seq<set<nat>>, c: seq<set<nat>>)
    requires Within(a, b) && Within(b, c)
    ensures Within(a, c)
  {
    forall t | 0 <= t < |a|
      ensures a[t] <= c[t]
    {
      assert a[t] <= b[t];
    }
  }

  /** No cell gained a possibility. */
  ghost predicate Narrows(poss0: map<Vector3i, seq<set<nat>>>, poss: map<Vector3i, seq<set<nat>>>)
  {
    poss.Keys == poss0.Keys &&
    forall p {:trigger poss[p]} :: p in poss ==> Within(poss[p], poss0[p])
  }

  /** Every cell's sets shrank or lie inside its initial sets, as for a
      cell that RecalculateCellPossibilities rebuilt from them. */
  ghost predicate NarrowsOrRebuilds(poss0: map<Vector3i, seq<set<nat>>>, poss: map<Vector3i, seq<set<nat>>>,
                                    init: map<Vector3i, seq<set<nat>>>)
  {
    poss.Keys == poss0.Keys &&
    forall p {:trigger poss[p]} :: p in poss ==> Within(poss[p], poss0[p]) || (p in init && Within(poss[p], init[p]))
  }

  lemma NarrowsSame(poss: map<Vector3i, seq<set<nat>>>, init: map<Vector3i, seq<set<nat>>>)
    ensures Narrows(poss, poss) && NarrowsOrRebuilds(poss, poss, init)
  {
    forall p | p in poss
      ensures Within(poss[p], poss[p])
    {
    }
  }

  /** Each pass is built of one-cell steps that narrow, or rebuild, that
      cell. */
  lemma NarrowsStep(poss0: map<Vector3i, seq<set<nat>>>, before: map<Vector3i, seq<set<nat>>>,
                    after: map<Vector3i, seq<set<nat>>>, q: Vector3i)
    requires Narrows(poss0, before) && q in before && q in after && after == before[q := after[q]]
    requires Within(after[q], before[q])
    ensures Narrows(poss0, after)
  {
    forall p | p in after
      ensures Within(after[p], poss0[p])
    {
      WithinTrans(after[p], before[p], poss0[p]);
    }
  }

  lemma NarrowsOrRebuildsStep(poss0: map<Vector3i, seq<set<nat>>>, before: map<Vector3i, seq<set<nat>>>,
                              after: map<Vector3i, seq<set<nat>>>, init: map<Vector3i, seq<set<nat>>>, q: Vector3i)
    requires NarrowsOrRebuilds(poss0, before, init) && q in before && q in after && after == before[q := after[q]]
    requires Within(after[q], before[q]) || (q in init && Within(after[q], init[q]))
    ensures NarrowsOrRebuilds(poss0, after, init)
  {
    forall p | p in after
      ensures Within(after[p], poss0[p]) || (p in init && Within(after[p], init[p]))
    {
      if p == q && Within(after[q], before[q]) {
        if Within(before[q], poss0[q]) {
          WithinTrans(after[q], before[q], poss0[q]);
        } else {
          WithinTrans(after[q], before[q], init[q]);
        }
      }
    }
  }

  lemma NarrowsOrRebuildsTrans(a: map<Vector3i, seq<set<nat>>>, b: map<Vector3i, seq<set<nat>>>,
                               c: map<Vector3i, seq<set<nat>>>, init: map<Vector3i, seq<set<nat>>>)
    requires NarrowsOrRebuilds(a, b, init) && NarrowsOrRebuilds(b, c, init)
    ensures NarrowsOrRebuilds(a, c, init)
  {
    forall p | p in c
      ensures Within(c[p], a[p]) || (p in init && Within(c[p], init[p]))
    {
      if Within(c[p], b[p]) {
        if Within(b[p], a[p]) {
          WithinTrans(c[p], b[p], a[p]);
        } else {
          WithinTrans(c[p], b[p], init[p]);
        }
      }
    }
  }

  /** The possible sets at the end of ClearCells, compared with those
      before it: a cell the clear reset ends inside its initial sets;
      every other cell ends inside its sets before, or inside its initial
      sets when the border pass rebuilt it. */
  ghost predicate RefilteredFrom(cells0: map<Vector3i, CellState>, poss0: map<Vector3i, seq<set<nat>>>,
                                 poss: map<Vector3i, seq<set<nat>>>, init: map<Vector3i, seq<set<nat>>>,
                                 cleared: set<Vector3i>, nPermuted: nat)
  {
    poss.Keys == poss0.Keys &&
    forall p {:trigger poss[p]} :: p in poss ==>
      p in cells0 && p in init &&
      if p in cleared && cells0[p].NPossibilities != nPermuted then Within(poss[p], init[p])
      else Within(poss[p], poss0[p]) || Within(poss[p], init[p])
  }

  /** The reset, then the border pass, then the leftovers' pass. */
  lemma ResetThenNarrowed(cells0: map<Vector3i, CellState>, poss0: map<Vector3i, seq<set<nat>>>,
                          cells1: map<Vector3i, CellState>, poss1: map<Vector3i, seq<set<nat>>>,
                          poss2: map<Vector3i, seq<set<nat>>>, poss3: map<Vector3i, seq<set<nat>>>,
                          init: map<Vector3i, seq<set<nat>>>, cleared: set<Vector3i>, nPermuted: nat)
    requires ResetFrom(cells0, poss0, cells1, poss1, init, cleared, nPermuted)
    requires NarrowsOrRebuilds(poss1, poss2, init) && Narrows(poss2, poss3)
    ensures RefilteredFrom(cells0, poss0, poss3, init, cleared, nPermuted)
  {
    forall p | p in poss3
      ensures p in cells0 && p in init &&
              if p in cleared && cells0[p].NPossibilities != nPermuted then Within(poss3[p], init[p])
              else Within(poss3[p], poss0[p]) || Within(poss3[p], init[p])
    {
      assert p in poss2 && p in poss1;
      assert Within(poss3[p], poss2[p]);
      if Within(poss2[p], poss1[p]) {
        WithinTrans(poss3[p], poss2[p], poss1[p]);
      } else {
        WithinTrans(poss3[p], poss2[p], init[p]);
      }
    }
  }

  /** A unit step: what ApplyFilter or RecalculateCellPossibilities does
      to one cell when it changes only the count of an unset cell. */
  lemma OnlyCountsStep(cells0: map<Vector3i, CellState>, cells1: map<Vector3i, CellState>,
                       cells2: map<Vector3i, CellState>, p: Vector3i)
    requires OnlyCounts(cells0, cells1) && p in cells1 && p in cells2 && cells2 == cells1[p := cells2[p]]
    requires cells2[p] == cells1[p].(NPossibilities := cells2[p].NPossibilities)
    requires cells1[p].IsSet() ==> cells2[p] == cells1[p]
    ensures OnlyCounts(cells0, cells2)
  {
    forall q | q in cells2
      ensures cells2[q] == cells0[q].(NPossibilities := cells2[q].NPossibilities) && (cells0[q].IsSet() ==> cells2[q] == cells0[q])
    {
      if q != p {
        assert cells2[q] == cells1[q];
      }
    }
  }

  lemma OnlyCountsSame(cells: map<Vector3i, CellState>)
    ensures OnlyCounts(cells, cells)
  {
  }

  /** A region is its three coordinate ranges. */
  lemma ContainsByAxes(region: Region3i, p: Vector3i)
    requires forall k :: 0 <= k < 3 ==> region.MinInclusive.Get(k) <= p.Get(k) < region.MaxExclusive.Get(k)
    ensures region.Contains(p)
  {
    assert region.MinInclusive.Get(0) <= p.Get(0) < region.MaxExclusive.Get(0);
    assert region.MinInclusive.Get(1) <= p.Get(1) < region.MaxExclusive.Get(1);
    assert region.MinInclusive.Get(2) <= p.Get(2) < region.MaxExclusive.Get(2);
  }

  /** Stepping inward from a border position of the region's face lands in
      the region. */
  lemma BorderInnerInRegion(region: Region3i, corner: Vector3i, axis: nat, faceAxis1: nat, faceAxis2: nat, side: nat,
                            faceY: int, faceX: int, rawPos: Vector3i)
    requires region.GetSize().x > 0 && region.GetSize().y > 0 && region.GetSize().z > 0
    requires axis < 3 && faceAxis1 < 3 && faceAxis2 < 3 && axis != faceAxis1 && axis != faceAxis2 && faceAxis1 != faceAxis2
    requires side < 2 && corner == (if side == 0 then region.MinInclusive.Minus(Vector3i(1, 1, 1)) else region.MaxExclusive)
    requires region.MinInclusive.Get(faceAxis1) <= faceY < region.MaxExclusive.Get(faceAxis1)
    requires region.MinInclusive.Get(faceAxis2) <= faceX < region.MaxExclusive.Get(faceAxis2)
    requires rawPos == Vector3i(0, 0, 0).With(axis, corner.Get(axis)).With(faceAxis1, faceY).With(faceAxis2, faceX)
    ensures region.Contains(ClearedPosAsWritten(rawPos, axis, side))
  {
    ContainsByAxes(region, ClearedPosAsWritten(rawPos, axis, side));
  }

  // ---------------------------------------------------------------------
  // The border pass's inner neighbour

  /** The cell inward of a border cell outsidePos, as ClearCells computes
      it: one step along the axis, not wrapped. */
  function ClearedPosAsWritten(outsidePos: Vector3i, axis: nat, side: nat): Vector3i
    requires axis < 3
  {
    outsidePos.With(axis, outsidePos.Get(axis) - (side * 2 - 1))
  }

  /** The inward step wrapped like every other position. */
  function ClearedPos(size: Vector3i, px: bool, py: bool, pz: bool, outsidePos: Vector3i, axis: nat, side: nat): Vector3i
    requires PositiveSize(size) && axis < 3
  {
    WrapPeriodic(size, px, py, pz, ClearedPosAsWritten(outsidePos, axis, side))
  }

  /** Stepping inward from a wrapped border position and wrapping reaches
      the same cell as stepping inward first and wrapping once. */
  lemma ClearedPosStepBack(size: Vector3i, px: bool, py: bool, pz: bool, raw: Vector3i, axis: nat, side: nat)
    requires PositiveSize(size) && axis < 3
    ensures ClearedPos(size, px, py, pz, WrapPeriodic(size, px, py, pz, raw), axis, side) ==
              WrapPeriodic(size, px, py, pz, ClearedPosAsWritten(raw, axis, side))
  {
    var d := side * 2 - 1;
    var e := Vector3i(0, 0, 0).With(axis, d);
    var p := ClearedPosAsWritten(raw, axis, side);
    var w := WrapPeriodic(size, px, py, pz, raw);
    if axis == 0 {
      assert p.Plus(e) == raw && ClearedPosAsWritten(w, axis, side) == w.Minus(e);
    } else if axis == 1 {
      assert p.Plus(e) == raw && ClearedPosAsWritten(w, axis, side) == w.Minus(e);
    } else {
      assert p.Plus(e) == raw && ClearedPosAsWritten(w, axis, side) == w.Minus(e);
    }
    WrapStepBack(size, px, py, pz, p, e);
  }

  /** On a grid periodic in x, clearing a region whose minimum x is 0 gives
      a border cell across the seam at the last column; the unwrapped step
      inward from it lies past the grid, while the wrapped one is the
      region's cell. */
  lemma ClearedPosAsWrittenLeavesGrid(size: Vector3i, py: bool, pz: bool, p: Vector3i)
    requires PositiveSize(size) && InBounds(size, p) && p.x == 0
    ensures var outside := WrapPeriodic(size, true, py, pz, p.Minus(Vector3i(1, 0, 0)));
            outside == Vector3i(size.x - 1, p.y, p.z) && InBounds(size, outside) &&
            !InBounds(size, ClearedPosAsWritten(outside, 0, 0)) &&
            ClearedPos(size, true, py, pz, outside, 0, 0) == p
  {
    var q := p.Minus(Vector3i(1, 0, 0));
    assert q == Vector3i(-1, p.y, p.z);
    WrapComponents(size, true, py, pz, q);
    WfcMath.LemmaDivModUnique(-1, size.x, -1, size.x - 1);
    WfcMath.InRangeMod(p.y, size.y);
    WfcMath.InRangeMod(p.z, size.z);
    var outside := Vector3i(size.x - 1, p.y, p.z);
    assert ClearedPosAsWritten(outside, 0, 0) == Vector3i(size.x, p.y, p.z);
    WrapComponents(size, true, py, pz, Vector3i(size.x, p.y, p.z));
    WfcMath.LemmaDivModUnique(size.x, size.x, 1, 0);
  }
}
