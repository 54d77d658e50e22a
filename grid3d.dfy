/** Tiled3D::Grid (Grid.cpp, Grid.h): the 3D tile grid the Tiled3D runner
    solves. The grid keeps, for every cell, its state and one TransformSet
    of still possible permutations per input tile; the sets a cell returns
    to when it is cleared; and a history of placements with a snapshot of
    the cell's and its six neighbours' sets before each placement, so that a
    placement at the top of the history can be undone.

    The arrays of the source become maps: `Cells` maps every position of
    the grid to its CellState, and `PossiblePermutations` and
    `InitialPossiblePermutations` map every position to a sequence indexed
    by tile (the 4D arrays of the source indexed by {tile, position}). A
    TransformSet is its set of bit indices. */
module Grid3D {
  import opened Common
  import opened Vectors
  import opened Faces3D
  import opened CubeTransforms
  import opened GridCells
  import opened GridTables
  import opened GridState
  import opened GridClear

  /** The points of the grid in the order `Region3i(Cells.GetDimensions())`
      visits them. */
  function GridPoints(size: Vector3i): (r: seq<Vector3i>)
    ensures forall p :: p in r <==> InBounds(size, p)
  {
    Points3Exactly(FromSize3(size));
    Points3(FromSize3(size))
  }

  /** A neighbour of a cell position lets permutation bit b of tile t stay
      possible: the filter the source applies, with either the face's index
      known or not. */
  predicate Survives(b: nat, matching: set<nat>, faceKnown: bool, isForbidding: bool)
  {
    if faceKnown then (b in matching <==> !isForbidding) else isForbidding
  }

  /** A region whose maximum corner is not below its minimum corner. */
  predicate WellFormedRegion(region: Region3i)
  {
    region.MinInclusive.x <= region.MaxExclusive.x &&
    region.MinInclusive.y <= region.MaxExclusive.y &&
    region.MinInclusive.z <= region.MaxExclusive.z
  }

  lemma RegionCount(region: Region3i)
    requires WellFormedRegion(region)
    ensures region.GetNumbElements() >= 0
    ensures region.GetNumbElements() > 0 <==>
              region.GetSize().x > 0 && region.GetSize().y > 0 && region.GetSize().z > 0
  {
    var s := region.GetSize();
    assert s.x >= 0 && s.y >= 0 && s.z >= 0;
    assert s.x * s.y >= 0;
    if s.x > 0 && s.y > 0 {
      assert s.x * s.y > 0;
    } else {
      assert s.x * s.y == 0;
    }
  }

  /** Region3i(c, c + 1) holds c alone, and iteration visits just c. */
  lemma UnitRegion(c: Vector3i)
    ensures var r := Region3i(c, c.Plus(Vector3i(1, 1, 1)));
            r.GetNumbElements() == 1 && WellFormedRegion(r) &&
            (forall q :: r.Contains(q) <==> q == c) && Points3(r) == [c]
  {
    var r := Region3i(c, c.Plus(Vector3i(1, 1, 1)));
    Points3Exactly(r);
    assert r.Contains(c);
    assert Points3(r)[0] in Points3(r);
  }

  /** ResetCellPossibilities' loop: copy each initial set and add up
      their sizes. */
  method CopySets(init: seq<set<nat>>) returns (sets: seq<set<nat>>, count: nat)
    ensures sets == init && count == SumSizes(init)
  {
    sets, count := [], 0;
    var tileI := 0;
    while tileI < |init|
      invariant 0 <= tileI <= |init|
      invariant sets == init[..tileI] && count == SumSizes(sets)
    {
      var initialPossibilities := init[tileI];
      assert init[..tileI + 1] == init[..tileI] + [initialPossibilities];
      SumSizesSnoc(sets, initialPossibilities);
      sets := sets + [initialPossibilities];
      count := count + |initialPossibilities|;
      tileI := tileI + 1;
    }
    assert init[..tileI] == init;
  }

  /** One in-grid cell of RestoreEntry's loop: its sets are copied back
      and counted, and the count is kept unless the cell is placed and
      not the one being undone. */
  method RestoreCell(cells0: map<Vector3i, CellState>, poss0: map<Vector3i, seq<set<nat>>>,
                     q: Vector3i, block: seq<set<nat>>, isSelf: bool)
    returns (cells: map<Vector3i, CellState>, poss: map<Vector3i, seq<set<nat>>>)
    requires q in cells0
    ensures cells == cells0[q := RestoredCell(cells0[q], SumSizes(block), isSelf)]
    ensures poss == poss0[q := block]
  {
    var sets, count := CopySets(block);
    var neighborCell := cells0[q];
    if !neighborCell.IsSet() || isSelf {
      neighborCell := neighborCell.(NPossibilities := count);
    }
    cells := cells0[q := neighborCell];
    poss := poss0[q := sets];
  }

  /** RestoreEntry's loop, on the grid's settings and copies of its maps. */
  method RestoreLoop(cells0: map<Vector3i, CellState>, poss0: map<Vector3i, seq<set<nat>>>, size: Vector3i,
                     px: bool, py: bool, pz: bool, c: Vector3i, entry: seq<set<nat>>, n: nat)
    returns (cells: map<Vector3i, CellState>, poss: map<Vector3i, seq<set<nat>>>)
    requires PositiveSize(size) && CellsCover(size, cells0) && |entry| == N_HISTORY_NEIGHBORS * n
    ensures (cells, poss) == RestoreFold(cells0, poss0, size, c, HistoryPositions(size, px, py, pz, c), entry,
                                         n, N_HISTORY_NEIGHBORS)
  {
    ghost var positions := HistoryPositions(size, px, py, pz, c);
    cells, poss := cells0, poss0;
    var neighborI := 0;
    while neighborI < N_HISTORY_NEIGHBORS
      invariant 0 <= neighborI <= N_HISTORY_NEIGHBORS
      invariant (cells, poss) == RestoreFold(cells0, poss0, size, c, positions, entry, n, neighborI)
    {
      var neighborCellPos := WrapPeriodic(size, px, py, pz, c.Plus(HistoryOffset(neighborI)));
      assert neighborCellPos == positions[neighborI];
      RestoreFoldKeys(cells0, poss0, size, c, positions, entry, n, neighborI);
      RestoreFoldStep(cells0, poss0, size, c, positions, entry, n, neighborI);
      if InBounds(size, neighborCellPos) {
        BlockInEntry(0, neighborI, n);
        assert entry[neighborI * n .. neighborI * n + n] == Block(entry, neighborI, n);
        cells, poss := RestoreCell(cells, poss, neighborCellPos, entry[neighborI * n .. neighborI * n + n],
                                   neighborCellPos == c);
      }
      neighborI := neighborI + 1;
    }
  }

  class Grid {
    /** The tileset, fixed for the grid's lifetime. */
    const InputTiles: seq<Tile>
    /** The total number of permutations of all tiles. */
    const NPermutedTiles: nat
    /** The dimensions of `Cells`. */
    const Size: Vector3i
    /** The number given to every permuted face of the tileset. */
    const FaceIndices: map<FacePermutation, int>
    /** The number of FaceIndices steps (one per permuted face). */
    const NFacePermutations: nat
    /** MatchingFaces[tile][faceIndex]: the permutations of the tile that
        show a face with that index. */
    const MatchingFaces: seq<seq<set<nat>>>
    /** Tiled3D::GetFace(cube, transform, side): the face a cube shows on a
        side once transformed. Transform3D.h declares it without defining
        it, so the grid takes it as a parameter. */
    const TileFace: (CubePermutation, Transform3D, Direction3D) -> FacePermutation

    var IsPeriodicX: bool
    var IsPeriodicY: bool
    var IsPeriodicZ: bool

    var Cells: map<Vector3i, CellState>
    var PossiblePermutations: map<Vector3i, seq<set<nat>>>
    var InitialPossiblePermutations: map<Vector3i, seq<set<nat>>>
    var ActionHistory: seq<Vector3i>
    var StatePreActionHistory: seq<set<nat>>

    // -------------------------------------------------------------------
    // Invariants

    /** The constant tables have the shapes the constructor gives them. */
    ghost predicate TablesOk()
    {
      |InputTiles| < TILE_IDX_INVALID && PositiveSize(Size) && WellFormedTiles(InputTiles) &&
      NPermutedTiles == TotalPermutations(InputTiles) &&
      |MatchingFaces| == |InputTiles| &&
      (forall t :: 0 <= t < |MatchingFaces| ==> |MatchingFaces[t]| == NFacePermutations) &&
      (forall f :: f in FaceIndices ==> 0 <= FaceIndices[f] < NFacePermutations)
    }

    /** Every grid position has a cell, its possible sets and its initial
        sets, one per tile. */
    ghost predicate CellsOk()
      reads this
    {
      CellsCover(Size, Cells) && Shaped(Size, |InputTiles|, PossiblePermutations) &&
      Shaped(Size, |InputTiles|, InitialPossiblePermutations)
    }

    /** Every cell's state agrees with its possible sets. */
    ghost predicate CountsOk()
      reads this
    {
      CountsAgree(|InputTiles|, Cells, PossiblePermutations)
    }

    /** The number of snapshot sets one history entry holds. */
    function EntrySize(): nat
    {
      N_HISTORY_NEIGHBORS * |InputTiles|
    }

    /** Each history entry is a grid position and owns seven snapshot
        blocks. */
    ghost predicate HistoryOk()
      reads this
    {
      |StatePreActionHistory| == |ActionHistory| * EntrySize() &&
      forall k :: 0 <= k < |ActionHistory| ==> InBounds(Size, ActionHistory[k])
    }

    ghost predicate Valid()
      reads this
    {
      TablesOk() && CellsOk() && CountsOk() && HistoryOk()
    }

    /** The periodic flags and the initial sets are unchanged. */
    twostate predicate SameSettings()
      reads this
    {
      IsPeriodicX == old(IsPeriodicX) && IsPeriodicY == old(IsPeriodicY) && IsPeriodicZ == old(IsPeriodicZ) &&
      InitialPossiblePermutations == old(InitialPossiblePermutations)
    }

    twostate predicate SameHistory()
      reads this
    {
      ActionHistory == old(ActionHistory) && StatePreActionHistory == old(StatePreActionHistory)
    }

    // -------------------------------------------------------------------
    // Positions

    /** Grid::FilterPos. */
    function FilterPos(p: Vector3i): Vector3i
      reads this`IsPeriodicX, this`IsPeriodicY, this`IsPeriodicZ
      requires PositiveSize(Size)
    {
      WrapPeriodic(Size, IsPeriodicX, IsPeriodicY, IsPeriodicZ, p)
    }

    /** Grid::GetNeighbors. */
    function GetNeighbors(p: Vector3i): seq<(Vector3i, Direction3D)>
      reads this`IsPeriodicX, this`IsPeriodicY, this`IsPeriodicZ
      requires PositiveSize(Size)
    {
      Neighbors(Size, IsPeriodicX, IsPeriodicY, IsPeriodicZ, p)
    }

    /** Grid::GetFace: the face of a placed tile on a side. */
    function GetFace(tile: nat, perm: Transform3D, side: Direction3D): FacePermutation
      requires tile < |InputTiles|
    {
      TileFace(InputTiles[tile].Data, perm, side)
    }

    // -------------------------------------------------------------------
    // Construction and Reset

    /** The constructor: builds FaceIndices and MatchingFaces, gives every
        cell each tile's permutations as initial sets, then resets. The
        grid starts without periodic axes. */
    constructor (inputTiles: seq<Tile>, outputSize: Vector3i,
                 tileFace: (CubePermutation, Transform3D, Direction3D) -> FacePermutation)
      requires |inputTiles| < TILE_IDX_INVALID && PositiveSize(outputSize) && WellFormedTiles(inputTiles)
      ensures Valid()
      ensures InputTiles == inputTiles && Size == outputSize && TileFace == tileFace
      ensures !IsPeriodicX && !IsPeriodicY && !IsPeriodicZ
      ensures forall t, b, k ::
                0 <= t < |inputTiles| && b in inputTiles[t].Permutations && 0 <= k < |inputTiles[t].Data.Faces| ==>
                  PermutedFace(b, inputTiles[t].Data.Faces[k]) in FaceIndices
      ensures forall t, idx, b :: 0 <= t < |inputTiles| && 0 <= idx < NFacePermutations ==>
                (b in MatchingFaces[t][idx] <==>
                   b in inputTiles[t].Permutations && ShowsFace(inputTiles[t], PermutedFace, FaceIndices, b, idx))
      ensures forall p :: p in Cells ==> Cells[p] == CellState(TILE_IDX_INVALID, Identity, true, NPermutedTiles)
      ensures forall p :: p in InitialPossiblePermutations ==> InitialPossiblePermutations[p] == TileSets(inputTiles)
      ensures PossiblePermutations == InitialPossiblePermutations
      ensures ActionHistory == [] && StatePreActionHistory == []
    {
      InputTiles := inputTiles;
      NPermutedTiles := TotalPermutations(inputTiles);
      Size := outputSize;
      TileFace := tileFace;
      var fi, n := BuildFaceIndices(inputTiles, PermutedFace);
      FaceIndices := fi;
      NFacePermutations := n;
      var mf := BuildMatchingFaces(inputTiles, PermutedFace, fi, n);
      MatchingFaces := mf;
      IsPeriodicX, IsPeriodicY, IsPeriodicZ := false, false, false;
      var pts := GridPoints(outputSize);
      InitialPossiblePermutations := map p | p in pts :: TileSets(inputTiles);
      Cells := map[];
      PossiblePermutations := map[];
      ActionHistory := [];
      StatePreActionHistory := [];
      new;
      TileSetsCount(inputTiles);
      Reset();
    }

    /** Grid::Reset: every cell unset, changeable and counting
        NPermutedTiles possibilities; the possible sets copied from the
        initial ones; both histories emptied. The count is
        NPermutedTiles even where SetCellNot has narrowed the initial sets,
        so the counts agree with the sets exactly where the initial sets
        still hold every permutation in total. */
    method Reset()
      requires TablesOk()
      requires forall p :: p in InitialPossiblePermutations <==> InBounds(Size, p)
      requires forall p :: p in InitialPossiblePermutations ==> |InitialPossiblePermutations[p]| == |InputTiles|
      modifies this
      ensures CellsOk() && HistoryOk() && SameSettings()
      ensures forall p :: p in Cells ==> Cells[p] == CellState(TILE_IDX_INVALID, Identity, true, NPermutedTiles)
      ensures PossiblePermutations == InitialPossiblePermutations
      ensures ActionHistory == [] && StatePreActionHistory == []
      ensures CountsOk() <==>
                forall p :: p in InitialPossiblePermutations ==> SumSizes(InitialPossiblePermutations[p]) == NPermutedTiles
    {
      var startingCellData := CellState(TILE_IDX_INVALID, Identity, true, NPermutedTiles);
      var pts := GridPoints(Size);
      Cells := map p | p in pts :: startingCellData;
      PossiblePermutations := InitialPossiblePermutations;
      ActionHistory := [];
      StatePreActionHistory := [];
      assert forall p :: p in InitialPossiblePermutations ==> p in Cells && !Cells[p].IsSet();
    }

    // -------------------------------------------------------------------
    // Filtering

    /** The sets a cell keeps once filtered by a face: with a known face,
        each tile keeps the permutations that show it (or, when forbidding,
        those that do not); an unknown face empties every set unless it is
        forbidden, when nothing changes. */
    function Filtered(avail: seq<set<nat>>, face: FacePermutation, isForbidding: bool): (r: seq<set<nat>>)
      requires TablesOk() && |avail| == |InputTiles|
      ensures |r| == |avail|
    {
      if face !in FaceIndices then
        (if isForbidding then avail else Empties(|avail|))
      else
        Narrowed(avail, FaceIndices[face], isForbidding)
    }

    /** Each tile's set narrowed by the permutations showing face index idx. */
    function Narrowed(avail: seq<set<nat>>, idx: int, isForbidding: bool): (r: seq<set<nat>>)
      requires TablesOk() && |avail| == |InputTiles| && 0 <= idx < NFacePermutations
      ensures |r| == |avail|
    {
      seq(|avail|, t requires 0 <= t < |avail| =>
        if isForbidding then avail[t] - MatchingFaces[t][idx] else avail[t] * MatchingFaces[t][idx])
    }

    /** ApplyFilter's loop over the tiles: each available set loses the
        permutations Remove or Intersect takes out, and the count drops by
        the number they report. */
    method NarrowSets(avail: seq<set<nat>>, count0: nat, faceIdx: int, isForbidding: bool)
      returns (sets: seq<set<nat>>, count: nat)
      requires TablesOk() && |avail| == |InputTiles| && 0 <= faceIdx < NFacePermutations
      requires count0 == SumSizes(avail)
      ensures sets == Narrowed(avail, faceIdx, isForbidding)
      ensures count == SumSizes(sets)
    {
      ghost var goal := Narrowed(avail, faceIdx, isForbidding);
      sets, count := avail, count0;
      var tileI := 0;
      while tileI < |InputTiles|
        invariant 0 <= tileI <= |InputTiles| && |sets| == |InputTiles|
        invariant forall u :: 0 <= u < tileI ==> sets[u] == goal[u]
        invariant forall u :: tileI <= u < |InputTiles| ==> sets[u] == avail[u]
        invariant count == SumSizes(sets)
      {
        var supported := MatchingFaces[tileI][faceIdx];
        var available := sets[tileI];
        var kept := if isForbidding then available - supported else available * supported;
        var nChoicesLost := if isForbidding then |available * supported| else |available - supported|;
        SplitSize(available, supported);
        SumSizesBound(sets, tileI);
        SumSizesUpdate(sets, tileI, kept);
        sets := sets[tileI := kept];
        count := count - nChoicesLost;
        tileI := tileI + 1;
      }
    }

    /** What filtering keeps: exactly the permutations that were possible
        and pass the face. */
    lemma FilteredMeaning(avail: seq<set<nat>>, face: FacePermutation, isForbidding: bool, t: nat, b: nat)
      requires TablesOk() && |avail| == |InputTiles| && t < |avail|
      ensures b in Filtered(avail, face, isForbidding)[t] <==>
                b in avail[t] &&
                Survives(b, if face in FaceIndices then MatchingFaces[t][FaceIndices[face]] else {},
                         face in FaceIndices, isForbidding)
    {
    }

    /** Filtering only removes possibilities, and the count is unchanged
        exactly when nothing was removed. */
    lemma FilteredShrinks(avail: seq<set<nat>>, face: FacePermutation, isForbidding: bool)
      requires TablesOk() && |avail| == |InputTiles|
      ensures forall t :: 0 <= t < |avail| ==> Filtered(avail, face, isForbidding)[t] <= avail[t]
      ensures SumSizes(Filtered(avail, face, isForbidding)) <= SumSizes(avail)
      ensures SumSizes(Filtered(avail, face, isForbidding)) == SumSizes(avail) <==>
                Filtered(avail, face, isForbidding) == avail
    {
      var r := Filtered(avail, face, isForbidding);
      assert forall t :: 0 <= t < |avail| ==> r[t] <= avail[t];
      SumSizesMono(r, avail);
      SumSizesStrict(r, avail);
    }

    /** Grid::ApplyFilter(cellPos, face, cell, report, isForbidding): a set
        cell is left alone; otherwise each tile's set is narrowed by the
        face and the count drops by the number of permutations lost. */
    method ApplyFilter(cellPos: Vector3i, face: FacePermutation, isForbidding: bool)
      requires Valid() && InBounds(Size, cellPos)
      modifies this
      ensures Valid() && SameSettings() && SameHistory()
      ensures Cells == old(Cells)[cellPos := Cells[cellPos]]
      ensures PossiblePermutations == old(PossiblePermutations)[cellPos := PossiblePermutations[cellPos]]
      ensures old(Cells[cellPos]).IsSet() ==>
                Cells == old(Cells) && PossiblePermutations == old(PossiblePermutations)
      ensures !old(Cells[cellPos]).IsSet() ==>
                var sets := Filtered(old(PossiblePermutations[cellPos]), face, isForbidding);
                PossiblePermutations == old(PossiblePermutations)[cellPos := sets] &&
                Cells == old(Cells)[cellPos := old(Cells[cellPos]).(NPossibilities := SumSizes(sets))]
      ensures Within(PossiblePermutations[cellPos], old(PossiblePermutations[cellPos]))
    {
      FilteredShrinks(PossiblePermutations[cellPos], face, isForbidding);
      var cell := Cells[cellPos];
      if cell.IsSet() {
        UpdateSame(Cells, cellPos);
        UpdateSame(PossiblePermutations, cellPos);
        return;
      }
      var sets := PossiblePermutations[cellPos];
      var count := cell.NPossibilities;
      if face !in FaceIndices {
        if !isForbidding {
          sets := Empties(|InputTiles|);
          count := 0;
          SumSizesEmpties(|InputTiles|);
        }
      } else {
        sets, count := NarrowSets(sets, count, FaceIndices[face], isForbidding);
      }
      UpdateCell(Size, |InputTiles|, Cells, PossiblePermutations, cellPos, cell.(NPossibilities := count), sets);
      PossiblePermutations := PossiblePermutations[cellPos := sets];
      Cells := Cells[cellPos := cell.(NPossibilities := count)];
    }

    /** Grid::ApplyFilter(cellPos, neighborPos, side, report, isForbidding):
        a set cell filters its neighbour by the face matching its own face on
        that side; an unset cell does nothing. */
    method ApplyNeighborFilter(cellPos: Vector3i, neighborPos: Vector3i, sideTowardsNeighbor: Direction3D, isForbidding: bool)
      requires Valid() && InBounds(Size, cellPos) && InBounds(Size, neighborPos)
      modifies this
      ensures Valid() && SameSettings() && SameHistory()
      ensures Cells == old(Cells)[neighborPos := Cells[neighborPos]]
      ensures PossiblePermutations == old(PossiblePermutations)[neighborPos := PossiblePermutations[neighborPos]]
      ensures !old(Cells[cellPos]).IsSet() ==>
                Cells == old(Cells) && PossiblePermutations == old(PossiblePermutations)
      ensures old(Cells[cellPos]).IsSet() && old(Cells[neighborPos]).IsSet() ==>
                Cells == old(Cells) && PossiblePermutations == old(PossiblePermutations)
      ensures old(Cells[cellPos]).IsSet() && !old(Cells[neighborPos]).IsSet() ==>
                var c := old(Cells[cellPos]);
                var sets := Filtered(old(PossiblePermutations[neighborPos]),
                                     Flipped(GetFace(c.ChosenTile, c.ChosenPermutation, sideTowardsNeighbor)), isForbidding);
                PossiblePermutations == old(PossiblePermutations)[neighborPos := sets] &&
                Cells == old(Cells)[neighborPos := old(Cells[neighborPos]).(NPossibilities := SumSizes(sets))]
      ensures Within(PossiblePermutations[neighborPos], old(PossiblePermutations[neighborPos]))
    {
      var cell := Cells[cellPos];
      if !cell.IsSet() {
        UpdateSame(Cells, neighborPos);
        UpdateSame(PossiblePermutations, neighborPos);
        return;
      }
      var cellFace := GetFace(cell.ChosenTile, cell.ChosenPermutation, sideTowardsNeighbor);
      var neighborFace := Flipped(cellFace);
      ApplyFilter(neighborPos, neighborFace, isForbidding);
    }

    /** Grid::ResetCellPossibilities: a cell already counting
        NPermutedTiles is left alone; any other cell is unset and gets its
        initial sets back, counting their total size. */
    method ResetCellPossibilities(cellPos: Vector3i)
      requires Valid() && InBounds(Size, cellPos)
      modifies this
      ensures Valid() && SameSettings() && SameHistory()
      ensures IsPeriodicX == old(IsPeriodicX) && IsPeriodicY == old(IsPeriodicY) && IsPeriodicZ == old(IsPeriodicZ)
      ensures old(Cells[cellPos].NPossibilities) == NPermutedTiles ==>
                Cells == old(Cells) && PossiblePermutations == old(PossiblePermutations)
      ensures old(Cells[cellPos].NPossibilities) != NPermutedTiles ==>
                PossiblePermutations == old(PossiblePermutations)[cellPos := InitialPossiblePermutations[cellPos]] &&
                Cells == old(Cells)[cellPos := old(Cells[cellPos]).(ChosenTile := TILE_IDX_INVALID,
                                                 NPossibilities := SumSizes(InitialPossiblePermutations[cellPos]))]
    {
      var cell := Cells[cellPos];
      if cell.NPossibilities == NPermutedTiles {
        return;
      }
      var sets, count := CopySets(InitialPossiblePermutations[cellPos]);
      cell := cell.(ChosenTile := TILE_IDX_INVALID, NPossibilities := count);
      UpdateCell(Size, |InputTiles|, Cells, PossiblePermutations, cellPos, cell, sets);
      PossiblePermutations := PossiblePermutations[cellPos := sets];
      Cells := Cells[cellPos := cell];
    }

    /** The face a placed cell at q shows the cell across from it, as the
        neighbour filter flips it: None when q is off the grid, is the cell
        itself or is unset (a valid grid's placed cells all hold a tile
        of the tileset). */
    ghost function PlacedFace(cells: map<Vector3i, CellState>, cellPos: Vector3i, q: Vector3i, side: Direction3D): Option<FacePermutation>
    {
      if InBounds(Size, q) && q != cellPos && q in cells && cells[q].IsSet() && cells[q].ChosenTile < |InputTiles| then
        Some(Flipped(GetFace(cells[q].ChosenTile, cells[q].ChosenPermutation, GetOpposite(side))))
      else
        Option.None
    }

    /** The sets of cellPos once its first k neighbours, placed as in
        `cells`, have filtered them. */
    ghost function NeighborsFold(cells: map<Vector3i, CellState>, neighbors: seq<(Vector3i, Direction3D)>,
                                 cellPos: Vector3i, avail: seq<set<nat>>, k: nat): (r: seq<set<nat>>)
      requires TablesOk() && |avail| == |InputTiles| && k <= |neighbors|
      ensures |r| == |avail|
    {
      if k == 0 then avail
      else
        var prev := NeighborsFold(cells, neighbors, cellPos, avail, k - 1);
        match PlacedFace(cells, cellPos, neighbors[k - 1].0, neighbors[k - 1].1)
        case Some(face) => Filtered(prev, face, false)
        case None => prev
    }

    /** A permutation is still possible after the neighbours filtered the
        cell iff it was possible and every placed neighbour's face has an
        index whose matching set holds it. */
    lemma {:induction false} NeighborsFoldMeaning(cells: map<Vector3i, CellState>, neighbors: seq<(Vector3i, Direction3D)>,
                                                  cellPos: Vector3i, avail: seq<set<nat>>, k: nat, t: nat, b: nat)
      requires TablesOk() && |avail| == |InputTiles| && k <= |neighbors| && t < |avail|
      ensures b in NeighborsFold(cells, neighbors, cellPos, avail, k)[t] <==>
                b in avail[t] &&
                forall j :: 0 <= j < k && PlacedFace(cells, cellPos, neighbors[j].0, neighbors[j].1).Some? ==>
                  var face := PlacedFace(cells, cellPos, neighbors[j].0, neighbors[j].1).value;
                  face in FaceIndices && b in MatchingFaces[t][FaceIndices[face]]
    {
      if k > 0 {
        NeighborsFoldMeaning(cells, neighbors, cellPos, avail, k - 1, t, b);
        var prev := NeighborsFold(cells, neighbors, cellPos, avail, k - 1);
        var pf := PlacedFace(cells, cellPos, neighbors[k - 1].0, neighbors[k - 1].1);
        if pf.Some? {
          FilteredMeaning(prev, pf.value, false, t, b);
        }
      }
    }

    /** The neighbours only take possibilities away. */
    lemma {:induction false} NeighborsFoldWithin(cells: map<Vector3i, CellState>, neighbors: seq<(Vector3i, Direction3D)>,
                                                 cellPos: Vector3i, avail: seq<set<nat>>, k: nat)
      requires TablesOk() && |avail| == |InputTiles| && k <= |neighbors|
      ensures Within(NeighborsFold(cells, neighbors, cellPos, avail, k), avail)
    {
      if k == 0 {
        WithinSelf(avail);
      } else {
        NeighborsFoldWithin(cells, neighbors, cellPos, avail, k - 1);
        var prev := NeighborsFold(cells, neighbors, cellPos, avail, k - 1);
        var pf := PlacedFace(cells, cellPos, neighbors[k - 1].0, neighbors[k - 1].1);
        if pf.Some? {
          FilteredShrinks(prev, pf.value, false);
          WithinTrans(Filtered(prev, pf.value, false), prev, avail);
        }
      }
    }

    /** Grid::RecalculateCellPossibilities: reset the cell, then let every
        in-grid neighbour filter it. A cell that the reset leaves placed
        (one already counting NPermutedTiles) is not narrowed; any other
        cell ends unset with the sets its placed neighbours leave of the
        reset ones. Only the cell itself changes. */
    method RecalculateCellPossibilities(cellPos: Vector3i)
      requires Valid() && InBounds(Size, cellPos)
      modifies this
      ensures Valid() && SameSettings() && SameHistory()
      ensures var c0 := old(Cells[cellPos]);
              c0.NPossibilities == NPermutedTiles && c0.IsSet() ==>
                Cells == old(Cells) && PossiblePermutations == old(PossiblePermutations)
      ensures var c0 := old(Cells[cellPos]);
              var start := if c0.NPossibilities == NPermutedTiles then old(PossiblePermutations[cellPos])
                           else InitialPossiblePermutations[cellPos];
              var sets := NeighborsFold(old(Cells), GetNeighbors(cellPos), cellPos, start, |GetNeighbors(cellPos)|);
              !(c0.NPossibilities == NPermutedTiles && c0.IsSet()) ==>
                PossiblePermutations == old(PossiblePermutations)[cellPos := sets] &&
                Cells == old(Cells)[cellPos := c0.(ChosenTile := TILE_IDX_INVALID, NPossibilities := SumSizes(sets))]
      ensures Within(PossiblePermutations[cellPos], old(PossiblePermutations[cellPos])) ||
              Within(PossiblePermutations[cellPos], InitialPossiblePermutations[cellPos])
    {
      ResetCellPossibilities(cellPos);
      ghost var cellsR, possR := Cells, PossiblePermutations;
      FilterByNeighbors(cellPos);
      var c0 := old(Cells[cellPos]);
      if !(c0.NPossibilities == NPermutedTiles && c0.IsSet()) {
        var start := if c0.NPossibilities == NPermutedTiles then old(PossiblePermutations[cellPos])
                     else InitialPossiblePermutations[cellPos];
        assert possR[cellPos] == start;
        NeighborsFoldFrame(old(Cells), cellsR, GetNeighbors(cellPos), cellPos, start, |GetNeighbors(cellPos)|);
        NeighborsFoldWithin(old(Cells), GetNeighbors(cellPos), cellPos, start, |GetNeighbors(cellPos)|);
        UpdateTwice(old(Cells), cellPos, cellsR[cellPos], Cells[cellPos]);
        UpdateTwice(old(PossiblePermutations), cellPos, possR[cellPos], PossiblePermutations[cellPos]);
      } else {
        WithinSelf(PossiblePermutations[cellPos]);
      }
    }

    /** The fold does not depend on the state of cellPos itself. */
    lemma {:induction false} NeighborsFoldFrame(cells0: map<Vector3i, CellState>, cells: map<Vector3i, CellState>,
                                                neighbors: seq<(Vector3i, Direction3D)>, cellPos: Vector3i,
                                                avail: seq<set<nat>>, k: nat)
      requires TablesOk() && |avail| == |InputTiles| && k <= |neighbors|
      requires cellPos in cells && cells == cells0[cellPos := cells[cellPos]]
      ensures NeighborsFold(cells, neighbors, cellPos, avail, k) == NeighborsFold(cells0, neighbors, cellPos, avail, k)
    {
      if k > 0 {
        NeighborsFoldFrame(cells0, cells, neighbors, cellPos, avail, k - 1);
        PlacedFaceFrame(cells0, cells, cellPos, neighbors[k - 1].0, neighbors[k - 1].1);
      }
    }

    /** RecalculateCellPossibilities' loop over the neighbours: each
        in-grid one filters the cell. */
    method FilterByNeighbors(cellPos: Vector3i)
      requires Valid() && InBounds(Size, cellPos)
      modifies this
      ensures Valid() && SameSettings() && SameHistory()
      ensures old(Cells[cellPos]).IsSet() ==>
                Cells == old(Cells) && PossiblePermutations == old(PossiblePermutations)
      ensures !old(Cells[cellPos]).IsSet() ==>
                var sets := NeighborsFold(old(Cells), GetNeighbors(cellPos), cellPos, old(PossiblePermutations[cellPos]),
                                          |GetNeighbors(cellPos)|);
                PossiblePermutations == old(PossiblePermutations)[cellPos := sets] &&
                Cells == old(Cells)[cellPos := old(Cells[cellPos]).(NPossibilities := SumSizes(sets))]
    {
      var neighbors := GetNeighbors(cellPos);
      ghost var cells0, poss0 := Cells, PossiblePermutations;
      ghost var wasSet := cells0[cellPos].IsSet();
      var j := 0;
      while j < 6
        invariant 0 <= j <= 6
        invariant Valid() && SameSettings() && SameHistory()
        invariant wasSet ==> Cells == cells0 && PossiblePermutations == poss0
        invariant !wasSet ==>
                    var sets := NeighborsFold(cells0, neighbors, cellPos, poss0[cellPos], j);
                    PossiblePermutations == poss0[cellPos := sets] &&
                    Cells == cells0[cellPos := cells0[cellPos].(NPossibilities := SumSizes(sets))]
      {
        var (neighborPos, sideTowardsNeighbor) := neighbors[j];
        ghost var cells1, poss1 := Cells, PossiblePermutations;
        FilterByNeighbor(cellPos, neighborPos, sideTowardsNeighbor);
        if !wasSet {
          PlacedFaceFrame(cells0, cells1, cellPos, neighborPos, sideTowardsNeighbor);
          UpdateTwice(cells0, cellPos, cells1[cellPos], Cells[cellPos]);
          UpdateTwice(poss0, cellPos, poss1[cellPos], PossiblePermutations[cellPos]);
        }
        j := j + 1;
      }
    }

    /** Whether a cell shows a face across from cellPos does not depend on
        the state of cellPos itself. */
    lemma PlacedFaceFrame(cells0: map<Vector3i, CellState>, cells: map<Vector3i, CellState>,
                          cellPos: Vector3i, q: Vector3i, side: Direction3D)
      requires cellPos in cells && cells == cells0[cellPos := cells[cellPos]]
      ensures PlacedFace(cells, cellPos, q, side) == PlacedFace(cells0, cellPos, q, side)
    {
    }

    /** One step of the recalculation loop: an in-grid neighbour placed
        elsewhere filters the unset cell by its face. */
    method FilterByNeighbor(cellPos: Vector3i, neighborPos: Vector3i, sideTowardsNeighbor: Direction3D)
      requires Valid() && InBounds(Size, cellPos)
      modifies this
      ensures Valid() && SameSettings() && SameHistory()
      ensures old(Cells[cellPos]).IsSet() ==>
                Cells == old(Cells) && PossiblePermutations == old(PossiblePermutations)
      ensures !old(Cells[cellPos]).IsSet() ==>
                var avail := old(PossiblePermutations[cellPos]);
                var sets := match PlacedFace(old(Cells), cellPos, neighborPos, sideTowardsNeighbor)
                            case Some(face) => Filtered(avail, face, false)
                            case None => avail;
                PossiblePermutations == old(PossiblePermutations)[cellPos := sets] &&
                Cells == old(Cells)[cellPos := old(Cells[cellPos]).(NPossibilities := SumSizes(sets))]
    {
      if InBounds(Size, neighborPos) {
        ApplyNeighborFilter(neighborPos, cellPos, GetOpposite(sideTowardsNeighbor), false);
        if neighborPos == cellPos && !old(Cells[cellPos]).IsSet() {
          assert SumSizes(PossiblePermutations[cellPos]) == Cells[cellPos].NPossibilities;
        }
      } else {
        UpdateSame(Cells, cellPos);
        UpdateSame(PossiblePermutations, cellPos);
      }
    }

    // -------------------------------------------------------------------
    // Undoing placements

    /** The cells of a history entry for a placement at c: c and its six
        neighbours, wrapped. */
    function HistoryNeighbors(c: Vector3i): seq<Vector3i>
      reads this`IsPeriodicX, this`IsPeriodicY, this`IsPeriodicZ
      requires PositiveSize(Size)
    {
      HistoryPositions(Size, IsPeriodicX, IsPeriodicY, IsPeriodicZ, c)
    }

    /** UnwindActionHistory's loop over the entry's seven cells, on copies
        of the maps: every in-grid cell gets its snapshot sets back and
        counts them, unless it is a placed cell other than c. */
    method RestoreEntry(c: Vector3i, entry: seq<set<nat>>)
      returns (cells: map<Vector3i, CellState>, poss: map<Vector3i, seq<set<nat>>>)
      requires TablesOk() && CellsCover(Size, Cells) && |entry| == EntrySize()
      ensures (cells, poss) == RestoreFold(Cells, PossiblePermutations, Size, c, HistoryNeighbors(c), entry,
                                           |InputTiles|, |HistoryNeighbors(c)|)
    {
      cells, poss := RestoreLoop(Cells, PossiblePermutations, Size, IsPeriodicX, IsPeriodicY, IsPeriodicZ,
                                 c, entry, |InputTiles|);
    }

    /** Grid::UnwindActionHistory: the top entry's cells get their
        snapshot sets back, the placed cell becomes unset, and the entry
        leaves both histories. */
    method UnwindActionHistory()
      requires Valid() && |ActionHistory| > 0
      modifies this
      ensures Valid() && SameSettings()
      ensures var h := |old(ActionHistory)| - 1;
              h * EntrySize() + EntrySize() == |old(StatePreActionHistory)| &&
              ActionHistory == old(ActionHistory)[..h] &&
              StatePreActionHistory == old(StatePreActionHistory)[..h * EntrySize()]
      ensures var h := |old(ActionHistory)| - 1;
              var c := old(ActionHistory)[h];
              (Cells, PossiblePermutations) ==
                Unwound(old(Cells), old(PossiblePermutations), Size, c, HistoryNeighbors(c),
                        old(StatePreActionHistory)[h * EntrySize() .. h * EntrySize() + EntrySize()],
                        |InputTiles|)
      ensures ChoicesKept(old(Cells), Cells) && SameChangeability(old(Cells), Cells)
      ensures !Cells[old(ActionHistory)[|old(ActionHistory)| - 1]].IsSet()
    {
      var n := |InputTiles|;
      var h := |ActionHistory| - 1;
      var c := ActionHistory[h];
      var e := EntrySize();
      MulStep(h, e);
      var start := h * e;
      var entry := StatePreActionHistory[start .. start + e];
      var cells, poss := RestoreEntry(c, entry);
      UnwindLands(Cells, PossiblePermutations, c, entry);
      CommitUnwind(cells[c := Unplaced(cells[c])], poss, h);
    }

    /** Undoing an entry of a placed cell c is restoring the entry and
        then unplacing c, and it leaves a grid whose cells agree with
        their sets. */
    lemma UnwindLands(cells: map<Vector3i, CellState>, poss: map<Vector3i, seq<set<nat>>>, c: Vector3i, entry: seq<set<nat>>)
      requires TablesOk() && CellsCover(Size, cells) && Shaped(Size, |InputTiles|, poss)
      requires CountsAgree(|InputTiles|, cells, poss)
      requires InBounds(Size, c) && |entry| == EntrySize()
      ensures var r := RestoreFold(cells, poss, Size, c, HistoryNeighbors(c), entry, |InputTiles|, |HistoryNeighbors(c)|);
              c in r.0 &&
              Unwound(cells, poss, Size, c, HistoryNeighbors(c), entry, |InputTiles|) == (r.0[c := Unplaced(r.0[c])], r.1) &&
              CellsCover(Size, r.0[c := Unplaced(r.0[c])]) && Shaped(Size, |InputTiles|, r.1) &&
              CountsAgree(|InputTiles|, r.0[c := Unplaced(r.0[c])], r.1) &&
              ChoicesKept(cells, r.0[c := Unplaced(r.0[c])]) && SameChangeability(cells, r.0[c := Unplaced(r.0[c])]) &&
              !r.0[c := Unplaced(r.0[c])][c].IsSet()
    {
      var n := |InputTiles|;
      HistoryPositionsAreNeighbors(Size, IsPeriodicX, IsPeriodicY, IsPeriodicZ, c, 1);
      UnwoundState(cells, poss, Size, c, HistoryNeighbors(c), entry, n);
      RestoreFoldKeys(cells, poss, Size, c, HistoryNeighbors(c), entry, n, |HistoryNeighbors(c)|);
    }

    /** The end of UnwindActionHistory: the restored maps are written back
        and the top entry leaves both histories. */
    method CommitUnwind(cells: map<Vector3i, CellState>, poss: map<Vector3i, seq<set<nat>>>, h: nat)
      requires Valid() && h + 1 == |ActionHistory|
      requires CellsCover(Size, cells) && Shaped(Size, |InputTiles|, poss) && CountsAgree(|InputTiles|, cells, poss)
      modifies this
      ensures Valid() && SameSettings()
      ensures Cells == cells && PossiblePermutations == poss
      ensures h * EntrySize() <= |old(StatePreActionHistory)|
      ensures ActionHistory == old(ActionHistory)[..h] &&
              StatePreActionHistory == old(StatePreActionHistory)[..h * EntrySize()]
    {
      MulStep(h, EntrySize());
      Cells, PossiblePermutations := cells, poss;
      ActionHistory := ActionHistory[..h];
      StatePreActionHistory := StatePreActionHistory[..h * EntrySize()];
    }

    /** Grid::UnwindActionHistories: the top n entries are undone in turn;
        the cells they placed end unset, and no other cell changes its
        choice. */
    method UnwindActionHistories(n: nat)
      requires Valid() && n <= |ActionHistory|
      modifies this
      ensures Valid() && SameSettings()
      ensures var h := |old(ActionHistory)| - n;
              ActionHistory == old(ActionHistory)[..h] &&
              h * EntrySize() <= |old(StatePreActionHistory)| &&
              StatePreActionHistory == old(StatePreActionHistory)[..h * EntrySize()]
      ensures ChoicesKept(old(Cells), Cells) && SameChangeability(old(Cells), Cells)
      ensures AllUnset(Cells, old(ActionHistory)[|ActionHistory|..])
    {
      ghost var ah0, sp0, cells0 := ActionHistory, StatePreActionHistory, Cells;
      var i := 0;
      while i < n
        invariant 0 <= i <= n && Valid() && SameSettings()
        invariant |ActionHistory| == |ah0| - i && Unwinding(ah0, sp0, cells0)
      {
        UnwindStep(ah0, sp0, cells0);
        i := i + 1;
      }
    }

    /** The state part-way through UnwindActionHistories, which started
        from histories ah0, sp0 and cells cells0: the histories are
        prefixes of the old ones, the undone cells are unset and no cell
        took a new choice. */
    ghost predicate Unwinding(ah0: seq<Vector3i>, sp0: seq<set<nat>>, cells0: map<Vector3i, CellState>)
      reads this
    {
      |ActionHistory| <= |ah0| && ActionHistory == ah0[..|ActionHistory|] &&
      |ActionHistory| * EntrySize() <= |sp0| &&
      StatePreActionHistory == sp0[..|ActionHistory| * EntrySize()] &&
      ChoicesKept(cells0, Cells) && SameChangeability(cells0, Cells) &&
      AllUnset(Cells, ah0[|ActionHistory|..])
    }

    /** One turn of UnwindActionHistories' loop. */
    method UnwindStep(ghost ah0: seq<Vector3i>, ghost sp0: seq<set<nat>>, ghost cells0: map<Vector3i, CellState>)
      requires Valid() && |ActionHistory| > 0 && Unwinding(ah0, sp0, cells0)
      modifies this
      ensures Valid() && SameSettings() && Unwinding(ah0, sp0, cells0)
      ensures |ActionHistory| == |old(ActionHistory)| - 1
    {
      ghost var cells1 := Cells;
      ghost var h := |ActionHistory| - 1;
      ghost var a, b := h * EntrySize(), (h + 1) * EntrySize();
      MulLess(h, h + 1, EntrySize());
      UnwindActionHistory();
      PrefixOfPrefix(sp0, a, b);
      PrefixOfPrefix(ah0, h, h + 1);
      ChoicesKeptTrans(cells0, cells1, Cells);
      SameChangeabilityTrans(cells0, cells1, Cells);
      PoppedUnset(Size, cells1, Cells, ah0, h);
    }

    // -------------------------------------------------------------------
    // Clearing

    /** Every point of the region lands on a grid cell once wrapped, as the
        source's unchecked `Cells[FilterPos(p)]` needs. */
    ghost predicate RegionInGrid(region: Region3i)
      reads this`IsPeriodicX, this`IsPeriodicY, this`IsPeriodicZ
      requires PositiveSize(Size)
    {
      forall p :: region.Contains(p) ==> InBounds(Size, FilterPos(p))
    }

    /** The cells the region's points land on, in iteration order. */
    function RegionCells(region: Region3i): (r: seq<Vector3i>)
      reads this`IsPeriodicX, this`IsPeriodicY, this`IsPeriodicZ
      requires PositiveSize(Size)
      ensures |r| == |Points3(region)|
    {
      WrappedPoints(Size, IsPeriodicX, IsPeriodicY, IsPeriodicZ, Points3(region))
    }

    /** Every cell a region in the grid lands on is a grid cell. */
    lemma RegionCellsInGrid(region: Region3i)
      requires PositiveSize(Size) && RegionInGrid(region)
      ensures forall i :: 0 <= i < |RegionCells(region)| ==> InBounds(Size, RegionCells(region)[i])
    {
      var pts := Points3(region);
      Points3Exactly(region);
      forall i | 0 <= i < |pts|
        ensures InBounds(Size, FilterPos(pts[i]))
      {
        assert pts[i] in pts;
      }
    }

    /** The top nCells history entries all lie in the region and may be
        cleared, so that ClearCells undoes them instead of clearing. */
    ghost predicate Unwindable(region: Region3i, includeImmutable: bool)
      reads this
      requires Valid()
    {
      var nCells := region.GetNumbElements();
      |ActionHistory| >= nCells &&
      forall k :: |ActionHistory| - nCells <= k < |ActionHistory| ==>
        region.Contains(ActionHistory[k]) && (includeImmutable || Cells[ActionHistory[k]].IsChangeable)
    }

    /** ClearCells' test of the special case: the loop over the top nCells
        entries, stopping at the first that is outside the region or may
        not be cleared. */
    method CheckUnwindable(region: Region3i, includeImmutable: bool, nCells: int) returns (r: bool)
      requires Valid() && nCells == region.GetNumbElements()
      ensures r == Unwindable(region, includeImmutable)
    {
      if |ActionHistory| < nCells {
        return false;
      }
      var i := 0;
      while i < nCells
        invariant 0 <= i <= |ActionHistory| && (nCells >= 0 ==> i <= nCells)
        invariant forall k :: |ActionHistory| - i <= k < |ActionHistory| ==>
                    region.Contains(ActionHistory[k]) && (includeImmutable || Cells[ActionHistory[k]].IsChangeable)
      {
        var cellPos := ActionHistory[|ActionHistory| - 1 - i];
        if !region.Contains(cellPos) || (!includeImmutable && !Cells[cellPos].IsChangeable) {
          return false;
        }
        i := i + 1;
      }
      return true;
    }

    /** Grid::ClearCells. When the top history entries are exactly as many
        as the region's cells, all inside it and all clearable, they are
        undone. Otherwise both histories are emptied, every eligible cell
        of the region (changeable, or any when immutable cells are
        included) is reset and made mutable when asked, and the cells
        around the region and the placed cells left inside it filter their
        unset neighbours again, which changes only counts and sets. */
    method ClearCells(region: Region3i, includeImmutable: bool, becomeMutable: bool)
      requires Valid() && WellFormedRegion(region) && RegionInGrid(region)
      modifies this
      ensures Valid() && SameSettings()
      ensures old(Unwindable(region, includeImmutable)) ==>
                var h := |old(ActionHistory)| - region.GetNumbElements();
                0 <= h && ActionHistory == old(ActionHistory)[..h] &&
                h * EntrySize() <= |old(StatePreActionHistory)| &&
                StatePreActionHistory == old(StatePreActionHistory)[..h * EntrySize()] &&
                ChoicesKept(old(Cells), Cells) && SameChangeability(old(Cells), Cells) &&
                AllUnset(Cells, old(ActionHistory)[h..])
      ensures !old(Unwindable(region, includeImmutable)) ==>
                ActionHistory == [] && StatePreActionHistory == [] &&
                ClearedFrom(old(Cells), Cells, Cleared(old(Cells), RegionCells(region), includeImmutable),
                            becomeMutable, NPermutedTiles) &&
                RefilteredFrom(old(Cells), old(PossiblePermutations), PossiblePermutations, InitialPossiblePermutations,
                               Cleared(old(Cells), RegionCells(region), includeImmutable), NPermutedTiles)
    {
      var nCells := region.GetNumbElements();
      RegionCount(region);
      var allUnwindable := CheckUnwindable(region, includeImmutable, nCells);
      if allUnwindable {
        UnwindActionHistories(nCells);
        return;
      }
      assert nCells > 0;
      ClearAndRefilter(region, includeImmutable, becomeMutable);
    }

    /** ClearCells when the history cannot be unwound. */
    method ClearAndRefilter(region: Region3i, includeImmutable: bool, becomeMutable: bool)
      requires Valid() && WellFormedRegion(region) && region.GetNumbElements() > 0 && RegionInGrid(region)
      modifies this
      ensures Valid() && SameSettings()
      ensures ActionHistory == [] && StatePreActionHistory == [] &&
              ClearedFrom(old(Cells), Cells, Cleared(old(Cells), RegionCells(region), includeImmutable),
                          becomeMutable, NPermutedTiles)
      ensures RefilteredFrom(old(Cells), old(PossiblePermutations), PossiblePermutations, InitialPossiblePermutations,
                             Cleared(old(Cells), RegionCells(region), includeImmutable), NPermutedTiles)
    {
      RegionCount(region);
      ActionHistory := [];
      StatePreActionHistory := [];
      var leftovers := ClearRegion(region, includeImmutable, becomeMutable);
      RegionCellsInGrid(region);
      forall k | 0 <= k < |leftovers|
        ensures InBounds(Size, leftovers[k])
      {
        assert leftovers[k] in leftovers;
      }
      ghost var cleared, possCleared := Cells, PossiblePermutations;
      FilterBorders(region);
      ghost var bordered, possBordered := Cells, PossiblePermutations;
      FilterFromLeftovers(region, leftovers);
      ResetThenNarrowed(old(Cells), old(PossiblePermutations), cleared, possCleared, possBordered, PossiblePermutations,
                        InitialPossiblePermutations, Cleared(old(Cells), RegionCells(region), includeImmutable),
                        NPermutedTiles);
      OnlyCountsTrans(cleared, bordered, Cells);
      ClearedThenCounts(old(Cells), cleared, Cells, Cleared(old(Cells), RegionCells(region), includeImmutable),
                        becomeMutable, NPermutedTiles);
    }

    /** The state part-way through ClearCells' loop over the region, which
        started from cells0 and poss0: the cells of the first i points are
        cleared and their sets reset, and the placed cells among them that
        may not be cleared are listed once each as leftovers. */
    ghost predicate ClearingRegion(cells0: map<Vector3i, CellState>, poss0: map<Vector3i, seq<set<nat>>>,
                                   ps: seq<Vector3i>, i: nat,
                                   includeImmutable: bool, becomeMutable: bool, leftovers: seq<Vector3i>)
      reads this
      requires i <= |ps|
    {
      ClearedFrom(cells0, Cells, Cleared(cells0, ps[..i], includeImmutable), becomeMutable, NPermutedTiles) &&
      ResetFrom(cells0, poss0, Cells, PossiblePermutations, InitialPossiblePermutations,
                Cleared(cells0, ps[..i], includeImmutable), NPermutedTiles) &&
      LeftoversOf(cells0, ps[..i], includeImmutable, leftovers)
    }

    /** ClearCells' loop over the region's cells. */
    method ClearRegion(region: Region3i, includeImmutable: bool, becomeMutable: bool) returns (leftovers: seq<Vector3i>)
      requires Valid() && RegionInGrid(region)
      modifies this
      ensures Valid() && SameSettings() && SameHistory()
      ensures ClearedFrom(old(Cells), Cells, Cleared(old(Cells), RegionCells(region), includeImmutable),
                          becomeMutable, NPermutedTiles)
      ensures ResetFrom(old(Cells), old(PossiblePermutations), Cells, PossiblePermutations, InitialPossiblePermutations,
                        Cleared(old(Cells), RegionCells(region), includeImmutable), NPermutedTiles)
      ensures LeftoversOf(old(Cells), RegionCells(region), includeImmutable, leftovers)
    {
      ghost var cells0, poss0 := Cells, PossiblePermutations;
      ghost var ps := RegionCells(region);
      ResetFromSame(Cells, PossiblePermutations, InitialPossiblePermutations, NPermutedTiles);
      assert ps[..0] == [];
      RegionCellsInGrid(region);
      var pts := Points3(region);
      leftovers := [];
      var i := 0;
      while i < |pts|
        invariant 0 <= i <= |pts| && Valid() && SameSettings() && SameHistory()
        invariant ClearingRegion(cells0, poss0, ps, i, includeImmutable, becomeMutable, leftovers)
      {
        var cellPos := FilterPos(pts[i]);
        leftovers := ClearVisit(cells0, poss0, ps, i, cellPos, includeImmutable, becomeMutable, leftovers);
        i := i + 1;
      }
      assert ps[..i] == ps;
    }

    /** One turn of the region loop: an ineligible cell is left alone (and
        becomes a leftover when placed), an eligible one is made mutable
        when asked and reset. */
    method ClearVisit(ghost cells0: map<Vector3i, CellState>, ghost poss0: map<Vector3i, seq<set<nat>>>,
                      ghost ps: seq<Vector3i>, i: nat, cellPos: Vector3i,
                      includeImmutable: bool, becomeMutable: bool, leftovers0: seq<Vector3i>)
      returns (leftovers: seq<Vector3i>)
      requires Valid() && i < |ps| && ps[i] == cellPos && InBounds(Size, cellPos)
      requires ClearingRegion(cells0, poss0, ps, i, includeImmutable, becomeMutable, leftovers0)
      modifies this
      ensures Valid() && SameSettings() && SameHistory()
      ensures ClearingRegion(cells0, poss0, ps, i + 1, includeImmutable, becomeMutable, leftovers)
    {
      ghost var cleared := Cleared(cells0, ps[..i], includeImmutable);
      ClearedStep(cells0, ps, i, includeImmutable);
      var cell := Cells[cellPos];
      assert cell.IsChangeable == (cells0[cellPos].IsChangeable || (becomeMutable && cellPos in cleared));
      assert cellPos !in cleared ==> (cell.IsSet() <==> cells0[cellPos].IsSet());
      leftovers := leftovers0;
      if !cell.IsChangeable && !includeImmutable {
        if cell.IsSet() && cellPos !in leftovers {
          leftovers := leftovers + [cellPos];
        }
        LeftoversStep(cells0, ps, i, includeImmutable, leftovers0, leftovers);
      } else {
        ghost var before, possBefore := Cells, PossiblePermutations;
        ResetForClear(cellPos, becomeMutable);
        ClearedFromStep(cells0, before, Cells, cleared, cellPos, becomeMutable, NPermutedTiles);
        ResetFromStep(cells0, poss0, before, possBefore, Cells, PossiblePermutations, InitialPossiblePermutations,
                      cleared, cellPos, NPermutedTiles);
        LeftoversStep(cells0, ps, i, includeImmutable, leftovers0, leftovers);
      }
    }

    /** An eligible cell of the region: `IsChangeable |= becomeMutable`,
        then ResetCellPossibilities. */
    method ResetForClear(cellPos: Vector3i, becomeMutable: bool)
      requires Valid() && InBounds(Size, cellPos)
      modifies this
      ensures Valid() && SameSettings() && SameHistory()
      ensures var c1 := old(Cells[cellPos]).(IsChangeable := old(Cells[cellPos]).IsChangeable || becomeMutable);
              old(Cells[cellPos].NPossibilities) == NPermutedTiles ==>
                Cells == old(Cells)[cellPos := c1] && PossiblePermutations == old(PossiblePermutations)
      ensures var c1 := old(Cells[cellPos]).(IsChangeable := old(Cells[cellPos]).IsChangeable || becomeMutable);
              old(Cells[cellPos].NPossibilities) != NPermutedTiles ==>
                PossiblePermutations == old(PossiblePermutations)[cellPos := InitialPossiblePermutations[cellPos]] &&
                Cells == old(Cells)[cellPos := c1.(ChosenTile := TILE_IDX_INVALID,
                                                   NPossibilities := SumSizes(InitialPossiblePermutations[cellPos]))]
      ensures Cells == old(Cells)[cellPos := Cells[cellPos]]
      ensures Cells[cellPos] == old(Cells[cellPos]).(IsChangeable := old(Cells[cellPos]).IsChangeable || becomeMutable,
                                                      ChosenTile := Cells[cellPos].ChosenTile,
                                                      NPossibilities := Cells[cellPos].NPossibilities)
      ensures Cells[cellPos].IsSet() ==> Cells[cellPos].ChosenTile == old(Cells[cellPos]).ChosenTile && NPermutedTiles == 1
      ensures PossiblePermutations == old(PossiblePermutations)[cellPos := PossiblePermutations[cellPos]]
      ensures old(Cells[cellPos].NPossibilities) == NPermutedTiles ==>
                PossiblePermutations[cellPos] == old(PossiblePermutations[cellPos]) &&
                Cells[cellPos].NPossibilities == NPermutedTiles
      ensures old(Cells[cellPos].NPossibilities) != NPermutedTiles ==>
                PossiblePermutations[cellPos] == InitialPossiblePermutations[cellPos] &&
                Cells[cellPos].NPossibilities == SumSizes(InitialPossiblePermutations[cellPos])
    {
      var cell := Cells[cellPos];
      assert CellAgrees(cell, PossiblePermutations[cellPos], |InputTiles|);
      cell := cell.(IsChangeable := cell.IsChangeable || becomeMutable);
      UpdateCell(Size, |InputTiles|, Cells, PossiblePermutations, cellPos, cell, PossiblePermutations[cellPos]);
      UpdateSame(PossiblePermutations, cellPos);
      Cells := Cells[cellPos := cell];
      ghost var c1 := Cells;
      ResetCellPossibilities(cellPos);
      UpdateTwice(old(Cells), cellPos, cell, Cells[cellPos]);
    }

    /** ClearCells' pass over the cells just outside the region's six
        faces (the corners min - 1 and max): a placed one filters its
        cleared neighbour, an unset one is recalculated. */
    method FilterBorders(region: Region3i)
      requires Valid() && RegionInGrid(region)
      requires region.GetSize().x > 0 && region.GetSize().y > 0 && region.GetSize().z > 0
      modifies this
      ensures Valid() && SameSettings() && SameHistory() && OnlyCounts(old(Cells), Cells)
      ensures NarrowsOrRebuilds(old(PossiblePermutations), PossiblePermutations, InitialPossiblePermutations)
    {
      var outsideCorners := [region.MinInclusive.Minus(Vector3i(1, 1, 1)), region.MaxExclusive];
      OnlyCountsSame(Cells);
      NarrowsSame(PossiblePermutations, InitialPossiblePermutations);
      var axis := 0;
      while axis < 3
        invariant 0 <= axis <= 3 && Valid() && SameSettings() && SameHistory() && OnlyCounts(old(Cells), Cells)
        invariant NarrowsOrRebuilds(old(PossiblePermutations), PossiblePermutations, InitialPossiblePermutations)
      {
        var faceAxis1, faceAxis2 := (axis + 1) % 3, (axis + 2) % 3;
        if faceAxis1 < faceAxis2 {
          faceAxis1, faceAxis2 := faceAxis2, faceAxis1;
        }
        var side := 0;
        while side < 2
          invariant 0 <= side <= 2 && Valid() && SameSettings() && SameHistory() && OnlyCounts(old(Cells), Cells)
          invariant NarrowsOrRebuilds(old(PossiblePermutations), PossiblePermutations, InitialPossiblePermutations)
        {
          ghost var before, possBefore := Cells, PossiblePermutations;
          FilterBorderFace(region, outsideCorners[side], axis, faceAxis1, faceAxis2, side);
          OnlyCountsTrans(old(Cells), before, Cells);
          NarrowsOrRebuildsTrans(old(PossiblePermutations), possBefore, PossiblePermutations, InitialPossiblePermutations);
          side := side + 1;
        }
        axis := axis + 1;
      }
    }

    /** The cells of one outside face of the region. */
    method FilterBorderFace(region: Region3i, corner: Vector3i, axis: nat, faceAxis1: nat, faceAxis2: nat, side: nat)
      requires Valid() && RegionInGrid(region)
      requires region.GetSize().x > 0 && region.GetSize().y > 0 && region.GetSize().z > 0
      requires axis < 3 && faceAxis1 < 3 && faceAxis2 < 3 && axis != faceAxis1 && axis != faceAxis2 && faceAxis1 != faceAxis2
      requires side < 2 && corner == (if side == 0 then region.MinInclusive.Minus(Vector3i(1, 1, 1)) else region.MaxExclusive)
      modifies this
      ensures Valid() && SameSettings() && SameHistory() && OnlyCounts(old(Cells), Cells)
      ensures NarrowsOrRebuilds(old(PossiblePermutations), PossiblePermutations, InitialPossiblePermutations)
    {
      OnlyCountsSame(Cells);
      NarrowsSame(PossiblePermutations, InitialPossiblePermutations);
      var faceY := region.MinInclusive.Get(faceAxis1);
      while faceY < region.MaxExclusive.Get(faceAxis1)
        invariant region.MinInclusive.Get(faceAxis1) <= faceY
        invariant Valid() && SameSettings() && SameHistory() && OnlyCounts(old(Cells), Cells)
        invariant NarrowsOrRebuilds(old(PossiblePermutations), PossiblePermutations, InitialPossiblePermutations)
        decreases region.MaxExclusive.Get(faceAxis1) - faceY
      {
        var faceX := region.MinInclusive.Get(faceAxis2);
        while faceX < region.MaxExclusive.Get(faceAxis2)
          invariant region.MinInclusive.Get(faceAxis2) <= faceX
          invariant Valid() && SameSettings() && SameHistory() && OnlyCounts(old(Cells), Cells)
          invariant NarrowsOrRebuilds(old(PossiblePermutations), PossiblePermutations, InitialPossiblePermutations)
          decreases region.MaxExclusive.Get(faceAxis2) - faceX
        {
          ghost var before, possBefore := Cells, PossiblePermutations;
          FilterBorderCell(region, corner, axis, faceAxis1, faceAxis2, side, faceY, faceX);
          OnlyCountsTrans(old(Cells), before, Cells);
          NarrowsOrRebuildsTrans(old(PossiblePermutations), possBefore, PossiblePermutations, InitialPossiblePermutations);
          faceX := faceX + 1;
        }
        faceY := faceY + 1;
      }
    }

    /** One cell outside the region: when placed, it filters the cleared
        cell inward of it (the inward step wrapped like every position);
        when unset, it is recalculated. */
    method FilterBorderCell(region: Region3i, corner: Vector3i, axis: nat, faceAxis1: nat, faceAxis2: nat, side: nat,
                            faceY: int, faceX: int)
      requires Valid() && RegionInGrid(region)
      requires region.GetSize().x > 0 && region.GetSize().y > 0 && region.GetSize().z > 0
      requires axis < 3 && faceAxis1 < 3 && faceAxis2 < 3 && axis != faceAxis1 && axis != faceAxis2 && faceAxis1 != faceAxis2
      requires side < 2 && corner == (if side == 0 then region.MinInclusive.Minus(Vector3i(1, 1, 1)) else region.MaxExclusive)
      requires region.MinInclusive.Get(faceAxis1) <= faceY < region.MaxExclusive.Get(faceAxis1)
      requires region.MinInclusive.Get(faceAxis2) <= faceX < region.MaxExclusive.Get(faceAxis2)
      modifies this
      ensures Valid() && SameSettings() && SameHistory() && OnlyCounts(old(Cells), Cells)
      ensures NarrowsOrRebuilds(old(PossiblePermutations), PossiblePermutations, InitialPossiblePermutations)
    {
      OnlyCountsSame(Cells);
      NarrowsSame(PossiblePermutations, InitialPossiblePermutations);
      var rawPos := Vector3i(0, 0, 0).With(axis, corner.Get(axis)).With(faceAxis1, faceY).With(faceAxis2, faceX);
      var outsidePos := FilterPos(rawPos);
      if InBounds(Size, outsidePos) {
        var outsideCell := Cells[outsidePos];
        if outsideCell.IsSet() {
          var clearedPos := ClearedPos(Size, IsPeriodicX, IsPeriodicY, IsPeriodicZ, outsidePos, axis, side);
          ghost var inner := ClearedPosAsWritten(rawPos, axis, side);
          BorderInnerInRegion(region, corner, axis, faceAxis1, faceAxis2, side, faceY, faceX, rawPos);
          ClearedPosStepBack(Size, IsPeriodicX, IsPeriodicY, IsPeriodicZ, rawPos, axis, side);
          ApplyNeighborFilter(outsidePos, clearedPos, GetOpposite(MakeDirection3D(side == 0, axis)), false);
          OnlyCountsStep(old(Cells), old(Cells), Cells, clearedPos);
          NarrowsOrRebuildsStep(old(PossiblePermutations), old(PossiblePermutations), PossiblePermutations,
                                InitialPossiblePermutations, clearedPos);
        } else {
          RecalculateCellPossibilities(outsidePos);
          OnlyCountsStep(old(Cells), old(Cells), Cells, outsidePos);
          NarrowsOrRebuildsStep(old(PossiblePermutations), old(PossiblePermutations), PossiblePermutations,
                                InitialPossiblePermutations, outsidePos);
        }
      }
    }

    /** ClearCells' last pass: each placed cell left in the region filters
        its in-grid neighbours inside the region. */
    method FilterFromLeftovers(region: Region3i, leftovers: seq<Vector3i>)
      requires Valid() && forall k :: 0 <= k < |leftovers| ==> InBounds(Size, leftovers[k])
      modifies this
      ensures Valid() && SameSettings() && SameHistory() && OnlyCounts(old(Cells), Cells)
      ensures Narrows(old(PossiblePermutations), PossiblePermutations)
    {
      OnlyCountsSame(Cells);
      NarrowsSame(PossiblePermutations, InitialPossiblePermutations);
      var k := 0;
      while k < |leftovers|
        invariant 0 <= k <= |leftovers| && Valid() && SameSettings() && SameHistory() && OnlyCounts(old(Cells), Cells)
        invariant Narrows(old(PossiblePermutations), PossiblePermutations)
      {
        var cellPos := leftovers[k];
        var neighbors := GetNeighbors(cellPos);
        var j := 0;
        while j < 6
          invariant 0 <= j <= 6 && Valid() && SameSettings() && SameHistory() && OnlyCounts(old(Cells), Cells)
          invariant Narrows(old(PossiblePermutations), PossiblePermutations)
        {
          var (neighborPos, sideTowardsNeighbor) := neighbors[j];
          if region.Contains(neighborPos) && InBounds(Size, neighborPos) {
            ghost var before, possBefore := Cells, PossiblePermutations;
            ApplyNeighborFilter(cellPos, neighborPos, sideTowardsNeighbor, false);
            OnlyCountsStep(old(Cells), before, Cells, neighborPos);
            NarrowsStep(old(PossiblePermutations), possBefore, PossiblePermutations, neighborPos);
          }
          j := j + 1;
        }
        k := k + 1;
      }
    }

    /** Grid::ClearCell: ClearCells on the one-cell region at cellPos,
        immutable cells included. The history is unwound when its top entry
        is that cell; otherwise it is emptied and the cell is cleared. */
    method ClearCell(cellPos: Vector3i, becomeMutable: bool)
      requires Valid() && InBounds(Size, FilterPos(cellPos))
      modifies this
      ensures Valid() && SameSettings()
      ensures var n := |old(ActionHistory)|;
              n > 0 && old(ActionHistory)[n - 1] == cellPos ==>
                ActionHistory == old(ActionHistory)[..n - 1] &&
                (n - 1) * EntrySize() <= |old(StatePreActionHistory)| &&
                StatePreActionHistory == old(StatePreActionHistory)[..(n - 1) * EntrySize()] &&
                ChoicesKept(old(Cells), Cells) && SameChangeability(old(Cells), Cells) &&
                cellPos in Cells && !Cells[cellPos].IsSet()
      ensures var n := |old(ActionHistory)|;
              !(n > 0 && old(ActionHistory)[n - 1] == cellPos) ==>
                ActionHistory == [] && StatePreActionHistory == [] &&
                ClearedFrom(old(Cells), Cells, {FilterPos(cellPos)}, becomeMutable, NPermutedTiles) &&
                RefilteredFrom(old(Cells), old(PossiblePermutations), PossiblePermutations, InitialPossiblePermutations,
                               {FilterPos(cellPos)}, NPermutedTiles)
    {
      var region := Region3i(cellPos, cellPos.Plus(Vector3i(1, 1, 1)));
      UnitRegion(cellPos);
      ghost var unwindable := |ActionHistory| > 0 && ActionHistory[|ActionHistory| - 1] == cellPos;
      assert Unwindable(region, true) <==> unwindable by {
        if unwindable {
          assert region.Contains(ActionHistory[|ActionHistory| - 1]);
        }
      }
      ghost var ps := RegionCells(region);
      assert ps == [FilterPos(cellPos)];
      assert Cleared(Cells, ps, true) == {FilterPos(cellPos)};
      ClearCells(region, true, becomeMutable);
      if unwindable {
        assert old(ActionHistory)[|old(ActionHistory)| - 1..] == [cellPos];
      }
    }

    /** Grid::SetCellNot: both histories are emptied and the permutations
        leave the tile's initial set at pos. A placed cell is then cleared;
        an unset one loses them from its possible set too, its count
        dropping by the number that set held. */
    method SetCellNot(pos: Vector3i, tile: nat, specificPermutations: set<nat>)
      requires Valid() && InBounds(Size, pos) && tile < |InputTiles|
      modifies this
      ensures Valid()
      ensures IsPeriodicX == old(IsPeriodicX) && IsPeriodicY == old(IsPeriodicY) && IsPeriodicZ == old(IsPeriodicZ)
      ensures ActionHistory == [] && StatePreActionHistory == []
      ensures var init := old(InitialPossiblePermutations[pos]);
              InitialPossiblePermutations == old(InitialPossiblePermutations)[pos := init[tile := init[tile] - specificPermutations]]
      ensures old(Cells[pos]).IsSet() ==>
                ClearedFrom(old(Cells), Cells, {pos}, false, NPermutedTiles)
      ensures !old(Cells[pos]).IsSet() ==>
                var sets := old(PossiblePermutations[pos]);
                PossiblePermutations == old(PossiblePermutations)[pos := sets[tile := sets[tile] - specificPermutations]] &&
                Cells == old(Cells)[pos := old(Cells[pos]).(NPossibilities := Cells[pos].NPossibilities)] &&
                Cells[pos].NPossibilities + |sets[tile] * specificPermutations| == old(Cells[pos]).NPossibilities
    {
      ActionHistory := [];
      StatePreActionHistory := [];
      var init := InitialPossiblePermutations[pos];
      InitialPossiblePermutations := InitialPossiblePermutations[pos := init[tile := init[tile] - specificPermutations]];
      var cell := Cells[pos];
      WrapLandsInBounds(Size, IsPeriodicX, IsPeriodicY, IsPeriodicZ, pos);
      if cell.IsSet() {
        ClearCell(pos, false);
      } else {
        var sets := PossiblePermutations[pos];
        var kept := sets[tile] - specificPermutations;
        var nRemoved := |sets[tile] * specificPermutations|;
        SplitSize(sets[tile], specificPermutations);
        SumSizesUpdate(sets, tile, kept);
        var newCell := cell.(NPossibilities := cell.NPossibilities - nRemoved);
        UpdateCell(Size, |InputTiles|, Cells, PossiblePermutations, pos, newCell, sets[tile := kept]);
        PossiblePermutations := PossiblePermutations[pos := sets[tile := kept]];
        Cells := Cells[pos := newCell];
      }
    }

    // -------------------------------------------------------------------
    // Placing a cell

    /** The cells and sets once the first k neighbours of a cell placed
        with tile and perm have been filtered by the faces it shows them:
        each unset in-grid neighbour keeps the permutations that match the
        flip of the face on its side, and counts them. */
    ghost function SpreadFold(cells: map<Vector3i, CellState>, poss: map<Vector3i, seq<set<nat>>>,
                              neighbors: seq<(Vector3i, Direction3D)>, tile: nat, perm: Transform3D, k: nat)
      : (map<Vector3i, CellState>, map<Vector3i, seq<set<nat>>>)
      requires TablesOk() && tile < |InputTiles| && k <= |neighbors|
    {
      if k == 0 then (cells, poss)
      else
        var prev := SpreadFold(cells, poss, neighbors, tile, perm, k - 1);
        var q := neighbors[k - 1].0;
        if InBounds(Size, q) && q in prev.0 && q in prev.1 && !prev.0[q].IsSet() && |prev.1[q]| == |InputTiles| then
          var sets := Filtered(prev.1[q], Flipped(GetFace(tile, perm, neighbors[k - 1].1)), false);
          (prev.0[q := prev.0[q].(NPossibilities := SumSizes(sets))], prev.1[q := sets])
        else prev
    }

    /** Spreading changes only counts and the sets of unset neighbours: a
        placed cell, or one that is no neighbour, keeps its state and its
        sets. */
    lemma {:induction false} SpreadFoldKeeps(cells: map<Vector3i, CellState>, poss: map<Vector3i, seq<set<nat>>>,
                                             neighbors: seq<(Vector3i, Direction3D)>, tile: nat, perm: Transform3D,
                                             k: nat, p: Vector3i)
      requires TablesOk() && tile < |InputTiles| && k <= |neighbors| && p in cells && p in poss
      ensures var r := SpreadFold(cells, poss, neighbors, tile, perm, k);
              p in r.0 && p in r.1 && r.0[p] == cells[p].(NPossibilities := r.0[p].NPossibilities) &&
              ((cells[p].IsSet() || forall j :: 0 <= j < k ==> neighbors[j].0 != p) ==>
                 r.0[p] == cells[p] && r.1[p] == poss[p])
    {
      if k > 0 {
        SpreadFoldKeeps(cells, poss, neighbors, tile, perm, k - 1, p);
      }
    }

    /** Spreading never adds or removes a cell. */
    lemma {:induction false} SpreadFoldKeys(cells: map<Vector3i, CellState>, poss: map<Vector3i, seq<set<nat>>>,
                                            neighbors: seq<(Vector3i, Direction3D)>, tile: nat, perm: Transform3D, k: nat)
      requires TablesOk() && tile < |InputTiles| && k <= |neighbors|
      ensures var r := SpreadFold(cells, poss, neighbors, tile, perm, k);
              r.0.Keys == cells.Keys && r.1.Keys == poss.Keys
    {
      if k > 0 {
        SpreadFoldKeys(cells, poss, neighbors, tile, perm, k - 1);
      }
    }

    /** Undoing the placement of an unset cell gives back every possible
        set and every cell, except that the undone cell keeps the default
        permutation and the changeability the placement gave it: the
        snapshot SetCell records is what UnwindActionHistory restores. */
    lemma PlaceThenUnwind(cells: map<Vector3i, CellState>, poss: map<Vector3i, seq<set<nat>>>,
                          pos: Vector3i, tile: nat, perm: Transform3D, canBeChangedInFuture: bool)
      requires TablesOk() && CellsCover(Size, cells) && Shaped(Size, |InputTiles|, poss)
      requires CountsAgree(|InputTiles|, cells, poss)
      requires InBounds(Size, pos) && !cells[pos].IsSet() && tile < |InputTiles|
      ensures var placed := CellState(tile, perm, canBeChangedInFuture, 1);
              var spread := SpreadFold(cells[pos := placed], poss, GetNeighbors(pos), tile, perm, |GetNeighbors(pos)|);
              Unwound(spread.0, spread.1, Size, pos, HistoryNeighbors(pos),
                      Snapshot(poss, Size, HistoryNeighbors(pos), |InputTiles|), |InputTiles|)
                == (cells[pos := cells[pos].(ChosenPermutation := Identity, IsChangeable := canBeChangedInFuture)], poss)
    {
      var n := |InputTiles|;
      var placed := CellState(tile, perm, canBeChangedInFuture, 1);
      var c1 := cells[pos := placed];
      var spread := SpreadFold(c1, poss, GetNeighbors(pos), tile, perm, |GetNeighbors(pos)|);
      var positions := HistoryNeighbors(pos);
      var entry := Snapshot(poss, Size, positions, n);
      var r := RestoreFold(spread.0, spread.1, Size, pos, positions, entry, n, |positions|);
      var goal := cells[pos := cells[pos].(ChosenPermutation := Identity, IsChangeable := canBeChangedInFuture)];
      SpreadFoldKeys(c1, poss, GetNeighbors(pos), tile, perm, |GetNeighbors(pos)|);
      RestoreFoldKeys(spread.0, spread.1, Size, pos, positions, entry, n, |positions|);
      HistoryPositionsAreNeighbors(Size, IsPeriodicX, IsPeriodicY, IsPeriodicZ, pos, 1);
      var u := r.0[pos := Unplaced(r.0[pos])];
      forall p | p in cells
        ensures p in u && u[p] == goal[p] && p in r.1 && r.1[p] == poss[p]
      {
        PlaceThenUnwindAt(cells, poss, pos, tile, perm, canBeChangedInFuture, p);
      }
      assert u.Keys == goal.Keys;
      MapsEqual(u, goal);
      assert r.1.Keys == poss.Keys by {
        assert spread.0.Keys == poss.Keys;
      }
      MapsEqual(r.1, poss);
    }

    /** PlaceThenUnwind at one cell p. */
    lemma PlaceThenUnwindAt(cells: map<Vector3i, CellState>, poss: map<Vector3i, seq<set<nat>>>,
                            pos: Vector3i, tile: nat, perm: Transform3D, canBeChangedInFuture: bool, p: Vector3i)
      requires TablesOk() && CellsCover(Size, cells) && Shaped(Size, |InputTiles|, poss)
      requires CountsAgree(|InputTiles|, cells, poss)
      requires InBounds(Size, pos) && !cells[pos].IsSet() && tile < |InputTiles| && p in cells
      ensures var placed := CellState(tile, perm, canBeChangedInFuture, 1);
              var spread := SpreadFold(cells[pos := placed], poss, GetNeighbors(pos), tile, perm, |GetNeighbors(pos)|);
              var r := RestoreFold(spread.0, spread.1, Size, pos, HistoryNeighbors(pos),
                                   Snapshot(poss, Size, HistoryNeighbors(pos), |InputTiles|), |InputTiles|, |HistoryNeighbors(pos)|);
              pos in r.0 && p in r.0 && p in r.1 && r.1[p] == poss[p] &&
              r.0[pos := Unplaced(r.0[pos])][p] ==
                cells[pos := cells[pos].(ChosenPermutation := Identity, IsChangeable := canBeChangedInFuture)][p]
    {
      var n := |InputTiles|;
      var placed := CellState(tile, perm, canBeChangedInFuture, 1);
      var c1 := cells[pos := placed];
      var neighbors := GetNeighbors(pos);
      var spread := SpreadFold(c1, poss, neighbors, tile, perm, |neighbors|);
      var positions := HistoryNeighbors(pos);
      var entry := Snapshot(poss, Size, positions, n);
      SnapshotMatches(poss, Size, positions, n);
      assert positions[..|positions|] == positions;
      SpreadFoldKeys(c1, poss, neighbors, tile, perm, |neighbors|);
      RestoreFoldKeys(spread.0, spread.1, Size, pos, positions, entry, n, |positions|);
      SpreadFoldKeeps(c1, poss, neighbors, tile, perm, |neighbors|, p);
      RestoreFoldAt(spread.0, spread.1, Size, pos, positions, entry, n, |positions|, poss, p);
      SpreadFoldKeeps(c1, poss, neighbors, tile, perm, |neighbors|, pos);
      RestoreFoldAt(spread.0, spread.1, Size, pos, positions, entry, n, |positions|, poss, pos);
      HistoryCoversNeighbors(pos, p);
    }

    /** The history entry of a placement lists the cell first and then
        every neighbour GetNeighbors gives. */
    lemma HistoryCoversNeighbors(pos: Vector3i, p: Vector3i)
      requires TablesOk() && InBounds(Size, pos)
      ensures HistoryNeighbors(pos)[0] == pos
      ensures p !in HistoryNeighbors(pos) ==> forall j :: 0 <= j < |GetNeighbors(pos)| ==> GetNeighbors(pos)[j].0 != p
    {
      HistoryPositionsAreNeighbors(Size, IsPeriodicX, IsPeriodicY, IsPeriodicZ, pos, 1);
      forall j | 0 <= j < 6
        ensures HistoryNeighbors(pos)[j + 1] == GetNeighbors(pos)[j].0
      {
        HistoryPositionsAreNeighbors(Size, IsPeriodicX, IsPeriodicY, IsPeriodicZ, pos, j + 1);
      }
    }

    /** SetCell's loop over the history neighbours: the sets of each
        in-grid one, and n empty sets for one off the grid. */
    method RecordSnapshot(pos: Vector3i) returns (entry: seq<set<nat>>)
      requires Valid()
      ensures entry == Snapshot(PossiblePermutations, Size, HistoryNeighbors(pos), |InputTiles|)
    {
      ghost var positions := HistoryNeighbors(pos);
      entry := [];
      var neighborI := 0;
      while neighborI < N_HISTORY_NEIGHBORS
        invariant 0 <= neighborI <= N_HISTORY_NEIGHBORS
        invariant entry == Snapshot(PossiblePermutations, Size, positions[..neighborI], |InputTiles|)
      {
        var neighborCellPos := FilterPos(pos.Plus(HistoryOffset(neighborI)));
        assert neighborCellPos == positions[neighborI];
        assert positions[..neighborI + 1][..neighborI] == positions[..neighborI];
        if InBounds(Size, neighborCellPos) {
          entry := AppendSets(entry, PossiblePermutations[neighborCellPos]);
        } else {
          entry := AppendSets(entry, Empties(|InputTiles|));
        }
        neighborI := neighborI + 1;
      }
      assert positions[..neighborI] == positions;
    }

    /** The innermost loop of the snapshot: one set per tile is pushed. */
    method AppendSets(dst: seq<set<nat>>, src: seq<set<nat>>) returns (r: seq<set<nat>>)
      ensures r == dst + src
    {
      r := dst;
      var inputTileI := 0;
      while inputTileI < |src|
        invariant 0 <= inputTileI <= |src| && r == dst + src[..inputTileI]
      {
        assert src[..inputTileI + 1] == src[..inputTileI] + [src[inputTileI]];
        r := r + [src[inputTileI]];
        inputTileI := inputTileI + 1;
      }
      assert src[..inputTileI] == src;
    }

    /** SetCell's last loop: the placed cell filters each in-grid
        neighbour by its face on that side. */
    method SpreadToNeighbors(pos: Vector3i)
      requires Valid() && InBounds(Size, pos) && Cells[pos].IsSet()
      modifies this
      ensures Valid() && SameSettings() && SameHistory() && Cells[pos] == old(Cells[pos])
      ensures (Cells, PossiblePermutations) ==
                SpreadFold(old(Cells), old(PossiblePermutations), GetNeighbors(pos),
                           old(Cells[pos]).ChosenTile, old(Cells[pos]).ChosenPermutation, |GetNeighbors(pos)|)
    {
      var cell := Cells[pos];
      var neighbors := GetNeighbors(pos);
      var j := 0;
      while j < 6
        invariant 0 <= j <= 6 && Valid() && SameSettings() && SameHistory() && Cells[pos] == cell
        invariant (Cells, PossiblePermutations) ==
                    SpreadFold(old(Cells), old(PossiblePermutations), neighbors, cell.ChosenTile, cell.ChosenPermutation, j)
      {
        var (neighborPos, faceTowardsNeighbor) := neighbors[j];
        if InBounds(Size, neighborPos) {
          ApplyNeighborFilter(pos, neighborPos, faceTowardsNeighbor, false);
        }
        j := j + 1;
      }
    }

    /** The part of SetCell after any clearing: the cell joins the history
        with a snapshot of its neighbourhood, is placed with one
        possibility, and filters its in-grid neighbours. */
    method PlaceCell(pos: Vector3i, tile: nat, perm: Transform3D, canBeChangedInFuture: bool)
      requires Valid() && InBounds(Size, pos) && tile < |InputTiles|
      modifies this
      ensures Valid() && SameSettings()
      ensures ActionHistory == old(ActionHistory) + [pos]
      ensures StatePreActionHistory ==
                old(StatePreActionHistory) + Snapshot(old(PossiblePermutations), Size, HistoryNeighbors(pos), |InputTiles|)
      ensures Cells[pos] == CellState(tile, perm, canBeChangedInFuture, 1)
      ensures (Cells, PossiblePermutations) ==
                SpreadFold(old(Cells)[pos := CellState(tile, perm, canBeChangedInFuture, 1)], old(PossiblePermutations),
                           GetNeighbors(pos), tile, perm, |GetNeighbors(pos)|)
    {
      var entry := RecordSnapshot(pos);
      MulStep(|ActionHistory|, EntrySize());
      ActionHistory := ActionHistory + [pos];
      StatePreActionHistory := StatePreActionHistory + entry;
      var placed := CellState(tile, perm, canBeChangedInFuture, 1);
      UpdateCell(Size, |InputTiles|, Cells, PossiblePermutations, pos, placed, PossiblePermutations[pos]);
      UpdateSame(PossiblePermutations, pos);
      Cells := Cells[pos := placed];
      SpreadToNeighbors(pos);
    }

    /** Grid::SetCell: the position is wrapped; a placed cell there is
        cleared first (made mutable when the new placement may change
        later), then the cell is placed. The history ends with the cell,
        below it a prefix of the old history; from an unset cell the
        history grows by exactly one entry and seven snapshot blocks. */
    method SetCell(pos0: Vector3i, tile: nat, perm: Transform3D, canBeChangedInFuture: bool)
      requires Valid() && InBounds(Size, FilterPos(pos0)) && tile < |InputTiles|
      modifies this
      ensures Valid() && SameSettings()
      ensures var pos := FilterPos(pos0);
              var h := |ActionHistory| - 1;
              Cells[pos] == CellState(tile, perm, canBeChangedInFuture, 1) &&
              0 <= h <= |old(ActionHistory)| && ActionHistory[h] == pos &&
              ActionHistory[..h] == old(ActionHistory)[..h] &&
              h * EntrySize() <= |old(StatePreActionHistory)| &&
              StatePreActionHistory[..h * EntrySize()] == old(StatePreActionHistory)[..h * EntrySize()]
      ensures var pos := FilterPos(pos0);
              !old(Cells[pos]).IsSet() ==>
                ActionHistory == old(ActionHistory) + [pos] &&
                StatePreActionHistory ==
                  old(StatePreActionHistory) + Snapshot(old(PossiblePermutations), Size, HistoryNeighbors(pos), |InputTiles|) &&
                (Cells, PossiblePermutations) ==
                  SpreadFold(old(Cells)[pos := CellState(tile, perm, canBeChangedInFuture, 1)], old(PossiblePermutations),
                             GetNeighbors(pos), tile, perm, |GetNeighbors(pos)|)
    {
      var pos := FilterPos(pos0);
      WrapLandsInBounds(Size, IsPeriodicX, IsPeriodicY, IsPeriodicZ, pos0);
      ClearForPlacement(pos, canBeChangedInFuture);
      ghost var ah1, sp1 := ActionHistory, StatePreActionHistory;
      ghost var h := |ah1|;
      PlaceCell(pos, tile, perm, canBeChangedInFuture);
      assert ActionHistory[..h] == ah1;
      assert StatePreActionHistory[..h * EntrySize()] == sp1;
    }

    /** SetCell's first step: a placed cell is cleared, which leaves a
        prefix of the history; an unset cell changes nothing. */
    method ClearForPlacement(pos: Vector3i, canBeChangedInFuture: bool)
      requires Valid() && InBounds(Size, pos)
      modifies this
      ensures Valid() && SameSettings()
      ensures var h := |ActionHistory|;
              h <= |old(ActionHistory)| && ActionHistory == old(ActionHistory)[..h] &&
              h * EntrySize() <= |old(StatePreActionHistory)| &&
              StatePreActionHistory == old(StatePreActionHistory)[..h * EntrySize()]
      ensures !old(Cells[pos]).IsSet() ==>
                Cells == old(Cells) && PossiblePermutations == old(PossiblePermutations) &&
                ActionHistory == old(ActionHistory) && StatePreActionHistory == old(StatePreActionHistory)
    {
      var cell := Cells[pos];
      if cell.IsSet() {
        WrapLandsInBounds(Size, IsPeriodicX, IsPeriodicY, IsPeriodicZ, pos);
        ClearCell(pos, canBeChangedInFuture);
      } else {
        assert ActionHistory == ActionHistory[..|ActionHistory|];
        assert StatePreActionHistory == StatePreActionHistory[..|ActionHistory| * EntrySize()];
      }
    }

    // -------------------------------------------------------------------
    // Legality of a placement

    /** The face a placed neighbour demands of the cell: the flip of the
        neighbour's face on the side facing the cell. */
    ghost function RequiredFace(cellPos: Vector3i, j: nat): FacePermutation
      reads this
      requires Valid() && j < 6
      requires var q := GetNeighbors(cellPos)[j].0; InBounds(Size, q) && Cells[q].IsSet()
    {
      var (q, mySide) := GetNeighbors(cellPos)[j];
      Flipped(GetFace(Cells[q].ChosenTile, Cells[q].ChosenPermutation, GetOpposite(mySide)))
    }

    /** The j-th neighbour is absent, unset, or admits the permutation. */
    ghost predicate NeighborAdmits(cellPos: Vector3i, tile: nat, perm: Transform3D, j: nat)
      reads this
      requires Valid() && tile < |InputTiles| && j < 6
    {
      var q := GetNeighbors(cellPos)[j].0;
      InBounds(Size, q) && Cells[q].IsSet() ==>
        RequiredFace(cellPos, j) in FaceIndices &&
        ToBitIdx(perm) in MatchingFaces[tile][FaceIndices[RequiredFace(cellPos, j)]]
    }

    /** The j-th neighbour is placed and its required face has no index,
        which makes FaceIndices.at throw. */
    ghost predicate FaceUnknown(cellPos: Vector3i, j: nat)
      reads this
      requires Valid() && j < 6
    {
      var q := GetNeighbors(cellPos)[j].0;
      InBounds(Size, q) && Cells[q].IsSet() && RequiredFace(cellPos, j) !in FaceIndices
    }

    /** Grid::IsLegalPlacement: true iff every placed in-grid neighbour's
        matching face is shown by the permutation; the neighbours are
        checked in order and the first refusal answers false. None stands
        for the exception FaceIndices.at throws on a face with no index. */
    method IsLegalPlacement(cellPos: Vector3i, tile: nat, perm: Transform3D) returns (r: Option<bool>)
      requires Valid() && tile < |InputTiles|
      ensures r == Some(true) <==> forall j :: 0 <= j < 6 ==> NeighborAdmits(cellPos, tile, perm, j)
      ensures r == Option.None ==>
                exists j :: 0 <= j < 6 && FaceUnknown(cellPos, j) &&
                  forall j' :: 0 <= j' < j ==> NeighborAdmits(cellPos, tile, perm, j')
      ensures r == Some(false) ==>
                exists j :: 0 <= j < 6 && !FaceUnknown(cellPos, j) && !NeighborAdmits(cellPos, tile, perm, j) &&
                  forall j' :: 0 <= j' < j ==> NeighborAdmits(cellPos, tile, perm, j')
    {
      var neighbors := GetNeighbors(cellPos);
      var j := 0;
      while j < 6
        invariant 0 <= j <= 6
        invariant forall j' :: 0 <= j' < j ==> NeighborAdmits(cellPos, tile, perm, j')
      {
        var (neighborPos, mySide) := neighbors[j];
        if InBounds(Size, neighborPos) && Cells[neighborPos].IsSet() {
          var neighborCell := Cells[neighborPos];
          var neighborSide := GetOpposite(mySide);
          var neighborFace := GetFace(neighborCell.ChosenTile, neighborCell.ChosenPermutation, neighborSide);
          var myRequiredFace := Flipped(neighborFace);
          assert myRequiredFace == RequiredFace(cellPos, j);
          if myRequiredFace !in FaceIndices {
            assert FaceUnknown(cellPos, j) && !NeighborAdmits(cellPos, tile, perm, j);
            return Option.None;
          }
          var faceIndex := FaceIndices[myRequiredFace];
          var hasFace := ToBitIdx(perm) in MatchingFaces[tile][faceIndex];
          if !hasFace {
            assert !FaceUnknown(cellPos, j) && !NeighborAdmits(cellPos, tile, perm, j);
            return Some(false);
          }
        }
        j := j + 1;
      }
      return Some(true);
    }
  }
}
