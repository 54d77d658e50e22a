/** The value-level facts the Tiled3D Grid keeps about its maps: every grid
    position has a cell and one set per tile, each cell's cached count
    agrees with its sets, and the history snapshots restore a neighbourhood
    (Grid.cpp, UnwindActionHistory and ActionHistoryNeighborInfo). */
module GridState {
  import opened Vectors
  import opened CubeTransforms
  import opened GridCells

  lemma MulStep(a: nat, e: nat)
    ensures (a + 1) * e == a * e + e
  {
  }

  lemma MulLess(a: nat, b: nat, e: nat)
    requires a <= b
    ensures a * e <= b * e
  {
  }

  /** The tiles of entry h's block for history neighbour i lie inside entry
      h: a history entry holds seven blocks of nTiles sets. */
  lemma BlockInEntry(h: nat, i: nat, n: nat)
    requires i < N_HISTORY_NEIGHBORS
    ensures 0 <= h * (7 * n) + i * n
    ensures h * (7 * n) + i * n + n <= (h + 1) * (7 * n)
  {
    MulStep(h, 7 * n);
    MulLess(i + 1, 7, n);
  }

  lemma UpdateSame<K, V>(m: map<K, V>, k: K)
    requires k in m
    ensures m[k := m[k]] == m
  {
  }

  lemma MapsEqual<K, V>(a: map<K, V>, b: map<K, V>)
    requires a.Keys == b.Keys && forall k :: k in a ==> a[k] == b[k]
    ensures a == b
  {
  }

  lemma UpdateTwice<K, V>(m: map<K, V>, k: K, a: V, b: V)
    ensures m[k := a][k := b] == m[k := b]
  {
  }

  /** The sizes sum one more set. */
  lemma SumSizesSnoc(s: seq<set<nat>>, x: set<nat>)
    ensures SumSizes(s + [x]) == SumSizes(s) + |x|
  {
    assert (s + [x])[..|s|] == s;
  }

  /** Pointwise smaller sets have a smaller total unless they are equal. */
  lemma {:induction false} SumSizesStrict(s: seq<set<nat>>, u: seq<set<nat>>)
    requires |s| == |u| && forall t :: 0 <= t < |s| ==> s[t] <= u[t]
    ensures SumSizes(s) == SumSizes(u) <==> s == u
    decreases |s|
  {
    if |s| > 0 {
      var n := |s| - 1;
      SumSizesMono(s[..n], u[..n]);
      SumSizesStrict(s[..n], u[..n]);
      SubsetSize(s[n], u[n]);
      if s[n] != u[n] {
        var x :| x in u[n] && x !in s[n];
        assert s[n] <= u[n] - {x};
        SubsetSize(s[n], u[n] - {x});
      }
      if s[..n] == u[..n] && s[n] == u[n] {
        assert s == s[..n] + [s[n]];
        assert u == u[..n] + [u[n]];
      }
      if s == u {
        assert s[..n] == u[..n];
      }
    }
  }

  /** Every grid position, and nothing else, has a cell. */
  ghost predicate CellsCover(size: Vector3i, cells: map<Vector3i, CellState>)
  {
    forall p {:trigger p in cells} :: p in cells <==> InBounds(size, p)
  }

  /** Every grid position, and nothing else, has one set per tile. */
  ghost predicate Shaped(size: Vector3i, n: nat, m: map<Vector3i, seq<set<nat>>>)
  {
    (forall p {:trigger p in m} :: p in m <==> InBounds(size, p)) && (forall p :: p in m ==> |m[p]| == n)
  }

  /** A set cell holds a real tile and counts one possibility (Grid.h,
      CellState::NPossibilities); an unset cell caches the total size of its
      possible sets. */
  predicate CellAgrees(c: CellState, sets: seq<set<nat>>, n: nat)
  {
    (c.IsSet() ==> c.ChosenTile < n && c.NPossibilities == 1) &&
    (!c.IsSet() ==> c.NPossibilities == SumSizes(sets))
  }

  ghost predicate CountsAgree(n: nat, cells: map<Vector3i, CellState>, poss: map<Vector3i, seq<set<nat>>>)
  {
    forall p {:trigger cells[p]} :: p in cells && p in poss ==> CellAgrees(cells[p], poss[p], n)
  }

  /** Writing an agreeing cell and its sets at a grid position keeps the
      grid's shape and counts. */
  lemma UpdateCell(size: Vector3i, n: nat, cells: map<Vector3i, CellState>, poss: map<Vector3i, seq<set<nat>>>,
                   p: Vector3i, c: CellState, sets: seq<set<nat>>)
    requires CellsCover(size, cells) && Shaped(size, n, poss) && CountsAgree(n, cells, poss)
    requires InBounds(size, p) && |sets| == n && CellAgrees(c, sets, n)
    ensures CellsCover(size, cells[p := c]) && Shaped(size, n, poss[p := sets])
    ensures CountsAgree(n, cells[p := c], poss[p := sets])
  {
  }

  // ---------------------------------------------------------------------
  // Undoing a placement

  /** A history entry's cells: the placed cell, then its six neighbours in
      Direction3D order, each one step away and wrapped on the periodic
      axes, as SetCell records them. */
  function HistoryPositions(size: Vector3i, px: bool, py: bool, pz: bool, c: Vector3i): (r: seq<Vector3i>)
    requires PositiveSize(size)
    ensures |r| == N_HISTORY_NEIGHBORS
  {
    seq(N_HISTORY_NEIGHBORS, i requires 0 <= i < N_HISTORY_NEIGHBORS => WrapPeriodic(size, px, py, pz, c.Plus(HistoryOffset(i))))
  }

  /** ActionHistoryNeighborInfo as written: the neighbour is one step away
      but never wrapped. */
  function HistoryPositionsAsWritten(c: Vector3i): (r: seq<Vector3i>)
    ensures |r| == N_HISTORY_NEIGHBORS
  {
    seq(N_HISTORY_NEIGHBORS, i requires 0 <= i < N_HISTORY_NEIGHBORS => c.Plus(HistoryOffset(i)))
  }

  /** The snapshot entry starts with the placed cell, and its other cells
      are exactly the neighbours GetNeighbors lists. */
  lemma HistoryPositionsAreNeighbors(size: Vector3i, px: bool, py: bool, pz: bool, c: Vector3i, i: nat)
    requires PositiveSize(size) && InBounds(size, c) && 0 < i < N_HISTORY_NEIGHBORS
    ensures HistoryPositions(size, px, py, pz, c)[0] == c
    ensures HistoryPositions(size, px, py, pz, c)[i] == Neighbors(size, px, py, pz, c)[i - 1].0
  {
    assert c.Plus(HistoryOffset(0)) == c;
    WrapLandsInBounds(size, px, py, pz, c);
    NeighborsAt(size, px, py, pz, c, i - 1);
  }

  /** The snapshot block of history neighbour i: sets i*n to i*n+n of an
      entry. */
  function Block(entry: seq<set<nat>>, i: nat, n: nat): (r: seq<set<nat>>)
    requires i < N_HISTORY_NEIGHBORS && |entry| == N_HISTORY_NEIGHBORS * n
    ensures |r| == n
  {
    BlockInEntry(0, i, n);
    entry[i * n .. i * n + n]
  }

  /** A cell made unset by UnwindActionHistory: no tile, the default
      permutation, its changeability and count kept. */
  function Unplaced(cell: CellState): (r: CellState)
    ensures !r.IsSet() && r.IsChangeable == cell.IsChangeable && r.NPossibilities == cell.NPossibilities
  {
    CellState(TILE_IDX_INVALID, Identity, cell.IsChangeable, cell.NPossibilities)
  }

  /** A restored neighbour counts its restored sets, except that a placed
      cell other than the one being undone stays as it is: a placed cell
      counts one possibility. */
  function RestoredCell(cell: CellState, count: nat, isSelf: bool): CellState
  {
    if cell.IsSet() && !isSelf then cell else cell.(NPossibilities := count)
  }

  /** UnwindActionHistory as written: every restored neighbour, placed or
      not, takes the count of its restored sets. */
  function RestoredCellAsWritten(cell: CellState, count: nat): CellState
  {
    cell.(NPossibilities := count)
  }

  /** The cells and sets once the first k cells of an entry have been
      restored: an in-grid cell gets its snapshot block back. */
  function RestoreFold(cells: map<Vector3i, CellState>, poss: map<Vector3i, seq<set<nat>>>, size: Vector3i,
                       c: Vector3i, positions: seq<Vector3i>, entry: seq<set<nat>>, n: nat, k: nat)
    : (r: (map<Vector3i, CellState>, map<Vector3i, seq<set<nat>>>))
    requires |positions| == N_HISTORY_NEIGHBORS && |entry| == N_HISTORY_NEIGHBORS * n && k <= N_HISTORY_NEIGHBORS
  {
    if k == 0 then (cells, poss)
    else
      var prev := RestoreFold(cells, poss, size, c, positions, entry, n, k - 1);
      var q := positions[k - 1];
      var block := Block(entry, k - 1, n);
      if InBounds(size, q) && q in prev.0 then
        (prev.0[q := RestoredCell(prev.0[q], SumSizes(block), q == c)], prev.1[q := block])
      else prev
  }

  /** One more cell of an entry restored. */
  lemma RestoreFoldStep(cells: map<Vector3i, CellState>, poss: map<Vector3i, seq<set<nat>>>, size: Vector3i,
                        c: Vector3i, positions: seq<Vector3i>, entry: seq<set<nat>>, n: nat, k: nat)
    requires |positions| == N_HISTORY_NEIGHBORS && |entry| == N_HISTORY_NEIGHBORS * n && k < N_HISTORY_NEIGHBORS
    ensures var prev := RestoreFold(cells, poss, size, c, positions, entry, n, k);
            var q := positions[k];
            RestoreFold(cells, poss, size, c, positions, entry, n, k + 1) ==
              if InBounds(size, q) && q in prev.0 then
                (prev.0[q := RestoredCell(prev.0[q], SumSizes(Block(entry, k, n)), q == c)], prev.1[q := Block(entry, k, n)])
              else prev
  {
  }

  /** Restoring an entry keeps every cell and its sets in step, once the
      cell being undone (the entry's first cell) is unplaced. */
  lemma {:induction false} RestoreFoldAgrees(cells: map<Vector3i, CellState>, poss: map<Vector3i, seq<set<nat>>>,
                                             size: Vector3i, c: Vector3i, positions: seq<Vector3i>,
                                             entry: seq<set<nat>>, n: nat, k: nat)
    requires CellsCover(size, cells) && Shaped(size, n, poss) && CountsAgree(n, cells, poss)
    requires |positions| == N_HISTORY_NEIGHBORS && |entry| == N_HISTORY_NEIGHBORS * n && 1 <= k <= N_HISTORY_NEIGHBORS
    requires InBounds(size, c) && positions[0] == c
    ensures var r := RestoreFold(cells, poss, size, c, positions, entry, n, k);
            CellsCover(size, r.0) && Shaped(size, n, r.1) && c in r.0 &&
            CountsAgree(n, r.0[c := Unplaced(r.0[c])], r.1)
  {
    var prev := RestoreFold(cells, poss, size, c, positions, entry, n, k - 1);
    var q := positions[k - 1];
    var block := Block(entry, k - 1, n);
    if k == 1 {
      assert prev == (cells, poss);
      var r := cells[c := RestoredCell(cells[c], SumSizes(block), true)];
      UpdateCell(size, n, cells, poss, c, Unplaced(r[c]), block);
      UpdateTwice(cells, c, RestoredCell(cells[c], SumSizes(block), true), Unplaced(r[c]));
    } else {
      RestoreFoldAgrees(cells, poss, size, c, positions, entry, n, k - 1);
      var u := prev.0[c := Unplaced(prev.0[c])];
      if InBounds(size, q) && q in prev.0 {
        var rq := RestoredCell(prev.0[q], SumSizes(block), q == c);
        var r := prev.0[q := rq];
        if q == c {
          UpdateCell(size, n, u, prev.1, c, Unplaced(rq), block);
          UpdateTwice(prev.0, c, Unplaced(prev.0[c]), Unplaced(rq));
          UpdateTwice(prev.0, c, rq, Unplaced(rq));
        } else {
          assert u[q] == prev.0[q];
          UpdateCell(size, n, u, prev.1, q, rq, block);
          assert r[c := Unplaced(r[c])] == u[q := rq];
        }
      }
    }
  }

  /** A cell of no history position keeps its state and its sets. */
  lemma {:induction false} RestoreFoldUntouched(cells: map<Vector3i, CellState>, poss: map<Vector3i, seq<set<nat>>>,
                                                size: Vector3i, c: Vector3i, positions: seq<Vector3i>,
                                                entry: seq<set<nat>>, n: nat, k: nat, p: Vector3i)
    requires |positions| == N_HISTORY_NEIGHBORS && |entry| == N_HISTORY_NEIGHBORS * n && k <= N_HISTORY_NEIGHBORS
    requires p in cells && p in poss && forall i :: 0 <= i < k ==> positions[i] != p
    ensures var r := RestoreFold(cells, poss, size, c, positions, entry, n, k);
            p in r.0 && p in r.1 && r.0[p] == cells[p] && r.1[p] == poss[p]
  {
    if k > 0 {
      RestoreFoldUntouched(cells, poss, size, c, positions, entry, n, k - 1, p);
    }
  }

  /** An in-grid history position gets back the block of its last
      occurrence in the entry. */
  lemma {:induction false} RestoreFoldRestores(cells: map<Vector3i, CellState>, poss: map<Vector3i, seq<set<nat>>>,
                                               size: Vector3i, c: Vector3i, positions: seq<Vector3i>,
                                               entry: seq<set<nat>>, n: nat, k: nat, i: nat)
    requires |positions| == N_HISTORY_NEIGHBORS && |entry| == N_HISTORY_NEIGHBORS * n && k <= N_HISTORY_NEIGHBORS
    requires CellsCover(size, cells) && i < k && InBounds(size, positions[i])
    requires forall j :: i < j < k ==> positions[j] != positions[i]
    ensures var r := RestoreFold(cells, poss, size, c, positions, entry, n, k);
            positions[i] in r.1 && r.1[positions[i]] == Block(entry, i, n)
  {
    if i < k - 1 {
      RestoreFoldRestores(cells, poss, size, c, positions, entry, n, k - 1, i);
    } else {
      RestoreFoldKeys(cells, poss, size, c, positions, entry, n, k - 1);
    }
  }

  /** Restoring never adds or removes a cell. */
  lemma {:induction false} RestoreFoldKeys(cells: map<Vector3i, CellState>, poss: map<Vector3i, seq<set<nat>>>,
                                           size: Vector3i, c: Vector3i, positions: seq<Vector3i>,
                                           entry: seq<set<nat>>, n: nat, k: nat)
    requires |positions| == N_HISTORY_NEIGHBORS && |entry| == N_HISTORY_NEIGHBORS * n && k <= N_HISTORY_NEIGHBORS
    ensures RestoreFold(cells, poss, size, c, positions, entry, n, k).0.Keys == cells.Keys
    ensures RestoreFold(cells, poss, size, c, positions, entry, n, k).1.Keys <= poss.Keys + cells.Keys
  {
    if k > 0 {
      RestoreFoldKeys(cells, poss, size, c, positions, entry, n, k - 1);
    }
  }

  /** Restoring never places a cell, and a placed cell other than the one
      being undone keeps its state. */
  lemma {:induction false} RestoreFoldKeepsPlaced(cells: map<Vector3i, CellState>, poss: map<Vector3i, seq<set<nat>>>,
                                                  size: Vector3i, c: Vector3i, positions: seq<Vector3i>,
                                                  entry: seq<set<nat>>, n: nat, k: nat, p: Vector3i)
    requires |positions| == N_HISTORY_NEIGHBORS && |entry| == N_HISTORY_NEIGHBORS * n && k <= N_HISTORY_NEIGHBORS
    requires p in cells
    ensures var r := RestoreFold(cells, poss, size, c, positions, entry, n, k);
            p in r.0 && (r.0[p].IsSet() <==> cells[p].IsSet()) &&
            (p != c && cells[p].IsSet() ==> r.0[p] == cells[p]) &&
            r.0[p].ChosenTile == cells[p].ChosenTile && r.0[p].ChosenPermutation == cells[p].ChosenPermutation &&
            r.0[p].IsChangeable == cells[p].IsChangeable
  {
    if k > 0 {
      RestoreFoldKeepsPlaced(cells, poss, size, c, positions, entry, n, k - 1, p);
    }
  }

  /** Restoring twice with the same count restores once. */
  lemma RestoredCellTwice(cell: CellState, count: nat, isSelf: bool)
    ensures RestoredCell(RestoredCell(cell, count, isSelf), count, isSelf) == RestoredCell(cell, count, isSelf)
  {
  }

  /** When every in-grid block of an entry holds the sets `target` gives
      its cell, restoring gives each listed in-grid cell its target sets
      and recounts it, and leaves every other cell alone. */
  lemma {:induction false} RestoreFoldAt(cells: map<Vector3i, CellState>, poss: map<Vector3i, seq<set<nat>>>,
                                         size: Vector3i, c: Vector3i, positions: seq<Vector3i>,
                                         entry: seq<set<nat>>, n: nat, k: nat,
                                         target: map<Vector3i, seq<set<nat>>>, p: Vector3i)
    requires |positions| == N_HISTORY_NEIGHBORS && |entry| == N_HISTORY_NEIGHBORS * n && k <= N_HISTORY_NEIGHBORS
    requires forall i :: 0 <= i < k && InBounds(size, positions[i]) ==>
               positions[i] in target && Block(entry, i, n) == target[positions[i]]
    requires p in cells && p in poss
    ensures var r := RestoreFold(cells, poss, size, c, positions, entry, n, k);
            p in r.0 && p in r.1 &&
            if p in positions[..k] && InBounds(size, p) then
              p in target && r.0[p] == RestoredCell(cells[p], SumSizes(target[p]), p == c) && r.1[p] == target[p]
            else
              r.0[p] == cells[p] && r.1[p] == poss[p]
  {
    if k > 0 {
      RestoreFoldAt(cells, poss, size, c, positions, entry, n, k - 1, target, p);
      RestoreFoldKeys(cells, poss, size, c, positions, entry, n, k - 1);
      assert positions[..k] == positions[..k - 1] + [positions[k - 1]];
      var q := positions[k - 1];
      if q == p && InBounds(size, p) {
        RestoredCellTwice(cells[p], SumSizes(target[p]), p == c);
      }
    }
  }

  // ---------------------------------------------------------------------
  // Recording a placement

  /** The sets SetCell records for one cell of a history entry: its
      possible sets when it is on the grid, n empty sets otherwise. */
  function SnapshotSets(poss: map<Vector3i, seq<set<nat>>>, size: Vector3i, q: Vector3i, n: nat): (r: seq<set<nat>>)
    requires Shaped(size, n, poss)
    ensures |r| == n
  {
    if InBounds(size, q) then poss[q] else Empties(n)
  }

  /** The sets of a whole history entry: those of each listed cell in turn. */
  function Snapshot(poss: map<Vector3i, seq<set<nat>>>, size: Vector3i, positions: seq<Vector3i>, n: nat)
    : (r: seq<set<nat>>)
    requires Shaped(size, n, poss)
    ensures |r| == |positions| * n
    decreases |positions|
  {
    if |positions| == 0 then []
    else
      var m := |positions| - 1;
      MulStep(m, n);
      Snapshot(poss, size, positions[..m], n) + SnapshotSets(poss, size, positions[m], n)
  }

  /** Block i of an entry holds the sets recorded for its i-th cell. */
  lemma {:induction false} SnapshotBlock(poss: map<Vector3i, seq<set<nat>>>, size: Vector3i, positions: seq<Vector3i>,
                                         n: nat, i: nat)
    requires Shaped(size, n, poss) && i < |positions|
    ensures i * n + n <= |positions| * n
    ensures Snapshot(poss, size, positions, n)[i * n .. i * n + n] == SnapshotSets(poss, size, positions[i], n)
    decreases |positions|
  {
    var m := |positions| - 1;
    var front := Snapshot(poss, size, positions[..m], n);
    var back := SnapshotSets(poss, size, positions[m], n);
    assert Snapshot(poss, size, positions, n) == front + back;
    if i < m {
      assert positions[..m][i] == positions[i];
      SnapshotBlock(poss, size, positions[..m], n, i);
      FrontBlock(front, back, i, m, n);
    } else {
      BackBlock(front, back, i, n);
    }
  }

  /** Every in-grid block of a recorded entry holds its cell's sets. */
  lemma SnapshotMatches(poss: map<Vector3i, seq<set<nat>>>, size: Vector3i, positions: seq<Vector3i>, n: nat)
    requires Shaped(size, n, poss) && |positions| == N_HISTORY_NEIGHBORS
    ensures forall i :: 0 <= i < N_HISTORY_NEIGHBORS && InBounds(size, positions[i]) ==>
              positions[i] in poss && Block(Snapshot(poss, size, positions, n), i, n) == poss[positions[i]]
  {
    forall i | 0 <= i < N_HISTORY_NEIGHBORS && InBounds(size, positions[i])
      ensures positions[i] in poss && Block(Snapshot(poss, size, positions, n), i, n) == poss[positions[i]]
    {
      SnapshotBlock(poss, size, positions, n, i);
    }
  }

  lemma FrontBlock<T>(front: seq<T>, back: seq<T>, i: nat, m: nat, n: nat)
    requires i < m && |front| == m * n && |back| == n && i * n + n <= |front|
    ensures i * n + n <= (m + 1) * n
    ensures (front + back)[i * n .. i * n + n] == front[i * n .. i * n + n]
  {
    MulStep(m, n);
    SliceOfFront(front, back, i * n, i * n + n);
  }

  lemma BackBlock<T>(front: seq<T>, back: seq<T>, i: nat, n: nat)
    requires |front| == i * n && |back| == n
    ensures i * n + n == (i + 1) * n
    ensures (front + back)[i * n .. i * n + n] == back
  {
    MulStep(i, n);
    SliceOfBack(front, back);
  }

  lemma SliceOfFront<T>(front: seq<T>, back: seq<T>, a: nat, b: nat)
    requires a <= b <= |front|
    ensures (front + back)[a..b] == front[a..b]
  {
  }

  lemma SliceOfBack<T>(front: seq<T>, back: seq<T>)
    ensures (front + back)[|front|..|front| + |back|] == back
  {
  }

  /** No cell becomes placed, and every placed cell keeps its tile and
      permutation. */
  ghost predicate ChoicesKept(cells0: map<Vector3i, CellState>, cells: map<Vector3i, CellState>)
  {
    forall p {:trigger cells[p]} :: p in cells && cells[p].IsSet() ==>
      p in cells0 && cells0[p].IsSet() &&
      cells[p].ChosenTile == cells0[p].ChosenTile && cells[p].ChosenPermutation == cells0[p].ChosenPermutation
  }

  lemma ChoicesKeptTrans(a: map<Vector3i, CellState>, b: map<Vector3i, CellState>, c: map<Vector3i, CellState>)
    requires ChoicesKept(a, b) && ChoicesKept(b, c)
    ensures ChoicesKept(a, c)
  {
    forall p | p in c && c[p].IsSet()
      ensures p in a && a[p].IsSet() && c[p].ChosenTile == a[p].ChosenTile && c[p].ChosenPermutation == a[p].ChosenPermutation
    {
      assert b[p].IsSet();
    }
  }

  /** Every cell keeps its changeability. */
  ghost predicate SameChangeability(cells0: map<Vector3i, CellState>, cells: map<Vector3i, CellState>)
  {
    forall p {:trigger cells[p]} :: p in cells ==> p in cells0 && cells[p].IsChangeable == cells0[p].IsChangeable
  }

  lemma SameChangeabilityTrans(a: map<Vector3i, CellState>, b: map<Vector3i, CellState>, c: map<Vector3i, CellState>)
    requires SameChangeability(a, b) && SameChangeability(b, c)
    ensures SameChangeability(a, c)
  {
    forall p | p in c
      ensures p in a && c[p].IsChangeable == a[p].IsChangeable
    {
      assert b[p].IsChangeable == a[p].IsChangeable;
    }
  }

  /** The cells and sets after undoing the placement at c: the entry
      restored, then c unplaced. */
  function Unwound(cells: map<Vector3i, CellState>, poss: map<Vector3i, seq<set<nat>>>,
                   size: Vector3i, c: Vector3i, positions: seq<Vector3i>, entry: seq<set<nat>>, n: nat)
    : (map<Vector3i, CellState>, map<Vector3i, seq<set<nat>>>)
    requires |positions| == N_HISTORY_NEIGHBORS && |entry| == N_HISTORY_NEIGHBORS * n
  {
    var r := RestoreFold(cells, poss, size, c, positions, entry, n, |positions|);
    if c in r.0 then (r.0[c := Unplaced(r.0[c])], r.1) else r
  }

  /** After undoing, the maps still cover the grid and agree, c is unset,
      and no other choice or changeability changed. */
  lemma UnwoundState(cells: map<Vector3i, CellState>, poss: map<Vector3i, seq<set<nat>>>,
                     size: Vector3i, c: Vector3i, positions: seq<Vector3i>, entry: seq<set<nat>>, n: nat)
    requires CellsCover(size, cells) && Shaped(size, n, poss) && CountsAgree(n, cells, poss)
    requires |positions| == N_HISTORY_NEIGHBORS && |entry| == N_HISTORY_NEIGHBORS * n
    requires InBounds(size, c) && positions[0] == c
    ensures var u := Unwound(cells, poss, size, c, positions, entry, n);
            CellsCover(size, u.0) && Shaped(size, n, u.1) && CountsAgree(n, u.0, u.1) &&
            ChoicesKept(cells, u.0) && SameChangeability(cells, u.0) && !u.0[c].IsSet()
  {
    var r := RestoreFold(cells, poss, size, c, positions, entry, n, |positions|);
    RestoreFoldAgrees(cells, poss, size, c, positions, entry, n, |positions|);
    RestoreFoldKeys(cells, poss, size, c, positions, entry, n, |positions|);
    var after := r.0[c := Unplaced(r.0[c])];
    forall p | p in after
      ensures p in cells && after[p].IsChangeable == cells[p].IsChangeable
      ensures after[p].IsSet() ==>
                cells[p].IsSet() && after[p].ChosenTile == cells[p].ChosenTile &&
                after[p].ChosenPermutation == cells[p].ChosenPermutation
    {
      RestoreFoldKeepsPlaced(cells, poss, size, c, positions, entry, n, |positions|, p);
    }
  }

  /** Every listed position has an unset cell. */
  ghost predicate AllUnset(cells: map<Vector3i, CellState>, ps: seq<Vector3i>)
  {
    forall k :: 0 <= k < |ps| ==> ps[k] in cells && !cells[ps[k]].IsSet()
  }

  /** Unsetting one more history position keeps the already unset ones
      unset when no cell becomes placed. */
  lemma PoppedUnset(size: Vector3i, cells0: map<Vector3i, CellState>, cells: map<Vector3i, CellState>,
                    hist: seq<Vector3i>, h: nat)
    requires h < |hist| && CellsCover(size, cells0) && CellsCover(size, cells)
    requires ChoicesKept(cells0, cells) && AllUnset(cells0, hist[h + 1..])
    requires hist[h] in cells && !cells[hist[h]].IsSet()
    ensures AllUnset(cells, hist[h..])
  {
    forall k | 0 <= k < |hist[h..]|
      ensures hist[h..][k] in cells && !cells[hist[h..][k]].IsSet()
    {
      if k > 0 {
        assert hist[h..][k] == hist[h + 1..][k - 1];
      }
    }
  }

  /** A prefix of a prefix. */
  lemma PrefixOfPrefix<T>(s: seq<T>, a: nat, b: nat)
    requires a <= b <= |s|
    ensures s[..b][..a] == s[..a]
  {
  }

  /** Without wrapping, undoing a placement on the first column of a grid
      periodic in x misses the neighbour across the seam: the unwrapped
      position lies off the grid, so that neighbour's block is never
      restored, while the wrapped one is the last column. */
  lemma HistoryPositionsAsWrittenMissSeam(size: Vector3i, py: bool, pz: bool, c: Vector3i)
    requires PositiveSize(size) && InBounds(size, c) && c.x == 0
    ensures HistoryPositions(size, true, py, pz, c)[1] == Vector3i(size.x - 1, c.y, c.z)
    ensures InBounds(size, HistoryPositions(size, true, py, pz, c)[1])
    ensures HistoryPositionsAsWritten(c)[1] == Vector3i(-1, c.y, c.z)
    ensures !InBounds(size, HistoryPositionsAsWritten(c)[1])
  {
    var p := c.Plus(HistoryOffset(1));
    assert p == Vector3i(-1, c.y, c.z);
    WrapComponents(size, true, py, pz, p);
    WfcMath.LemmaDivModUnique(-1, size.x, -1, size.x - 1);
    WfcMath.InRangeMod(c.y, size.y);
    WfcMath.InRangeMod(c.z, size.z);
  }

  /** As written, undoing a placement next to a placed cell gives that cell
      the count of its restored sets although it stays placed: with one
      tile of two permutations the count becomes NPermutedTiles, which
      ResetCellPossibilities reads as "nothing to clear". */
  lemma RestoredCellAsWrittenBreaksCount()
    ensures var placed := CellState(0, Identity, true, 1);
            var r := RestoredCellAsWritten(placed, SumSizes([{0, 1}]));
            r.IsSet() && r.NPossibilities == 2 && !CellAgrees(r, [{0, 1}], 1) &&
            RestoredCell(placed, SumSizes([{0, 1}]), false) == placed && CellAgrees(placed, [{0, 1}], 1)
  {
    assert [{0, 1}][..0] == [];
    assert |{0, 1}| == 2;
  }
}
