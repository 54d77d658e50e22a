/** The tables the Tiled3D Grid constructor builds once (Grid.cpp, the
    constructor): FaceIndices numbers every face of every permitted
    permutation of every tile, and MatchingFaces[tile][index] lists the
    permutations of that tile which show a face with that index. The loops
    over a TransformSet walk its bit indices in ascending order, which is
    the order its iterator yields (TransformSets.EnumerationMeetsOrder). */
module GridTables {
  import opened Faces3D
  import opened CubeTransforms
  import opened FaceTransforms
  import opened GridCells

  /** The face `face` of a tile once the permutation with bit index b is
      applied to it (a bit index past the 48 transforms never occurs in a
      TransformSet; it leaves the face as it is). The table builders take
      this map as their parameter `moved`. */
  function PermutedFace(b: nat, face: FacePermutation): (r: FacePermutation)
    ensures b < N_TRANSFORMS ==> r == ApplyToFace(FromBit(b), face)
    ensures b < N_TRANSFORMS ==> r.Side == ApplyToSide(FromBit(b), face.Side)
  {
    if b < N_TRANSFORMS then ApplyToFace(FromBit(b), face) else face
  }

  /** Every permutation of every tile is a TransformSet element. */
  predicate WellFormedTiles(tiles: seq<Tile>)
  {
    forall t, b :: 0 <= t < |tiles| && b in tiles[t].Permutations ==> b < N_TRANSFORMS
  }

  /** The face f is one of the permuted faces of the tileset. */
  ghost predicate IsTileFace(tiles: seq<Tile>, moved: (nat, FacePermutation) -> FacePermutation, f: FacePermutation)
  {
    exists t, b, k :: 0 <= t < |tiles| && b in tiles[t].Permutations &&
      0 <= k < |tiles[t].Data.Faces| && moved(b, tiles[t].Data.Faces[k]) == f
  }

  /** Tile t, permuted by b, shows on one of its faces a face whose index
      is idx. */
  ghost predicate ShowsFace(tile: Tile, moved: (nat, FacePermutation) -> FacePermutation, fi: map<FacePermutation, int>, b: nat, idx: int)
  {
    exists k :: 0 <= k < |tile.Data.Faces| && moved(b, tile.Data.Faces[k]) in fi &&
      fi[moved(b, tile.Data.Faces[k])] == idx
  }

  /** The FaceIndices loop: each permuted face gets the next ID, a later
      duplicate overwriting the earlier one, so every permuted face is a key
      and every ID is below the number of steps. */
  method BuildFaceIndices(tiles: seq<Tile>, moved: (nat, FacePermutation) -> FacePermutation) returns (fi: map<FacePermutation, int>, n: nat)
    requires WellFormedTiles(tiles)
    ensures forall t, b, k :: 0 <= t < |tiles| && b in tiles[t].Permutations && 0 <= k < |tiles[t].Data.Faces| ==>
              moved(b, tiles[t].Data.Faces[k]) in fi
    ensures forall f :: f in fi ==> 0 <= fi[f] < n && IsTileFace(tiles, moved, f)
  {
    fi, n := map[], 0;
    var t := 0;
    while t < |tiles|
      invariant 0 <= t <= |tiles|
      invariant forall f :: f in fi ==> 0 <= fi[f] < n && IsTileFace(tiles, moved, f)
      invariant forall t', b, k :: 0 <= t' < t && b in tiles[t'].Permutations && 0 <= k < |tiles[t'].Data.Faces| ==>
                  moved(b, tiles[t'].Data.Faces[k]) in fi
    {
      fi, n := AddTileFaces(tiles, moved, t, fi, n);
      t := t + 1;
    }
  }

  /** The loops over one tile's permutations and faces. */
  method AddTileFaces(tiles: seq<Tile>, moved: (nat, FacePermutation) -> FacePermutation, t: nat, fi0: map<FacePermutation, int>, n0: nat)
    returns (fi: map<FacePermutation, int>, n: nat)
    requires WellFormedTiles(tiles) && t < |tiles|
    requires forall f :: f in fi0 ==> 0 <= fi0[f] < n0 && IsTileFace(tiles, moved, f)
    ensures fi0.Keys <= fi.Keys && n0 <= n
    ensures forall f :: f in fi ==> 0 <= fi[f] < n && IsTileFace(tiles, moved, f)
    ensures forall b, k :: b in tiles[t].Permutations && 0 <= k < |tiles[t].Data.Faces| ==>
              moved(b, tiles[t].Data.Faces[k]) in fi
  {
    var faces := tiles[t].Data.Faces;
    fi, n := fi0, n0;
    var b := 0;
    while b < N_TRANSFORMS
      invariant 0 <= b <= N_TRANSFORMS
      invariant fi0.Keys <= fi.Keys && n0 <= n
      invariant forall f :: f in fi ==> 0 <= fi[f] < n && IsTileFace(tiles, moved, f)
      invariant forall b', k :: b' < b && b' in tiles[t].Permutations && 0 <= k < |faces| ==>
                  moved(b', faces[k]) in fi
    {
      if b in tiles[t].Permutations {
        var k := 0;
        while k < |faces|
          invariant 0 <= k <= |faces|
          invariant fi0.Keys <= fi.Keys && n0 <= n
          invariant forall f :: f in fi ==> 0 <= fi[f] < n && IsTileFace(tiles, moved, f)
          invariant forall b', k' :: b' < b && b' in tiles[t].Permutations && 0 <= k' < |faces| ==>
                      moved(b', faces[k']) in fi
          invariant forall k' :: 0 <= k' < k ==> moved(b, faces[k']) in fi
        {
          assert IsTileFace(tiles, moved, moved(b, faces[k]));
          fi := fi[moved(b, faces[k]) := n];
          n := n + 1;
          k := k + 1;
        }
      }
      b := b + 1;
    }
  }

  /** The MatchingFaces loop: row t lists, for every face index, exactly
      the permutations of tile t that show a face with that index. */
  method BuildMatchingFaces(tiles: seq<Tile>, moved: (nat, FacePermutation) -> FacePermutation, fi: map<FacePermutation, int>, n: nat)
    returns (mf: seq<seq<set<nat>>>)
    requires WellFormedTiles(tiles)
    requires forall t, b, k :: 0 <= t < |tiles| && b in tiles[t].Permutations && 0 <= k < |tiles[t].Data.Faces| ==>
               moved(b, tiles[t].Data.Faces[k]) in fi
    ensures |mf| == |tiles|
    ensures forall t :: 0 <= t < |mf| ==> |mf[t]| == n
    ensures forall t, idx, b :: 0 <= t < |tiles| && 0 <= idx < n ==>
              (b in mf[t][idx] <==> b in tiles[t].Permutations && ShowsFace(tiles[t], moved, fi, b, idx))
  {
    mf := [];
    var t := 0;
    while t < |tiles|
      invariant 0 <= t <= |tiles| && |mf| == t
      invariant forall t' :: 0 <= t' < t ==> |mf[t']| == n
      invariant forall t', idx, b :: 0 <= t' < t && 0 <= idx < n ==>
                  (b in mf[t'][idx] <==> b in tiles[t'].Permutations && ShowsFace(tiles[t'], moved, fi, b, idx))
    {
      var row := MatchingRow(tiles[t], moved, fi, n);
      mf := mf + [row];
      t := t + 1;
    }
  }

  /** One row of MatchingFaces, starting from n empty TransformSets. */
  method MatchingRow(tile: Tile, moved: (nat, FacePermutation) -> FacePermutation, fi: map<FacePermutation, int>, n: nat) returns (row: seq<set<nat>>)
    requires forall b :: b in tile.Permutations ==> b < N_TRANSFORMS
    requires forall b, k :: b in tile.Permutations && 0 <= k < |tile.Data.Faces| ==> moved(b, tile.Data.Faces[k]) in fi
    ensures |row| == n
    ensures forall idx, b :: 0 <= idx < n ==>
              (b in row[idx] <==> b in tile.Permutations && ShowsFace(tile, moved, fi, b, idx))
  {
    row := Empties(n);
    var b := 0;
    while b < N_TRANSFORMS
      invariant 0 <= b <= N_TRANSFORMS && |row| == n
      invariant forall idx: int, b': nat :: 0 <= idx < n ==>
                  (b' in row[idx] <==> b' < b && b' in tile.Permutations && ShowsFace(tile, moved, fi, b', idx))
    {
      ghost var before := row;
      if b in tile.Permutations {
        row := AddMatches(tile, moved, fi, n, row, b);
      }
      var next := b + 1;
      forall idx: int, b': nat | 0 <= idx < n
        ensures b' in row[idx] <==> b' < next && b' in tile.Permutations && ShowsFace(tile, moved, fi, b', idx)
      {
        assert b' in before[idx] <==> b' < b && b' in tile.Permutations && ShowsFace(tile, moved, fi, b', idx);
        if b' == b {
          assert b' !in before[idx];
        }
      }
      b := next;
    }
  }

  /** The innermost loop: permutation b joins the entry of each of its
      faces' indices. */
  method AddMatches(tile: Tile, moved: (nat, FacePermutation) -> FacePermutation, fi: map<FacePermutation, int>, n: nat, row0: seq<set<nat>>, b: nat)
    returns (row: seq<set<nat>>)
    requires b < N_TRANSFORMS && |row0| == n
    requires forall k :: 0 <= k < |tile.Data.Faces| ==> moved(b, tile.Data.Faces[k]) in fi
    ensures |row| == n
    ensures forall idx, b' :: 0 <= idx < n ==>
              (b' in row[idx] <==> b' in row0[idx] || (b' == b && ShowsFace(tile, moved, fi, b, idx)))
  {
    var faces := tile.Data.Faces;
    row := row0;
    var k := 0;
    while k < |faces|
      invariant 0 <= k <= |faces| && |row| == n
      invariant forall idx, b' :: 0 <= idx < n ==>
                  (b' in row[idx] <==>
                     b' in row0[idx] || (b' == b && exists k' :: 0 <= k' < k && fi[moved(b, faces[k'])] == idx))
    {
      var idx := fi[moved(b, faces[k])];
      if 0 <= idx < n {
        row := row[idx := row[idx] + {b}];
      }
      k := k + 1;
    }
  }

  /** NPermutedTiles: the sum of the tiles' permutation counts. */
  function TotalPermutations(tiles: seq<Tile>): nat
  {
    if |tiles| == 0 then 0 else TotalPermutations(tiles[..|tiles| - 1]) + |tiles[|tiles| - 1].Permutations|
  }

  /** The initial possibilities of every cell: each tile's own permutations. */
  function TileSets(tiles: seq<Tile>): (r: seq<set<nat>>)
    ensures |r| == |tiles| && forall t :: 0 <= t < |tiles| ==> r[t] == tiles[t].Permutations
  {
    seq(|tiles|, t requires 0 <= t < |tiles| => tiles[t].Permutations)
  }

  /** A fresh cell's count, NPermutedTiles, is the total size of its
      initial sets. */
  lemma {:induction false} TileSetsCount(tiles: seq<Tile>)
    ensures SumSizes(TileSets(tiles)) == TotalPermutations(tiles)
    decreases |tiles|
  {
    if |tiles| > 0 {
      var n := |tiles| - 1;
      assert TileSets(tiles)[..n] == TileSets(tiles[..n]);
      TileSetsCount(tiles[..n]);
    }
  }
}
