/** Tiled3D::TilePermutator (src/Tiled3D/TilePermutator.cpp): the original
    tiles come first, each its own parent under the identity transform; then,
    for every requested permutation in turn and every original tile in
    order, a child tile whose cube is the permuted parent cube, unless the
    parent is listed as symmetric under that permutation. */
module TilePermutator3D {
  import opened Faces3D
  import opened CubeTransforms
  import opened FaceTransforms
  import opened GridCells
  import opened PermutatorCommon

  /** The children one permutation makes, from parents 0..k-1 in order. */
  function ChildrenFor(syms: seq<seq<Transform3D>>, perm: Transform3D, k: nat): seq<ParentData<Transform3D>>
    requires k <= |syms|
  {
    if k == 0 then []
    else ChildrenFor(syms, perm, k - 1) + (if perm in syms[k - 1] then [] else [ParentData(k - 1, perm)])
  }

  /** The children every permutation makes, permutation by permutation. */
  function AllChildren(n: nat, syms: seq<seq<Transform3D>>, perms: seq<Transform3D>): seq<ParentData<Transform3D>>
    requires n <= |syms|
  {
    if |perms| == 0 then []
    else AllChildren(n, syms, perms[..|perms| - 1]) + ChildrenFor(syms, perms[|perms| - 1], n)
  }

  /** Every child of one permutation carries it, has one of the first k
      tiles as parent, and is a child exactly when that parent is not
      symmetric under it. */
  lemma {:induction false} ChildrenForMembers(syms: seq<seq<Transform3D>>, perm: Transform3D, k: nat)
    requires k <= |syms|
    ensures forall c :: c in ChildrenFor(syms, perm, k) <==>
              c.MyTransform == perm && c.ParentID < k && perm !in syms[c.ParentID]
    decreases k
  {
    if k > 0 {
      ChildrenForMembers(syms, perm, k - 1);
    }
  }

  /** A (parent, permutation) pair gets a child exactly when the parent is
      an original, the permutation was requested, and the parent is not
      symmetric under it. */
  lemma {:induction false} AllChildrenMembers(n: nat, syms: seq<seq<Transform3D>>, perms: seq<Transform3D>)
    requires n <= |syms|
    ensures forall c :: c in AllChildren(n, syms, perms) <==>
              c.ParentID < n && c.MyTransform in perms && c.MyTransform !in syms[c.ParentID]
    decreases |perms|
  {
    if |perms| > 0 {
      var m := |perms| - 1;
      AllChildrenMembers(n, syms, perms[..m]);
      ChildrenForMembers(syms, perms[m], n);
      assert perms == perms[..m] + [perms[m]];
      forall t: Transform3D
        ensures t in perms <==> t in perms[..m] || t == perms[m]
      {
        assert t in perms[..m] ==> t in perms;
      }
    }
  }

  /** One pair, by AllChildrenMembers. */
  lemma AllChildrenHas(n: nat, syms: seq<seq<Transform3D>>, perms: seq<Transform3D>, c: ParentData<Transform3D>)
    requires n <= |syms|
    ensures c in AllChildren(n, syms, perms) <==>
              c.ParentID < n && c.MyTransform in perms && c.MyTransform !in syms[c.ParentID]
  {
    AllChildrenMembers(n, syms, perms);
  }

  /** The map the constructor permutes a cube with: ApplyToCube in the
      source, which the builder sees only through this parameter. */
  type CubeMap = (Transform3D, CubePermutation) -> CubePermutation

  /** A child tile: a copy of its parent with the parent's cube permuted. */
  function ChildTile(permute: CubeMap, parent: Tile, perm: Transform3D): Tile
  {
    parent.(Data := permute(perm, parent.Data))
  }

  /** The child tiles, in the order of their entries. */
  function ChildTiles(permute: CubeMap, originals: seq<Tile>, entries: seq<ParentData<Transform3D>>): (r: seq<Tile>)
    requires ParentsBelow(entries, |originals|)
    ensures |r| == |entries|
    ensures forall j :: 0 <= j < |entries| ==>
              r[j] == ChildTile(permute, originals[entries[j].ParentID], entries[j].MyTransform)
  {
    seq(|entries|, j requires 0 <= j < |entries| =>
          ChildTile(permute, originals[entries[j].ParentID], entries[j].MyTransform))
  }

  /** The parent records the constructor builds. */
  function BuiltParents(n: nat, syms: seq<seq<Transform3D>>, perms: seq<Transform3D>): seq<ParentData<Transform3D>>
    requires n <= |syms|
  {
    Originals(n, Identity) + AllChildren(n, syms, perms)
  }

  /** Contains in the source's anonymous namespace: a linear scan. */
  method ContainsTransform(list: seq<Transform3D>, t: Transform3D) returns (found: bool)
    ensures found <==> t in list
  {
    var i := 0;
    while i < |list|
      invariant 0 <= i <= |list|
      invariant t !in list[..i]
    {
      if list[i] == t {
        return true;
      }
      assert list[..i + 1] == list[..i] + [list[i]];
      i := i + 1;
    }
    assert list[..i] == list;
    return false;
  }

  class TilePermutator {
    var tiles: seq<Tile>
    var nOriginalTiles: nat
    var tileParents: seq<ParentData<Transform3D>>
    var permutationsPerParent: map<nat, seq<nat>>

    /** Every tile has a parent record and every listed child is a tile. */
    ghost predicate Valid()
      reads this
    {
      |tileParents| == |tiles| &&
      forall p :: p in permutationsPerParent ==>
        forall k :: 0 <= k < |permutationsPerParent[p]| ==> permutationsPerParent[p][k] < |tileParents|
    }

    /** The constructor: the originals, then one child per permutation and
        non-symmetric parent, each listed under its parent after the parent
        itself. The identity may not be among the permutations. */
    constructor(originalTiles: seq<Tile>, tileSymmetries: seq<seq<Transform3D>>, permutationsToUse: seq<Transform3D>)
      requires |originalTiles| <= |tileSymmetries|
      requires Identity !in permutationsToUse
      ensures Valid()
      ensures nOriginalTiles == |originalTiles|
      ensures var entries := AllChildren(|originalTiles|, tileSymmetries, permutationsToUse);
              ParentsBelow(entries, |originalTiles|) &&
              tiles == originalTiles + ChildTiles(ApplyToCube, originalTiles, entries) &&
              tileParents == Originals(|originalTiles|, Identity) + entries &&
              (forall p: nat :: p in permutationsPerParent <==> p < |originalTiles|) &&
              forall p :: 0 <= p < |originalTiles| ==>
                permutationsPerParent[p] == [p] + ChildIDs(entries, p, |originalTiles|)
    {
      var n := |originalTiles|;
      var parents, per := RegisterOriginals(ApplyToCube, originalTiles);
      var ts;
      ts, parents, per := PermuteEach(ApplyToCube, originalTiles, tileSymmetries, permutationsToUse, parents, per);
      tiles, nOriginalTiles, tileParents, permutationsPerParent := ts, n, parents, per;
      BuiltValid(ApplyToCube, originalTiles, AllChildren(n, tileSymmetries, permutationsToUse), ts, parents, per);
    }

    /** FindPermutation: the first child of `original` made by
        `permutation`, or TileID_INVALID. The original must have been
        registered (the lookup uses `at`). */
    method FindPermutation(original: nat, permutation: Transform3D) returns (id: nat)
      requires Valid() && original in permutationsPerParent
      ensures id == FirstMatch(permutationsPerParent[original], tileParents, permutation)
    {
      var children := permutationsPerParent[original];
      var k := 0;
      while k < |children|
        invariant 0 <= k <= |children|
        invariant FirstMatch(children[k..], tileParents, permutation) ==
                  FirstMatch(children, tileParents, permutation)
      {
        if tileParents[children[k]].MyTransform == permutation {
          return children[k];
        }
        assert children[k..][1..] == children[k + 1..];
        k := k + 1;
      }
      return TILE_ID_INVALID;
    }
  }

  /** The first loop of the constructor: each original is its own parent
      and the first tile listed under itself. */
  method RegisterOriginals(permute: CubeMap, originals: seq<Tile>) returns (parents: seq<ParentData<Transform3D>>, per: map<nat, seq<nat>>)
    ensures Inv(permute, originals, [], originals, parents, per)
  {
    var n := |originals|;
    parents, per := [], map[];
    var parentID := 0;
    while parentID < n
      invariant 0 <= parentID <= n
      invariant parents == Originals(parentID, Identity)
      invariant per == map p | 0 <= p < parentID :: [p]
    {
      parents := parents + [ParentData(parentID, Identity)];
      per := per[parentID := [parentID]];
      parentID := parentID + 1;
    }
    assert forall p: nat :: p in per <==> p < n;
    assert originals == originals + ChildTiles(permute, originals, []);
    assert parents == Originals(n, Identity) + [];
    assert forall p :: 0 <= p < n ==> per[p] == [p] + ChildIDs<Transform3D>([], p, n);
  }

  /** The outer loop of the constructor, over the permutations in order. */
  method PermuteEach(permute: CubeMap, originals: seq<Tile>, syms: seq<seq<Transform3D>>, perms: seq<Transform3D>,
                     parents0: seq<ParentData<Transform3D>>, per0: map<nat, seq<nat>>)
    returns (ts: seq<Tile>, parents: seq<ParentData<Transform3D>>, per: map<nat, seq<nat>>)
    requires |originals| <= |syms|
    requires Inv(permute, originals, [], originals, parents0, per0)
    ensures Inv(permute, originals, AllChildren(|originals|, syms, perms), ts, parents, per)
  {
    var n := |originals|;
    ts, parents, per := originals, parents0, per0;
    ghost var entries: seq<ParentData<Transform3D>> := [];
    assert AllChildren(n, syms, perms[..0]) == [];
    var i := 0;
    while i < |perms|
      invariant 0 <= i <= |perms|
      invariant entries == AllChildren(n, syms, perms[..i])
      invariant Inv(permute, originals, entries, ts, parents, per)
    {
      var permutation := perms[i];
      ts, parents, per := PermuteAll(permute, originals, syms, permutation, entries, ts, parents, per);
      entries := entries + ChildrenFor(syms, permutation, n);
      assert perms[..i + 1][..i] == perms[..i];
      i := i + 1;
    }
    assert perms[..i] == perms;
  }

  /** A built permutator lists only built tiles. */
  lemma BuiltValid(permute: CubeMap, originals: seq<Tile>, entries: seq<ParentData<Transform3D>>,
                   ts: seq<Tile>, parents: seq<ParentData<Transform3D>>, per: map<nat, seq<nat>>)
    requires Inv(permute, originals, entries, ts, parents, per)
    ensures |parents| == |ts|
    ensures forall p :: p in per ==> forall k :: 0 <= k < |per[p]| ==> per[p][k] < |parents|
  {
    forall p | p in per
      ensures forall k :: 0 <= k < |per[p]| ==> per[p][k] < |parents|
    {
      IDsInRange(entries, p, |originals|);
    }
  }

  /** What the builder has made from the children entries so far. */
  ghost predicate Inv(permute: CubeMap, originals: seq<Tile>, entries: seq<ParentData<Transform3D>>, ts: seq<Tile>,
                      parents: seq<ParentData<Transform3D>>, per: map<nat, seq<nat>>)
  {
    ParentsBelow(entries, |originals|) &&
    ts == originals + ChildTiles(permute, originals, entries) &&
    parents == Originals(|originals|, Identity) + entries &&
    (forall p: nat :: p in per <==> p < |originals|) &&
    forall p :: 0 <= p < |originals| ==> per[p] == [p] + ChildIDs(entries, p, |originals|)
  }

  /** The inner loop of the constructor: one permutation, every parent. */
  method PermuteAll(permute: CubeMap, originals: seq<Tile>, syms: seq<seq<Transform3D>>, permutation: Transform3D,
                    ghost entries0: seq<ParentData<Transform3D>>, ts0: seq<Tile>, parents0: seq<ParentData<Transform3D>>, per0: map<nat, seq<nat>>)
    returns (ts: seq<Tile>, parents: seq<ParentData<Transform3D>>, per: map<nat, seq<nat>>)
    requires |originals| <= |syms|
    requires Inv(permute, originals, entries0, ts0, parents0, per0)
    ensures Inv(permute, originals, entries0 + ChildrenFor(syms, permutation, |originals|), ts, parents, per)
  {
    var n := |originals|;
    ts, parents, per := ts0, parents0, per0;
    ghost var entries := entries0;
    assert entries0 + ChildrenFor(syms, permutation, 0) == entries0;
    var parentID := 0;
    while parentID < n
      invariant 0 <= parentID <= n
      invariant entries == entries0 + ChildrenFor(syms, permutation, parentID)
      invariant Inv(permute, originals, entries, ts, parents, per)
    {
      var symmetric := ContainsTransform(syms[parentID], permutation);
      ChildrenForStep(syms, permutation, entries0, parentID);
      if !symmetric {
        ts, parents, per := RegisterChild(permute, originals, parentID, permutation, entries, ts, parents, per);
        entries := entries + [ParentData(parentID, permutation)];
      }
      parentID := parentID + 1;
    }
  }

  /** The body of the inner loop for a parent that is not symmetric: the
      child tile, its parent record and its ID under the parent. */
  method RegisterChild(permute: CubeMap, originals: seq<Tile>, parentID: nat, permutation: Transform3D,
                       ghost entries: seq<ParentData<Transform3D>>, ts0: seq<Tile>, parents0: seq<ParentData<Transform3D>>, per0: map<nat, seq<nat>>)
    returns (ts: seq<Tile>, parents: seq<ParentData<Transform3D>>, per: map<nat, seq<nat>>)
    requires parentID < |originals|
    requires Inv(permute, originals, entries, ts0, parents0, per0)
    ensures Inv(permute, originals, entries + [ParentData(parentID, permutation)], ts, parents, per)
  {
    AppendChild(permute, originals, entries, ParentData(parentID, permutation), ts0, parents0, per0);
    var child := originals[parentID].(Data := permute(permutation, originals[parentID].Data));
    var childID := |ts0|;
    ts := ts0 + [child];
    parents := parents0 + [ParentData(parentID, permutation)];
    per := per0[parentID := per0[parentID] + [childID]];
  }

  /** One more parent extends a permutation's children by at most its own
      child. */
  lemma ChildrenForStep(syms: seq<seq<Transform3D>>, perm: Transform3D, entries0: seq<ParentData<Transform3D>>, k: nat)
    requires k < |syms|
    ensures entries0 + ChildrenFor(syms, perm, k + 1) ==
            entries0 + ChildrenFor(syms, perm, k) + (if perm in syms[k] then [] else [ParentData(k, perm)])
  {
  }

  /** Registering one child keeps the builder's invariant. */
  lemma AppendChild(permute: CubeMap, originals: seq<Tile>, entries: seq<ParentData<Transform3D>>, c: ParentData<Transform3D>,
                    ts: seq<Tile>, parents: seq<ParentData<Transform3D>>, per: map<nat, seq<nat>>)
    requires c.ParentID < |originals|
    requires Inv(permute, originals, entries, ts, parents, per)
    ensures c.ParentID in per
    ensures Inv(permute, originals, entries + [c],
                ts + [originals[c.ParentID].(Data := permute(c.MyTransform, originals[c.ParentID].Data))],
                parents + [c], per[c.ParentID := per[c.ParentID] + [|ts|]])
  {
    var n := |originals|;
    var e := entries + [c];
    var per' := per[c.ParentID := per[c.ParentID] + [|ts|]];
    assert e[..|e| - 1] == entries;
    assert ParentsBelow(e, n);
    assert ChildTiles(permute, originals, e) == ChildTiles(permute, originals, entries) + [ChildTile(permute, originals[c.ParentID], c.MyTransform)];
    assert forall p: nat :: p in per' <==> p < n;
    forall p | 0 <= p < n
      ensures per'[p] == [p] + ChildIDs(e, p, n)
    {
      ChildIDsAppend(entries, c, p, n);
    }
  }

  /** The children of a built permutator all have an original as parent. */
  lemma BuiltParentsBelow(n: nat, syms: seq<seq<Transform3D>>, perms: seq<Transform3D>)
    requires n <= |syms|
    ensures ParentsBelow(AllChildren(n, syms, perms), n)
  {
    var entries := AllChildren(n, syms, perms);
    forall j | 0 <= j < |entries|
      ensures entries[j].ParentID < n
    {
      assert entries[j] in entries;
      AllChildrenMembers(n, syms, perms);
    }
  }

  /** The list FindPermutation scans for original p of a built permutator. */
  function BuiltIDs(n: nat, syms: seq<seq<Transform3D>>, perms: seq<Transform3D>, p: nat): seq<nat>
    requires n <= |syms|
  {
    [p] + ChildIDs(AllChildren(n, syms, perms), p, n)
  }

  /** Every ID the scan visits names a built tile. */
  lemma BuiltIDsBelow(n: nat, syms: seq<seq<Transform3D>>, perms: seq<Transform3D>, p: nat)
    requires n <= |syms| && p < n
    ensures |BuiltParents(n, syms, perms)| == n + |AllChildren(n, syms, perms)|
    ensures forall k :: 0 <= k < |BuiltIDs(n, syms, perms, p)| ==>
              BuiltIDs(n, syms, perms, p)[k] < |BuiltParents(n, syms, perms)|
  {
    IDsInRange(AllChildren(n, syms, perms), p, n);
  }

  /** FindPermutation on a freshly built permutator: under the identity
      an original finds itself; otherwise it finds a child exactly when the
      permutation was requested and the original is not symmetric under it,
      and that child's cube is the permuted original cube. */
  lemma FindInBuilt(permute: CubeMap, originals: seq<Tile>, syms: seq<seq<Transform3D>>, perms: seq<Transform3D>, p: nat, perm: Transform3D)
    requires |originals| <= |syms| && p < |originals|
    ensures ParentsBelow(AllChildren(|originals|, syms, perms), |originals|)
    ensures forall k :: 0 <= k < |BuiltIDs(|originals|, syms, perms, p)| ==>
              BuiltIDs(|originals|, syms, perms, p)[k] < |BuiltParents(|originals|, syms, perms)|
    ensures perm == Identity ==>
              FirstMatch(BuiltIDs(|originals|, syms, perms, p), BuiltParents(|originals|, syms, perms), perm) == p
    ensures perm != Identity && (perm !in perms || perm in syms[p]) ==>
              FirstMatch(BuiltIDs(|originals|, syms, perms, p), BuiltParents(|originals|, syms, perms), perm) == TILE_ID_INVALID
    ensures perm != Identity && perm in perms && perm !in syms[p] ==>
              var r := FirstMatch(BuiltIDs(|originals|, syms, perms, p), BuiltParents(|originals|, syms, perms), perm);
              |originals| <= r < |BuiltParents(|originals|, syms, perms)| &&
              BuiltParents(|originals|, syms, perms)[r] == ParentData(p, perm) &&
              (originals + ChildTiles(permute, originals, AllChildren(|originals|, syms, perms)))[r].Data ==
                permute(perm, originals[p].Data)
  {
    var n := |originals|;
    BuiltIDsBelow(n, syms, perms, p);
    BuiltParentsBelow(n, syms, perms);
    if perm != Identity {
      var ids := BuiltIDs(n, syms, perms, p);
      var rest := ChildIDs(AllChildren(n, syms, perms), p, n);
      assert ids[1..] == rest;
      assert FirstMatch(ids, BuiltParents(n, syms, perms), perm) == FirstMatch(rest, BuiltParents(n, syms, perms), perm);
      if perm in perms && perm !in syms[p] {
        var r := FoundInBuilt(permute, originals, syms, perms, p, perm);
      } else {
        NotFoundInBuilt(originals, syms, perms, p, perm);
      }
    }
  }

  /** A tile listed under p is a child of p whose transform was requested
      and under which p is not symmetric. */
  lemma ChildRecord(n: nat, syms: seq<seq<Transform3D>>, perms: seq<Transform3D>, p: nat, id: nat)
    requires n <= |syms| && p < n
    requires id in ChildIDs(AllChildren(n, syms, perms), p, n)
    ensures n <= id < |BuiltParents(n, syms, perms)|
    ensures BuiltParents(n, syms, perms)[id] == AllChildren(n, syms, perms)[id - n]
    ensures BuiltParents(n, syms, perms)[id].ParentID == p
    ensures BuiltParents(n, syms, perms)[id].MyTransform in perms
    ensures BuiltParents(n, syms, perms)[id].MyTransform !in syms[p]
  {
    var entries := AllChildren(n, syms, perms);
    ChildIDIs(entries, p, n, id);
    var c := entries[id - n];
    assert c in entries;
    AllChildrenHas(n, syms, perms, c);
  }

  lemma FoundInBuilt(permute: CubeMap, originals: seq<Tile>, syms: seq<seq<Transform3D>>, perms: seq<Transform3D>, p: nat, perm: Transform3D)
    returns (r: nat)
    requires |originals| <= |syms| && p < |originals|
    requires perm in perms && perm !in syms[p]
    ensures ParentsBelow(AllChildren(|originals|, syms, perms), |originals|)
    ensures forall k :: 0 <= k < |ChildIDs(AllChildren(|originals|, syms, perms), p, |originals|)| ==>
              ChildIDs(AllChildren(|originals|, syms, perms), p, |originals|)[k] < |BuiltParents(|originals|, syms, perms)|
    ensures r == FirstMatch(ChildIDs(AllChildren(|originals|, syms, perms), p, |originals|), BuiltParents(|originals|, syms, perms), perm)
    ensures |originals| <= r < |BuiltParents(|originals|, syms, perms)| &&
            BuiltParents(|originals|, syms, perms)[r] == ParentData(p, perm) &&
            (originals + ChildTiles(permute, originals, AllChildren(|originals|, syms, perms)))[r].Data ==
              permute(perm, originals[p].Data)
  {
    var n := |originals|;
    var entries := AllChildren(n, syms, perms);
    var rest := ChildIDs(entries, p, n);
    var parents := BuiltParents(n, syms, perms);
    IDsInRange(entries, p, n);
    BuiltParentsBelow(n, syms, perms);
    r := FindChild(n, syms, perms, p, perm);
    ChildRecord(n, syms, perms, p, r);
    ChildTileAt(permute, originals, entries, r - n);
  }

  /** The scan over p's children stops at a child made by perm. */
  lemma FindChild(n: nat, syms: seq<seq<Transform3D>>, perms: seq<Transform3D>, p: nat, perm: Transform3D) returns (r: nat)
    requires n <= |syms| && p < n
    requires perm in perms && perm !in syms[p]
    ensures forall k :: 0 <= k < |ChildIDs(AllChildren(n, syms, perms), p, n)| ==>
              ChildIDs(AllChildren(n, syms, perms), p, n)[k] < |BuiltParents(n, syms, perms)|
    ensures r == FirstMatch(ChildIDs(AllChildren(n, syms, perms), p, n), BuiltParents(n, syms, perms), perm)
    ensures r in ChildIDs(AllChildren(n, syms, perms), p, n)
    ensures BuiltParents(n, syms, perms)[r].MyTransform == perm
  {
    var entries := AllChildren(n, syms, perms);
    var rest := ChildIDs(entries, p, n);
    var parents := BuiltParents(n, syms, perms);
    IDsInRange(entries, p, n);
    AllChildrenHas(n, syms, perms, ParentData(p, perm));
    var j :| 0 <= j < |entries| && entries[j] == ParentData(p, perm);
    ChildIDOf(entries, p, n, j);
    var k :| 0 <= k < |rest| && rest[k] == n + j;
    assert parents[n + j] == entries[j];
    FirstMatchFinds(rest, parents, perm, k);
    r := FirstMatch(rest, parents, perm);
  }

  /** The tile with ID n + j is child j's tile. */
  lemma ChildTileAt(permute: CubeMap, originals: seq<Tile>, entries: seq<ParentData<Transform3D>>, j: nat)
    requires ParentsBelow(entries, |originals|) && j < |entries|
    ensures (originals + ChildTiles(permute, originals, entries))[|originals| + j].Data ==
              permute(entries[j].MyTransform, originals[entries[j].ParentID].Data)
  {
  }

  lemma NotFoundInBuilt(originals: seq<Tile>, syms: seq<seq<Transform3D>>, perms: seq<Transform3D>, p: nat, perm: Transform3D)
    requires |originals| <= |syms| && p < |originals|
    requires perm !in perms || perm in syms[p]
    ensures forall k :: 0 <= k < |ChildIDs(AllChildren(|originals|, syms, perms), p, |originals|)| ==>
              ChildIDs(AllChildren(|originals|, syms, perms), p, |originals|)[k] < |BuiltParents(|originals|, syms, perms)|
    ensures FirstMatch(ChildIDs(AllChildren(|originals|, syms, perms), p, |originals|), BuiltParents(|originals|, syms, perms), perm)
              == TILE_ID_INVALID
  {
    var n := |originals|;
    var entries := AllChildren(n, syms, perms);
    var rest := ChildIDs(entries, p, n);
    var parents := BuiltParents(n, syms, perms);
    IDsInRange(entries, p, n);
    forall k | 0 <= k < |rest|
      ensures parents[rest[k]].MyTransform != perm
    {
      assert rest[k] in rest;
      ChildRecord(n, syms, perms, p, rest[k]);
    }
    FirstMatchMeaning(rest, parents, perm);
  }
}
