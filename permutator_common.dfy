/** What the Tiled and Tiled3D tile permutators share: the parent record of
    each tile, the per-original list of tile IDs, and the scan that looks up
    a child by the transform that made it. The two permutators differ only
    in the transform type T. */
module PermutatorCommon {

  /** TileID_INVALID, the largest TileID (a uint_fast32_t, taken here as
      32 bits wide). */
  const TILE_ID_INVALID: nat := 0xFFFF_FFFF

  /** TilePermutator::ParentData: a tile's original, and the transform that
      made it from that original. */
  datatype ParentData<T> = ParentData(ParentID: nat, MyTransform: T)

  /** The parent records of the n original tiles: each is its own parent
      under the identity transform `none`. */
  function Originals<T>(n: nat, none: T): (r: seq<ParentData<T>>)
    ensures |r| == n && forall p :: 0 <= p < n ==> r[p] == ParentData(p, none)
  {
    seq(n, (p: int) requires 0 <= p => ParentData(p, none))
  }

  /** Each child entry's parent is one of the n originals. */
  predicate ParentsBelow<T>(entries: seq<ParentData<T>>, n: nat)
  {
    forall j :: 0 <= j < |entries| ==> entries[j].ParentID < n
  }

  /** The IDs of parent p's children when child entry j is tile n + j. */
  function ChildIDs<T>(entries: seq<ParentData<T>>, p: nat, n: nat): seq<nat>
  {
    if |entries| == 0 then []
    else ChildIDs(entries[..|entries| - 1], p, n) +
         (if entries[|entries| - 1].ParentID == p then [n + |entries| - 1] else [])
  }

  /** An ID lists as a child of p exactly when it names a child entry whose
      parent is p; the IDs ascend. */
  lemma {:induction false} ChildIDsMembers<T>(entries: seq<ParentData<T>>, p: nat, n: nat)
    ensures forall id :: id in ChildIDs(entries, p, n) <==>
              n <= id < n + |entries| && entries[id - n].ParentID == p
    ensures forall i, j :: 0 <= i < j < |ChildIDs(entries, p, n)| ==>
              ChildIDs(entries, p, n)[i] < ChildIDs(entries, p, n)[j]
    decreases |entries|
  {
    if |entries| > 0 {
      var m := |entries| - 1;
      ChildIDsMembers(entries[..m], p, n);
      var prev := ChildIDs(entries[..m], p, n);
      forall id
        ensures id in prev <==> n <= id < n + m && entries[id - n].ParentID == p
      {
        if n <= id < n + m {
          assert entries[..m][id - n] == entries[id - n];
        }
      }
      var ids := ChildIDs(entries, p, n);
      assert ids == prev + (if entries[m].ParentID == p then [n + m] else []);
      forall k | 0 <= k < |prev|
        ensures prev[k] < n + m
      {
        assert prev[k] in prev;
      }
    }
  }

  /** One more entry lists one more ID, under its own parent only. */
  lemma ChildIDsAppend<T>(entries: seq<ParentData<T>>, c: ParentData<T>, p: nat, n: nat)
    ensures ChildIDs(entries + [c], p, n) == ChildIDs(entries, p, n) + (if c.ParentID == p then [n + |entries|] else [])
  {
    var e := entries + [c];
    assert e[..|e| - 1] == entries;
  }

  /** The child IDs of p are exactly the IDs n + j of entries with parent p. */
  lemma ChildIDOf<T>(entries: seq<ParentData<T>>, p: nat, n: nat, j: nat)
    requires j < |entries| && entries[j].ParentID == p
    ensures n + j in ChildIDs(entries, p, n)
  {
    ChildIDsMembers(entries, p, n);
  }

  lemma ChildIDIs<T>(entries: seq<ParentData<T>>, p: nat, n: nat, id: nat)
    requires id in ChildIDs(entries, p, n)
    ensures n <= id < n + |entries| && entries[id - n].ParentID == p
  {
    ChildIDsMembers(entries, p, n);
  }

  /** Every ID listed under p, the original first, names a built tile. */
  lemma IDsInRange<T>(entries: seq<ParentData<T>>, p: nat, n: nat)
    requires p < n
    ensures forall k :: 0 <= k < |ChildIDs(entries, p, n)| ==> n <= ChildIDs(entries, p, n)[k] < n + |entries|
    ensures forall k :: 0 <= k < |[p] + ChildIDs(entries, p, n)| ==> ([p] + ChildIDs(entries, p, n))[k] < n + |entries|
  {
    var rest := ChildIDs(entries, p, n);
    forall k | 0 <= k < |rest|
      ensures n <= rest[k] < n + |entries|
    {
      ChildIDIs(entries, p, n, rest[k]);
    }
    var ids := [p] + rest;
    forall k | 0 <= k < |ids|
      ensures ids[k] < n + |entries|
    {
      if k > 0 {
        assert ids[k] == rest[k - 1];
      }
    }
  }

  /** The lookup's scan (FindPermutation, GetTileChild): the first listed
      tile made by `t`, or TileID_INVALID when there is none. */
  function FirstMatch<T(==)>(ids: seq<nat>, parents: seq<ParentData<T>>, t: T): nat
    requires forall k :: 0 <= k < |ids| ==> ids[k] < |parents|
  {
    if |ids| == 0 then TILE_ID_INVALID
    else if parents[ids[0]].MyTransform == t then ids[0]
    else FirstMatch(ids[1..], parents, t)
  }

  /** The scan finds a listed tile made by `t` when there is one, and
      TileID_INVALID otherwise. */
  lemma {:induction false} FirstMatchMeaning<T>(ids: seq<nat>, parents: seq<ParentData<T>>, t: T)
    requires forall k :: 0 <= k < |ids| ==> ids[k] < |parents|
    ensures (exists k :: 0 <= k < |ids| && parents[ids[k]].MyTransform == t) ==>
              FirstMatch(ids, parents, t) in ids && parents[FirstMatch(ids, parents, t)].MyTransform == t
    ensures (forall k :: 0 <= k < |ids| ==> parents[ids[k]].MyTransform != t) ==>
              FirstMatch(ids, parents, t) == TILE_ID_INVALID
    decreases |ids|
  {
    if |ids| > 0 && parents[ids[0]].MyTransform != t {
      FirstMatchMeaning(ids[1..], parents, t);
      if exists k :: 0 <= k < |ids| && parents[ids[k]].MyTransform == t {
        var k :| 0 <= k < |ids| && parents[ids[k]].MyTransform == t;
        assert ids[1..][k - 1] == ids[k];
      }
      forall k | 0 <= k < |ids| - 1
        ensures parents[ids[1..][k]].MyTransform != t || parents[ids[k + 1]].MyTransform == t
      {
      }
    }
  }

  /** The scan finds a tile made by `t` once one is listed. */
  lemma FirstMatchFinds<T>(ids: seq<nat>, parents: seq<ParentData<T>>, t: T, k: nat)
    requires forall i :: 0 <= i < |ids| ==> ids[i] < |parents|
    requires k < |ids| && parents[ids[k]].MyTransform == t
    ensures FirstMatch(ids, parents, t) in ids
    ensures parents[FirstMatch(ids, parents, t)].MyTransform == t
  {
    FirstMatchMeaning(ids, parents, t);
  }

  /** The scan over a list of IDs whose records all differ from `t`. */
  lemma FirstMatchNone<T>(ids: seq<nat>, parents: seq<ParentData<T>>, t: T)
    requires forall i :: 0 <= i < |ids| ==> ids[i] < |parents|
    requires forall i :: 0 <= i < |ids| ==> parents[ids[i]].MyTransform != t
    ensures FirstMatch(ids, parents, t) == TILE_ID_INVALID
  {
    FirstMatchMeaning(ids, parents, t);
  }
}
