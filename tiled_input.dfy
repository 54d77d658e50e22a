/** Tiled::InputData (src/Tiled/InputData.cpp, include/Tiled/InputData.h):
    the tiles of a 2D tiled run and an index from each (edge type, side)
    pair to the IDs of the tiles having that edge on that side. */
module TiledInput {
  import opened TiledPermutator

  /** EdgeInstance: an edge type on a given side (an EdgeDirs value). */
  datatype EdgeInstance = EdgeInstance(Type: EdgeID, Dir: nat)

  type EdgeIndex = map<EdgeInstance, set<nat>>

  /** The tiles having edge type key.Type on side key.Dir. */
  function TilesWith(tiles: seq<Tile>, key: EdgeInstance): set<nat>
  {
    set t: nat | t < |tiles| && key.Dir < 4 && tiles[t].Edges[key.Dir] == key.Type
  }

  /** matchingEdges[key].insert(id): operator[] makes an empty set for a
      new key first. */
  function Insert(m: EdgeIndex, key: EdgeInstance, id: nat): EdgeIndex
  {
    m[key := (if key in m then m[key] else {}) + {id}]
  }

  /** The inner loop for tile `id`: its first d edges inserted, side by
      side. */
  function AddEdges(m: EdgeIndex, tile: Tile, id: nat, d: nat): EdgeIndex
    requires d <= 4
  {
    if d == 0 then m else Insert(AddEdges(m, tile, id, d - 1), EdgeInstance(tile.Edges[d - 1], d - 1), id)
  }

  /** The outer loop: the first n tiles indexed in order. */
  function IndexUpTo(tiles: seq<Tile>, n: nat): EdgeIndex
    requires n <= |tiles|
  {
    if n == 0 then map[] else AddEdges(IndexUpTo(tiles, n - 1), tiles[n - 1], n - 1, 4)
  }

  /** The index the constructor builds. */
  function Index(tiles: seq<Tile>): EdgeIndex
  {
    IndexUpTo(tiles, |tiles|)
  }

  // ---------------------------------------------------------------------
  // What the index holds

  /** After d edges of tile id: the keys in m are kept, and id is added
      exactly under the keys of its first d sides. */
  lemma {:induction false} AddEdgesHas(m: EdgeIndex, tile: Tile, id: nat, d: nat, k: EdgeInstance, t: nat)
    requires d <= 4
    ensures k in m ==> k in AddEdges(m, tile, id, d)
    ensures k in AddEdges(m, tile, id, d) && t in AddEdges(m, tile, id, d)[k] <==>
              (k in m && t in m[k]) || (t == id && k.Dir < d && tile.Edges[k.Dir] == k.Type)
    decreases d
  {
    if d > 0 {
      AddEdgesHas(m, tile, id, d - 1, k, t);
      var key := EdgeInstance(tile.Edges[d - 1], d - 1);
      assert k == key <==> k.Dir == d - 1 && k.Type == tile.Edges[d - 1];
    }
  }

  /** A tile is listed under a key exactly when it is one of the first n
      tiles and has that key's edge type on that key's side. */
  lemma {:induction false} IndexUpToHas(tiles: seq<Tile>, n: nat, k: EdgeInstance, t: nat)
    requires n <= |tiles|
    ensures k in IndexUpTo(tiles, n) && t in IndexUpTo(tiles, n)[k] <==>
              t < n && k.Dir < 4 && tiles[t].Edges[k.Dir] == k.Type
    decreases n
  {
    if n > 0 {
      IndexUpToHas(tiles, n - 1, k, t);
      AddEdgesHas(IndexUpTo(tiles, n - 1), tiles[n - 1], n - 1, 4, k, t);
    }
  }

  /** Every key of the index lists at least one tile. */
  lemma {:induction false} IndexUpToKeys(tiles: seq<Tile>, n: nat)
    requires n <= |tiles|
    ensures forall k :: k in IndexUpTo(tiles, n) ==> IndexUpTo(tiles, n)[k] != {}
    decreases n
  {
    if n > 0 {
      IndexUpToKeys(tiles, n - 1);
      AddEdgesKeys(IndexUpTo(tiles, n - 1), tiles[n - 1], n - 1, 4);
    }
  }

  lemma {:induction false} AddEdgesKeys(m: EdgeIndex, tile: Tile, id: nat, d: nat)
    requires d <= 4
    requires forall k :: k in m ==> m[k] != {}
    ensures forall k :: k in AddEdges(m, tile, id, d) ==> AddEdges(m, tile, id, d)[k] != {}
    decreases d
  {
    if d > 0 {
      AddEdgesKeys(m, tile, id, d - 1);
      var key := EdgeInstance(tile.Edges[d - 1], d - 1);
      assert id in Insert(AddEdges(m, tile, id, d - 1), key, id)[key];
    }
  }

  /** The index lists, under each key, exactly the tiles having that edge
      on that side, and has a key for every edge of every tile and for
      nothing else. */
  lemma IndexMeaning(tiles: seq<Tile>)
    ensures forall k :: k in Index(tiles) ==> Index(tiles)[k] == TilesWith(tiles, k)
    ensures forall k :: k in Index(tiles) <==> TilesWith(tiles, k) != {}
  {
    var m := Index(tiles);
    IndexUpToKeys(tiles, |tiles|);
    forall k | k in m
      ensures m[k] == TilesWith(tiles, k)
    {
      forall t: nat
        ensures t in m[k] <==> t in TilesWith(tiles, k)
      {
        IndexUpToHas(tiles, |tiles|, k, t);
      }
    }
    forall k | TilesWith(tiles, k) != {}
      ensures k in m
    {
      var t :| t in TilesWith(tiles, k);
      IndexUpToHas(tiles, |tiles|, k, t);
    }
  }

  /** Every listed ID is a tile. */
  lemma IndexIDsInRange(tiles: seq<Tile>)
    ensures forall k, t: nat :: k in Index(tiles) && t in Index(tiles)[k] ==> t < |tiles|
  {
    forall k, t: nat | k in Index(tiles) && t in Index(tiles)[k]
      ensures t < |tiles|
    {
      IndexUpToHas(tiles, |tiles|, k, t);
    }
  }

  // ---------------------------------------------------------------------
  // The sizes of the sets add up to four per tile

  /** The sum of the sizes of the sets of an index. */
  ghost function Total(m: EdgeIndex): nat
  {
    SumOver(m, m.Keys)
  }

  /** The sum of the sizes of the sets under some of the keys. */
  ghost function SumOver(m: EdgeIndex, keys: set<EdgeInstance>): nat
    requires keys <= m.Keys
    decreases keys
  {
    if keys == {} then 0
    else
      var k :| k in keys;
      |m[k]| + SumOver(m, keys - {k})
  }

  /** SumOver may take the keys in any order. */
  lemma {:induction false} SumRemove(m: EdgeIndex, keys: set<EdgeInstance>, k: EdgeInstance)
    requires keys <= m.Keys && k in keys
    ensures SumOver(m, keys) == |m[k]| + SumOver(m, keys - {k})
    decreases keys
  {
    var j :| j in keys && SumOver(m, keys) == |m[j]| + SumOver(m, keys - {j});
    if j != k {
      SumRemove(m, keys - {j}, k);
      SumRemove(m, keys - {k}, j);
      assert keys - {j} - {k} == keys - {k} - {j};
    }
  }

  /** SumOver reads only the sets under its keys. */
  lemma {:induction false} SumAgree(m: EdgeIndex, m': EdgeIndex, keys: set<EdgeInstance>)
    requires keys <= m.Keys && keys <= m'.Keys
    requires forall k :: k in keys ==> m[k] == m'[k]
    ensures SumOver(m, keys) == SumOver(m', keys)
    decreases keys
  {
    if keys != {} {
      var k :| k in keys && SumOver(m, keys) == |m[k]| + SumOver(m, keys - {k});
      SumRemove(m', keys, k);
      SumAgree(m, m', keys - {k});
    }
  }

  /** Inserting an ID not yet under that key adds one to the total. */
  lemma TotalInsert(m: EdgeIndex, key: EdgeInstance, id: nat)
    requires key in m ==> id !in m[key]
    ensures Total(Insert(m, key, id)) == Total(m) + 1
  {
    var m' := Insert(m, key, id);
    var rest := m.Keys - {key};
    SumRemove(m', m'.Keys, key);
    assert m'.Keys - {key} == rest;
    SumAgree(m, m', rest);
    if key in m {
      SumRemove(m, m.Keys, key);
      assert m'[key] == m[key] + {id};
    } else {
      assert m.Keys == rest;
      assert m'[key] == {id};
    }
  }

  /** The IDs under the keys of an index being filled: below id, or id
      itself under one of its first d sides. */
  ghost predicate Below(m: EdgeIndex, id: nat, d: nat)
  {
    forall k, t: nat :: k in m && t in m[k] ==> t < id || (t == id && k.Dir < d)
  }

  lemma {:induction false} AddEdgesTotal(m: EdgeIndex, tile: Tile, id: nat, d: nat)
    requires d <= 4 && Below(m, id, 0)
    ensures Below(AddEdges(m, tile, id, d), id, d)
    ensures Total(AddEdges(m, tile, id, d)) == Total(m) + d
    decreases d
  {
    if d > 0 {
      var prev := AddEdges(m, tile, id, d - 1);
      AddEdgesTotal(m, tile, id, d - 1);
      var key := EdgeInstance(tile.Edges[d - 1], d - 1);
      TotalInsert(prev, key, id);
      var next := AddEdges(m, tile, id, d);
      forall k, t: nat | k in next && t in next[k]
        ensures t < id || (t == id && k.Dir < d)
      {
        AddEdgesHas(m, tile, id, d, k, t);
      }
    }
  }

  /** After n tiles, every ID in the index is below n. */
  lemma {:induction false} IndexUpToBelow(tiles: seq<Tile>, n: nat)
    requires n <= |tiles|
    ensures Below(IndexUpTo(tiles, n), n, 0)
    decreases n
  {
    if n > 0 {
      IndexUpToBelow(tiles, n - 1);
      AddTileBelow(IndexUpTo(tiles, n - 1), tiles[n - 1], n - 1);
    }
  }

  lemma {:induction false} IndexUpToTotal(tiles: seq<Tile>, n: nat)
    requires n <= |tiles|
    ensures Total(IndexUpTo(tiles, n)) == 4 * n
    decreases n
  {
    if n > 0 {
      IndexUpToTotal(tiles, n - 1);
      IndexUpToStep(tiles, n);
    } else {
      TotalEmpty();
    }
  }

  /** The n-th tile adds four entries. */
  lemma IndexUpToStep(tiles: seq<Tile>, n: nat)
    requires 0 < n <= |tiles|
    ensures Total(IndexUpTo(tiles, n)) == Total(IndexUpTo(tiles, n - 1)) + 4
  {
    IndexUpToBelow(tiles, n - 1);
    AddTileTotal(IndexUpTo(tiles, n - 1), tiles[n - 1], n - 1);
  }

  lemma TotalEmpty()
    ensures Total(map[]) == 0
  {
    var m: EdgeIndex := map[];
    assert m.Keys == {};
  }

  /** One whole tile: four more entries, and every ID below the next one. */
  lemma AddTileTotal(m: EdgeIndex, tile: Tile, id: nat)
    requires Below(m, id, 0)
    ensures Total(AddEdges(m, tile, id, 4)) == Total(m) + 4
  {
    AddEdgesTotal(m, tile, id, 4);
  }

  lemma AddTileBelow(m: EdgeIndex, tile: Tile, id: nat)
    requires Below(m, id, 0)
    ensures Below(AddEdges(m, tile, id, 4), id + 1, 0)
  {
    AddEdgesTotal(m, tile, id, 4);
    BelowNext(AddEdges(m, tile, id, 4), id);
  }

  /** A tile fully inserted leaves every ID below the next one. */
  lemma BelowNext(m: EdgeIndex, id: nat)
    requires Below(m, id, 4)
    ensures Below(m, id + 1, 0)
  {
  }

  /** The sizes of the sets of the index sum to four times the number of
      tiles: each tile is listed once per side. */
  lemma IndexTotal(tiles: seq<Tile>)
    ensures Total(Index(tiles)) == 4 * |tiles|
  {
    IndexUpToTotal(tiles, |tiles|);
  }

  // ---------------------------------------------------------------------
  // The class

  /** The inner loop of the constructor: the four edges of one tile. */
  method IndexTile(m0: EdgeIndex, tile: Tile, id: nat) returns (m: EdgeIndex)
    ensures m == AddEdges(m0, tile, id, 4)
  {
    m := m0;
    var edgeI := 0;
    while edgeI < 4
      invariant 0 <= edgeI <= 4
      invariant m == AddEdges(m0, tile, id, edgeI)
    {
      var key := EdgeInstance(tile.Edges[edgeI], edgeI);
      m := m[key := (if key in m then m[key] else {}) + {id}];
      edgeI := edgeI + 1;
    }
  }

  class InputData {
    var tiles: seq<Tile>
    var matchingEdges: EdgeIndex

    /** The constructor: every tile's four edges go into the index, tile
        by tile. */
    constructor(tiles0: seq<Tile>)
      ensures tiles == tiles0
      ensures Valid()
    {
      tiles := tiles0;
      var m: EdgeIndex := map[];
      var tileID := 0;
      while tileID < |tiles0|
        invariant 0 <= tileID <= |tiles0|
        invariant m == IndexUpTo(tiles0, tileID)
      {
        m := IndexTile(m, tiles0[tileID], tileID);
        tileID := tileID + 1;
      }
      matchingEdges := m;
    }

    /** The index is the one the constructor builds from the tiles. */
    ghost predicate Valid()
      reads this
    {
      matchingEdges == Index(tiles)
    }

    /** GetTilesWithEdge: the tiles with that edge on that side, which is
        the empty set for a key that was never inserted. */
    function GetTilesWithEdge(edgeType: EdgeID, side: nat): (r: set<nat>)
      requires Valid()
      reads this
      ensures r == TilesWith(tiles, EdgeInstance(edgeType, side))
    {
      GetTilesWithEdgeMeaning(tiles, edgeType, side);
      if EdgeInstance(edgeType, side) in matchingEdges then matchingEdges[EdgeInstance(edgeType, side)] else {}
    }
  }

  /** Looking up a key of a constructed index gives exactly the tiles with
      that edge on that side, and an absent key stands for no tile. */
  lemma GetTilesWithEdgeMeaning(tiles: seq<Tile>, edgeType: EdgeID, side: nat)
    ensures (if EdgeInstance(edgeType, side) in Index(tiles) then Index(tiles)[EdgeInstance(edgeType, side)] else {})
              == TilesWith(tiles, EdgeInstance(edgeType, side))
  {
    IndexMeaning(tiles);
  }
}
