/** WFCtile's edge names (EdgeData.h, EdgeData.cpp): every edge name the
    tiles use gets an ID, in order of first appearance, and the edge pairs
    file says which edge fits against which. */
module WfcTileEdges {
  import opened Common
  import opened WfcTileUtils
  import opened WfcTileKeyValues
  import opened WfcTileTileFile

  /** EdgeData's three lookups. */
  datatype EdgeData = EdgeData(EdgeIDsByName: map<string, nat>, EdgeNamesByID: map<nat, string>,
                               Pairs: map<string, string>)

  /** The error code for an edge named twice in the pairs file. */
  const REPEATED_EDGE: int := 8

  // ---------------------------------------------------------------------
  // Edge IDs

  /** The edges of the tiles, tile by tile, each in EdgeDirs order. */
  function AllEdges(tiles: seq<TileFile>): (s: seq<string>)
    ensures |s| == 4 * |tiles|
  {
    if tiles == [] then [] else AllEdges(tiles[..|tiles| - 1]) + tiles[|tiles| - 1].Edges
  }

  predicate NoRepeats(d: seq<string>)
  {
    forall i, j :: 0 <= i < j < |d| ==> d[i] != d[j]
  }

  /** The names in order of first appearance, each once. */
  function Distinct(s: seq<string>): (d: seq<string>)
    ensures forall x :: x in d <==> x in s
    ensures NoRepeats(d)
  {
    if s == [] then []
    else
      var p := Distinct(s[..|s| - 1]);
      var x := s[|s| - 1];
      assert forall y :: y in s <==> y in s[..|s| - 1] || y == x by {
        assert s == s[..|s| - 1] + [x];
      }
      if x in p then p else p + [x]
  }

  lemma DistinctSnoc(s: seq<string>, x: string)
    ensures Distinct(s + [x]) == if x in s then Distinct(s) else Distinct(s) + [x]
  {
    assert (s + [x])[..|s|] == s;
  }

  /** Name i of the list has ID i. */
  function IDsByName(d: seq<string>): map<string, nat>
  {
    if d == [] then map[] else IDsByName(d[..|d| - 1])[d[|d| - 1] := |d| - 1]
  }

  /** ID i names the list's name i. */
  function NamesByID(d: seq<string>): map<nat, string>
  {
    if d == [] then map[] else NamesByID(d[..|d| - 1])[|d| - 1 := d[|d| - 1]]
  }

  /** The two lookups of a list without repeats: one key per name and one
      per ID below the count, each mapping to the other. */
  lemma {:induction false} LookupsOfDistinct(d: seq<string>)
    requires NoRepeats(d)
    ensures forall x :: x in IDsByName(d) <==> x in d
    ensures forall i: nat :: i in NamesByID(d) <==> i < |d|
    ensures forall i :: 0 <= i < |d| ==> IDsByName(d)[d[i]] == i && NamesByID(d)[i] == d[i]
  {
    if d != [] {
      var p := d[..|d| - 1];
      assert d == p + [d[|d| - 1]];
      assert NoRepeats(p);
      LookupsOfDistinct(p);
      forall i | 0 <= i < |p| ensures d[i] != d[|d| - 1] && d[i] == p[i] {
      }
    }
  }

  /** EdgeIDsByName and EdgeNamesByID undo each other. */
  lemma LookupsInverse(d: seq<string>)
    requires NoRepeats(d)
    ensures forall x :: x in IDsByName(d) ==> IDsByName(d)[x] in NamesByID(d) && NamesByID(d)[IDsByName(d)[x]] == x
    ensures forall i :: i in NamesByID(d) ==> NamesByID(d)[i] in IDsByName(d) && IDsByName(d)[NamesByID(d)[i]] == i
  {
    LookupsOfDistinct(d);
    forall x | x in IDsByName(d)
      ensures IDsByName(d)[x] in NamesByID(d) && NamesByID(d)[IDsByName(d)[x]] == x
    {
      var i :| 0 <= i < |d| && d[i] == x;
    }
  }

  /** The first names of a list without repeats come first in it. */
  lemma {:induction false} DistinctPrefix(s: seq<string>, k: nat)
    requires k <= |s|
    ensures |Distinct(s[..k])| <= |Distinct(s)| && Distinct(s)[..|Distinct(s[..k])|] == Distinct(s[..k])
    decreases |s| - k
  {
    if k < |s| {
      DistinctPrefix(s, k + 1);
      assert s[..k + 1] == s[..k] + [s[k]];
      DistinctSnoc(s[..k], s[k]);
    } else {
      assert s[..k] == s;
    }
  }

  /** A name's ID counts the different names seen before its first
      appearance. */
  lemma FirstAppearance(s: seq<string>, k: nat)
    requires k < |s| && s[k] !in s[..k]
    ensures s[k] in IDsByName(Distinct(s)) && IDsByName(Distinct(s))[s[k]] == |Distinct(s[..k])|
  {
    DistinctPrefix(s, k + 1);
    assert s[..k + 1] == s[..k] + [s[k]];
    DistinctSnoc(s[..k], s[k]);
    var d := Distinct(s);
    var n := |Distinct(s[..k])|;
    assert d[n] == s[k];
    LookupsOfDistinct(d);
  }

  lemma IDsSnoc(d: seq<string>, x: string)
    ensures IDsByName(d + [x]) == IDsByName(d)[x := |d|]
    ensures NamesByID(d + [x]) == NamesByID(d)[|d| := x]
  {
    assert (d + [x])[..|d|] == d;
  }

  lemma AllEdgesSnoc(tiles: seq<TileFile>, t: nat)
    requires t < |tiles|
    ensures AllEdges(tiles[..t + 1]) == AllEdges(tiles[..t]) + tiles[t].Edges
  {
    assert tiles[..t + 1][..t] == tiles[..t];
  }

  /** One edge of the loop: a new name takes the next ID. */
  lemma SeeEdge(seen: seq<string>, edge: string)
    ensures Distinct(seen + [edge]) == if edge in seen then Distinct(seen) else Distinct(seen) + [edge]
    ensures edge !in seen ==>
              IDsByName(Distinct(seen + [edge])) == IDsByName(Distinct(seen))[edge := |Distinct(seen)|] &&
              NamesByID(Distinct(seen + [edge])) == NamesByID(Distinct(seen))[|Distinct(seen)| := edge]
  {
    DistinctSnoc(seen, edge);
    IDsSnoc(Distinct(seen), edge);
  }

  /** The state of the ID loop once it has seen the given edges. */
  ghost predicate IDsAfter(seen: seq<string>, usedEdges: set<string>, edgeIDsByName: map<string, nat>,
                           edgeNamesByID: map<nat, string>, nextEdgeID: nat)
  {
    nextEdgeID == |Distinct(seen)| &&
    (forall x :: x in usedEdges <==> x in seen) &&
    edgeIDsByName == IDsByName(Distinct(seen)) &&
    edgeNamesByID == NamesByID(Distinct(seen))
  }

  /** The inner loop, over one tile's four edges. */
  method AddTileEdges(ghost seen: seq<string>, edges: EdgeNames, usedEdges0: set<string>,
                      edgeIDsByName0: map<string, nat>, edgeNamesByID0: map<nat, string>, nextEdgeID0: nat)
    returns (usedEdges: set<string>, edgeIDsByName: map<string, nat>, edgeNamesByID: map<nat, string>,
             nextEdgeID: nat)
    requires IDsAfter(seen, usedEdges0, edgeIDsByName0, edgeNamesByID0, nextEdgeID0)
    ensures IDsAfter(seen + edges, usedEdges, edgeIDsByName, edgeNamesByID, nextEdgeID)
  {
    usedEdges, edgeIDsByName, edgeNamesByID, nextEdgeID := usedEdges0, edgeIDsByName0, edgeNamesByID0, nextEdgeID0;
    assert seen + edges[..0] == seen;
    for k := 0 to 4
      invariant IDsAfter(seen + edges[..k], usedEdges, edgeIDsByName, edgeNamesByID, nextEdgeID)
    {
      var edge := edges[k];
      SeeEdge(seen + edges[..k], edge);
      if edge !in usedEdges {
        usedEdges := usedEdges + {edge};
        edgeIDsByName := edgeIDsByName[edge := nextEdgeID];
        edgeNamesByID := edgeNamesByID[nextEdgeID := edge];
        nextEdgeID := nextEdgeID + 1;
      }
      assert seen + edges[..k + 1] == (seen + edges[..k]) + [edge];
    }
    assert edges[..4] == edges;
  }

  /** The loop over the tiles' edges at the start of the constructor. */
  method BuildEdgeIDs(tiles: seq<TileFile>)
    returns (edgeIDsByName: map<string, nat>, edgeNamesByID: map<nat, string>)
    ensures edgeIDsByName == IDsByName(Distinct(AllEdges(tiles)))
    ensures edgeNamesByID == NamesByID(Distinct(AllEdges(tiles)))
  {
    edgeIDsByName := map[];
    edgeNamesByID := map[];
    var nextEdgeID: nat := 0;
    var usedEdges: set<string> := {};
    for t := 0 to |tiles|
      invariant IDsAfter(AllEdges(tiles[..t]), usedEdges, edgeIDsByName, edgeNamesByID, nextEdgeID)
    {
      AllEdgesSnoc(tiles, t);
      usedEdges, edgeIDsByName, edgeNamesByID, nextEdgeID :=
        AddTileEdges(AllEdges(tiles[..t]), tiles[t].Edges, usedEdges, edgeIDsByName, edgeNamesByID, nextEdgeID);
    }
    assert tiles[..|tiles|] == tiles;
  }

  /** Every edge name of the tiles has an ID, the IDs are 0, 1, ... up to
      the number of names, and each lookup undoes the other. */
  lemma EdgeIDsMeaning(tiles: seq<TileFile>)
    ensures forall x :: x in IDsByName(Distinct(AllEdges(tiles))) <==> x in AllEdges(tiles)
    ensures forall i: nat :: i in NamesByID(Distinct(AllEdges(tiles))) <==> i < |Distinct(AllEdges(tiles))|
    ensures forall x :: x in IDsByName(Distinct(AllEdges(tiles))) ==>
              IDsByName(Distinct(AllEdges(tiles)))[x] in NamesByID(Distinct(AllEdges(tiles))) &&
              NamesByID(Distinct(AllEdges(tiles)))[IDsByName(Distinct(AllEdges(tiles)))[x]] == x
  {
    LookupsOfDistinct(Distinct(AllEdges(tiles)));
    LookupsInverse(Distinct(AllEdges(tiles)));
  }

  // ---------------------------------------------------------------------
  // Edge pairs

  /** One pass of the loop over the line's two names, as written: the name
      may not be paired already unless the line pairs a name with itself. */
  function PairHalf(pairs: map<string, string>, e: string, other: string): Parsed<map<string, string>>
  {
    if e in pairs && e != other then Failed(REPEATED_EDGE) else Ok(pairs[e := other])
  }

  /** A line "a:b" as the source processes it: the pass for a, then the
      pass for b. */
  function ApplyPairAsWritten(pairs: map<string, string>, a: string, b: string): Parsed<map<string, string>>
  {
    match PairHalf(pairs, a, b)
    case Failed(c) => Failed(c)
    case Ok(p1) => PairHalf(p1, b, a)
  }

  /** As written, a self-pairing line never fails, even when its name was
      paired before, and then replaces the earlier pairing on one side
      only. */
  lemma ApplyPairAsWrittenMeaning(pairs: map<string, string>, a: string, b: string)
    ensures ApplyPairAsWritten(pairs, a, b).Failed? <==> a != b && (a in pairs || b in pairs)
    ensures a == b ==> ApplyPairAsWritten(pairs, a, b) == Ok(pairs[a := a])
    ensures a != b && a !in pairs && b !in pairs ==> ApplyPairAsWritten(pairs, a, b) == Ok(pairs[a := b][b := a])
  {
    if a == b {
      assert pairs[a := a][a := a] == pairs[a := a];
    }
  }

  /** The line "a:b", with a name that is already paired rejected in every
      case, self-pairings included. */
  function ApplyPair(pairs: map<string, string>, a: string, b: string): (r: Parsed<map<string, string>>)
    ensures r.Failed? <==> a in pairs || b in pairs
    ensures r.Failed? ==> r.code == REPEATED_EDGE
    ensures r.Ok? ==> r.value.Keys == pairs.Keys + {a, b} && r.value[a] == b && r.value[b] == a
    ensures r.Ok? ==> forall k :: k in pairs ==> r.value[k] == pairs[k]
  {
    if a in pairs || b in pairs then Failed(REPEATED_EDGE)
    else if a == b then
      assert pairs[a := a].Keys == pairs.Keys + {a, b};
      Ok(pairs[a := a])
    else
      assert pairs[a := b][b := a].Keys == pairs.Keys + {a, b};
      Ok(pairs[a := b][b := a])
  }

  /** Every name maps to its partner, and the partner back to it. */
  ghost predicate Symmetric(pairs: map<string, string>)
  {
    forall k :: k in pairs ==> pairs[k] in pairs && pairs[pairs[k]] == k
  }

  function PairEntry(pairs: map<string, string>, key: string, val: string): Parsed<map<string, string>>
  {
    ApplyPair(pairs, key, val)
  }

  lemma PairKeepsSymmetric(pairs: map<string, string>, a: string, b: string)
    requires Symmetric(pairs)
    ensures ApplyPair(pairs, a, b).Ok? ==> Symmetric(ApplyPair(pairs, a, b).value)
  {
  }

  /** Lines "a:b" and then "a:a": the source accepts the second line,
      leaving b paired with a while a is paired with itself. */
  lemma PairAsWrittenBreaksSymmetry()
    ensures var lines := [Some(("a", "b")), Some(("a", "a"))];
            Fold(map[], lines, ApplyPairAsWritten) == Ok(map["a" := "a", "b" := "a"]) &&
            !Symmetric(map["a" := "a", "b" := "a"]) &&
            Fold(map[], lines, PairEntry) == Failed(REPEATED_EDGE)
  {
    var lines: seq<Option<Entry>> := [Some(("a", "b")), Some(("a", "a"))];
    var p1: map<string, string> := map["a" := "b", "b" := "a"];
    assert ApplyPairAsWritten(map[], "a", "b") == Ok(p1);
    assert lines[1..][1..] == [];
    assert p1["a" := "a"]["a" := "a"] == p1["a" := "a"];
    assert ApplyPairAsWritten(p1, "a", "a") == Ok(p1["a" := "a"]);
    assert Fold(p1["a" := "a"], lines[1..][1..], ApplyPairAsWritten) == Ok(p1["a" := "a"]);
    assert Fold(p1, lines[1..], ApplyPairAsWritten) == Ok(p1["a" := "a"]);
    assert p1["a" := "a"] == map["a" := "a", "b" := "a"];
    assert ApplyPair(p1, "a", "a").Failed?;
    var bad := map["a" := "a", "b" := "a"];
    assert "b" in bad && bad[bad["b"]] != "b";
  }

  /** A pairs file read line by line. */
  function PairLines(contents: string): seq<Option<Entry>>
  {
    SettingsEntries(Pieces(contents, '\n'))
  }

  /** What the constructor leaves in outErrCode and its three lookups. */
  function ParseEdgeData(contents: string, tiles: seq<TileFile>): Parsed<EdgeData>
  {
    var d := Distinct(AllEdges(tiles));
    match Fold(map[], PairLines(contents), PairEntry)
    case Failed(c) => Failed(c)
    case Ok(pairs) => Ok(EdgeData(IDsByName(d), NamesByID(d), pairs))
  }

  /** The line's two passes, with the check made before anything is
      inserted. */
  method PairLine(pairs0: map<string, string>, key: string, val: string) returns (r: Parsed<map<string, string>>)
    ensures r == ApplyPair(pairs0, key, val)
  {
    var edges := [key, val];
    var pairs := pairs0;
    for i := 0 to 2
      invariant i == 0 ==> pairs == pairs0
      invariant i == 1 ==> edges[0] !in pairs0 && pairs == pairs0[edges[0] := edges[1]]
      invariant i == 2 ==> ApplyPair(pairs0, key, val) == Ok(pairs)
    {
      var otherI := (i + 1) % 2;
      if edges[i] in pairs && !(i == 1 && edges[0] == edges[1]) {
        return Failed(REPEATED_EDGE);
      }
      if i == 1 && edges[0] == edges[1] {
        assert pairs[edges[1] := edges[0]] == pairs0[edges[0] := edges[0]];
      }
      pairs := pairs[edges[i] := edges[otherI]];
    }
    r := Ok(pairs);
  }

  /** The EdgeData constructor. */
  method ReadEdgeData(dataFile: string, tiles: seq<TileFile>) returns (r: Parsed<EdgeData>)
    ensures r == ParseEdgeData(dataFile, tiles)
  {
    var edgeIDsByName, edgeNamesByID := BuildEdgeIDs(tiles);
    var pairs: map<string, string> := map[];
    ghost var total := Fold(map[], PairLines(dataFile), PairEntry);
    var fileContents := dataFile;
    while fileContents != []
      invariant Fold(pairs, SettingsEntries(Pieces(fileContents, '\n')), PairEntry) == total
      decreases |fileContents|
    {
      var (line0, rest) := NextLine(fileContents, '\n');
      SettingsStep(fileContents);
      fileContents := rest;
      var line := TrimSpaceAndComments(line0, "//");
      if |line| == 0 {
        continue;
      }
      var (key, val) := SplitFirst(line, ':');
      var next := PairLine(pairs, key, val);
      if next.Failed? {
        return Failed(next.code);
      }
      pairs := next.value;
    }
    r := Ok(EdgeData(edgeIDsByName, edgeNamesByID, pairs));
  }

  ghost function SymmetricOf(): map<string, string> -> bool
  {
    p => Symmetric(p)
  }

  lemma PairEntryKeeps()
    ensures forall kv: Entry :: EntryKeeps(PairEntry, SymmetricOf(), kv)
  {
    forall kv: Entry ensures EntryKeeps(PairEntry, SymmetricOf(), kv) {
      forall u | SymmetricOf()(u) && PairEntry(u, kv.0, kv.1).Ok?
        ensures SymmetricOf()(PairEntry(u, kv.0, kv.1).value)
      {
        PairKeepsSymmetric(u, kv.0, kv.1);
      }
    }
  }

  /** A pairs file that reads without error pairs every name it mentions
      both ways, and every failure is code 8. */
  lemma EdgeDataOutcome(contents: string, tiles: seq<TileFile>)
    ensures ParseEdgeData(contents, tiles).Failed? ==> ParseEdgeData(contents, tiles).code == REPEATED_EDGE
    ensures ParseEdgeData(contents, tiles).Ok? ==> Symmetric(ParseEdgeData(contents, tiles).value.Pairs)
  {
    FoldFailure(map[], PairLines(contents), PairEntry, {REPEATED_EDGE});
    PairEntryKeeps();
    FoldKeeps(map[], PairLines(contents), PairEntry, SymmetricOf());
  }
}
