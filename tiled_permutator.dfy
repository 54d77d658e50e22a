/** Tiled::TilePermutator (src/Tiled/TilePermutator.cpp): the 2D tile
    permutator. The original tiles come first, each its own parent under
    Transformations::None. When a reflection is requested, every edge is
    first given a reflected edge: a supplied reflection map is checked for
    consistency and completed with its inverse pairs, and each tile edge
    still without a reflection gets a fresh ID. Then, for every requested
    transformation in ascending order and every original tile in order, a
    child is made (unless the tile is symmetric under it) whose edges are
    the parent's edges, reflected for a reflection, moved to their new
    sides by the EDGES table. */
module TiledPermutator {
  import opened Vectors
  import opened Transform2D
  import opened EnumFlags
  import opened PermutatorCommon

  // ---------------------------------------------------------------------
  // Tiles and their edges

  /** One past the largest EdgeID: an EdgeID is a uint16_t. */
  const EDGE_ID_LIMIT: nat := 0x1_0000

  type EdgeID = e: nat | e < EDGE_ID_LIMIT

  /** Tile::Edges, indexed by EdgeDirs. */
  type EdgeArray = s: seq<EdgeID> | |s| == 4 witness [0, 0, 0, 0]

  /** EdgeDirs. */
  const MIN_X: nat := 0
  const MAX_X: nat := 1
  const MIN_Y: nat := 2
  const MAX_Y: nat := 3

  /** Tiled::Tile: the transformations it is symmetric under (a
      TransformationFlags mask), its four edge IDs and its weight. */
  datatype Tile = Tile(Symmetries: bv8, Edges: EdgeArray, Weight: nat)

  /** The weight a tile gets by default. */
  const DEFAULT_WEIGHT: nat := 100

  /** TilePermutator::ErrorCodes. */
  datatype ErrorCode = NoError | InvalidReflectionMap

  /** The EDGES table of the constructor: the child's edge on each side is
      the parent edge named in the table. None, which the constructor never
      meets, keeps the edges. */
  function ChildEdges(tr: Transformation, e: EdgeArray): EdgeArray
  {
    match tr
    case Rotate90CW => [e[MAX_Y], e[MIN_Y], e[MIN_X], e[MAX_X]]
    case Rotate180 => [e[MAX_X], e[MIN_X], e[MAX_Y], e[MIN_Y]]
    case Rotate270CW => [e[MIN_Y], e[MAX_Y], e[MAX_X], e[MIN_X]]
    case FlipX => [e[MAX_X], e[MIN_X], e[MIN_Y], e[MAX_Y]]
    case FlipY => [e[MIN_X], e[MAX_X], e[MAX_Y], e[MIN_Y]]
    case FlipDiag1 => [e[MIN_Y], e[MAX_Y], e[MIN_X], e[MAX_X]]
    case FlipDiag2 => [e[MAX_Y], e[MIN_Y], e[MAX_X], e[MIN_X]]
    case None => e
  }

  /** GetEdgeDirection (Tile.hpp): the step each side faces; y points down. */
  function EdgeDirection(d: nat): Vector2i
    requires d < 4
  {
    if d == MIN_X then Vector2i(-1, 0)
    else if d == MAX_X then Vector2i(1, 0)
    else if d == MIN_Y then Vector2i(0, -1)
    else Vector2i(0, 1)
  }

  /** The side a unit step faces. */
  function SideFacing(v: Vector2i): nat
  {
    if v == Vector2i(-1, 0) then MIN_X
    else if v == Vector2i(1, 0) then MAX_X
    else if v == Vector2i(0, -1) then MIN_Y
    else MAX_Y
  }

  /** The linear part of tr (Transform2D.LinearPart: the images of the x
      and y unit steps) applied to the step side d faces. */
  function TurnedDirection(tr: Transformation, d: nat): Vector2i
    requires d < 4
  {
    var l := LinearPart(tr);
    if d == MAX_X then l.0
    else if d == MIN_X then Vector2i(-l.0.x, -l.0.y)
    else if d == MAX_Y then l.1
    else Vector2i(-l.1.x, -l.1.y)
  }

  /** The side that side d of a tile moves to under tr. */
  function MovedSide(tr: Transformation, d: nat): nat
    requires d < 4
  {
    SideFacing(TurnedDirection(tr, d))
  }

  /** The EDGES table agrees with the geometry of the transformation: the
      parent's edge on side d lands on the side that d's direction turns to
      under tr, so every parent edge appears on exactly one side. */
  lemma ChildEdgesFollowGeometry(tr: Transformation, e: EdgeArray, d: nat)
    requires d < 4
    ensures MovedSide(tr, d) < 4
    ensures TurnedDirection(tr, d) == EdgeDirection(MovedSide(tr, d))
    ensures ChildEdges(tr, e)[MovedSide(tr, d)] == e[d]
  {
    match tr
    case None =>
    case Rotate90CW =>
    case Rotate180 =>
    case Rotate270CW =>
    case FlipX =>
    case FlipY =>
    case FlipDiag1 =>
    case FlipDiag2 =>
  }

  /** The table of Invert(tr) undoes the table of tr; in particular
      Rotate180 and the flips are involutions on the edges. */
  lemma ChildEdgesInvert(tr: Transformation, e: EdgeArray)
    ensures ChildEdges(Invert(tr), ChildEdges(tr, e)) == e
  {
  }

  // ---------------------------------------------------------------------
  // The requested transformations

  /** The members of `ords` from `start` up, ascending: what
      EnumFlags::Enumerate appends for a mask whose members are `ords`. */
  function OrdinalsFrom(ords: set<nat>, start: nat): seq<nat>
    requires start <= EnumValEnd
    decreases EnumValEnd - start
  {
    if start == EnumValEnd then []
    else (if start in ords then [start] else []) + OrdinalsFrom(ords, start + 1)
  }

  /** The ordinals from `start` up are exactly the members from `start`
      up, below EnumValEnd. */
  lemma {:induction false} OrdinalsFromMembers(ords: set<nat>, start: nat)
    requires start <= EnumValEnd
    ensures forall v :: v in OrdinalsFrom(ords, start) <==> start <= v < EnumValEnd && v in ords
    decreases EnumValEnd - start
  {
    if start < EnumValEnd {
      OrdinalsFromMembers(ords, start + 1);
      var rest := OrdinalsFrom(ords, start + 1);
      if start in ords {
        assert OrdinalsFrom(ords, start) == [start] + rest;
        forall v
          ensures v in [start] + rest <==> v == start || v in rest
        {
        }
      } else {
        assert OrdinalsFrom(ords, start) == rest;
      }
    }
  }

  /** Each element below every later one. */
  predicate StrictlyAscending(s: seq<nat>)
  {
    forall i, j :: 0 <= i < j < |s| ==> s[i] < s[j]
  }

  /** Putting an element below all of an ascending sequence in front keeps
      it ascending. */
  lemma PrependAscending(x: nat, rest: seq<nat>)
    requires StrictlyAscending(rest)
    requires forall v :: v in rest ==> x < v
    ensures StrictlyAscending([x] + rest)
  {
    var s := [x] + rest;
    forall a, b | 0 <= a < b < |s|
      ensures s[a] < s[b]
    {
      assert s[b] == rest[b - 1] && s[b] in rest;
      if a > 0 { assert s[a] == rest[a - 1]; }
    }
  }

  /** The ordinals from `start` up ascend strictly. */
  lemma {:induction false} OrdinalsFromAscending(ords: set<nat>, start: nat)
    requires start <= EnumValEnd
    ensures StrictlyAscending(OrdinalsFrom(ords, start))
    decreases EnumValEnd - start
  {
    if start < EnumValEnd {
      OrdinalsFromAscending(ords, start + 1);
      var rest := OrdinalsFrom(ords, start + 1);
      if start in ords {
        OrdinalsFromMembers(ords, start + 1);
        PrependAscending(start, rest);
        assert OrdinalsFrom(ords, start) == [start] + rest;
      } else {
        assert OrdinalsFrom(ords, start) == rest;
      }
    }
  }

  /** Every listed ordinal names a transformation. */
  lemma OrdinalsFromBelow(ords: set<nat>, start: nat)
    requires start <= EnumValEnd
    ensures forall i :: 0 <= i < |OrdinalsFrom(ords, start)| ==> OrdinalsFrom(ords, start)[i] < EnumValEnd
  {
    OrdinalsFromMembers(ords, start);
    forall i | 0 <= i < |OrdinalsFrom(ords, start)|
      ensures OrdinalsFrom(ords, start)[i] < EnumValEnd
    {
      assert OrdinalsFrom(ords, start)[i] in OrdinalsFrom(ords, start);
    }
  }

  lemma HeadIn(s: seq<nat>)
    ensures |s| > 0 ==> s[0] in s
  {
  }

  /** Two strictly ascending sequences with the same members are equal. */
  lemma {:induction false} AscendingUnique(a: seq<nat>, b: seq<nat>)
    requires StrictlyAscending(a) && StrictlyAscending(b)
    requires forall v :: v in a <==> v in b
    ensures a == b
    decreases |a|
  {
    HeadIn(a);
    HeadIn(b);
    if |a| > 0 {
      var i :| 0 <= i < |b| && b[i] == a[0];
      var j :| 0 <= j < |a| && a[j] == b[0];
      assert a[0] == b[0];
      forall v
        ensures v in a[1..] <==> v in b[1..]
      {
        if v in a[1..] {
          var k :| 1 <= k < |a| && a[k] == v;
          assert v != a[0] && v in b;
        }
        if v in b[1..] {
          var k :| 1 <= k < |b| && b[k] == v;
          assert v != b[0] && v in a;
        }
      }
      AscendingUnique(a[1..], b[1..]);
    }
  }

  /** The transformations with the given ordinals. */
  function ToTransforms(ords: seq<nat>): (r: seq<Transformation>)
    requires forall i :: 0 <= i < |ords| ==> ords[i] < 8
    ensures |r| == |ords| && forall i :: 0 <= i < |ords| ==> r[i] == FromOrdinal(ords[i])
  {
    seq(|ords|, i requires 0 <= i < |ords| => FromOrdinal(ords[i]))
  }

  /** The permutations the constructor works through: the members of the
      mask in ascending order. */
  function Requested(mask: bv8): seq<Transformation>
  {
    OrdinalsFromBelow(Members(mask), 0);
    ToTransforms(OrdinalsFrom(Members(mask), 0))
  }

  /** What Enumerate produces is that list. */
  lemma EnumeratedIsRequested(mask: bv8, ords: seq<nat>)
    requires forall i, j :: 0 <= i < j < |ords| ==> ords[i] < ords[j]
    requires forall v :: v in ords <==> v in Members(mask)
    ensures forall i :: 0 <= i < |ords| ==> ords[i] < 8
    ensures ToTransforms(ords) == Requested(mask)
  {
    forall i | 0 <= i < |ords|
      ensures ords[i] < 8
    {
      assert ords[i] in ords;
    }
    OrdinalsFromMembers(Members(mask), 0);
    OrdinalsFromAscending(Members(mask), 0);
    assert StrictlyAscending(ords);
    AscendingUnique(ords, OrdinalsFrom(Members(mask), 0));
  }

  /** A transformation is requested exactly when its bit is in the mask. */
  lemma RequestedMembers(mask: bv8, tr: Transformation)
    ensures tr in Requested(mask) <==> MaskContains(mask, Ordinal(tr))
  {
    OrdinalsFromMembers(Members(mask), 0);
    OrdinalsFromBelow(Members(mask), 0);
    InToTransforms(OrdinalsFrom(Members(mask), 0), tr);
  }

  /** A transformation is among those of some ordinals exactly when its
      ordinal is. */
  lemma InToTransforms(ords: seq<nat>, tr: Transformation)
    requires forall i :: 0 <= i < |ords| ==> ords[i] < 8
    ensures tr in ToTransforms(ords) <==> Ordinal(tr) in ords
  {
    var r := ToTransforms(ords);
    if tr in r {
      var i :| 0 <= i < |r| && r[i] == tr;
      assert ords[i] == Ordinal(tr);
    }
    if Ordinal(tr) in ords {
      var i :| 0 <= i < |ords| && ords[i] == Ordinal(tr);
      OrdinalRoundTrip(tr);
      assert r[i] == tr;
    }
  }


  /** std::any_of over the requested transformations with IsReflection. */
  method AnyReflection(trs: seq<Transformation>) returns (any: bool)
    ensures any <==> exists i :: 0 <= i < |trs| && IsReflection(trs[i])
  {
    var i := 0;
    while i < |trs|
      invariant 0 <= i <= |trs|
      invariant forall k :: 0 <= k < i ==> !IsReflection(trs[k])
    {
      if IsReflection(trs[i]) {
        return true;
      }
      i := i + 1;
    }
    return false;
  }

  predicate HasReflection(trs: seq<Transformation>)
  {
    exists i :: 0 <= i < |trs| && IsReflection(trs[i])
  }

  // ---------------------------------------------------------------------
  // Checking the supplied reflection map

  /** The largest of three IDs, std::max({a, b, c}). */
  function Max3(a: EdgeID, b: EdgeID, c: EdgeID): (r: EdgeID)
    ensures a <= r && b <= r && c <= r && (r == a || r == b || r == c)
  {
    if a >= b && a >= c then a else if b >= c then b else c
  }

  /** The state of the first loop: whether every pair so far was
      consistent, the map, and the largest ID seen. */
  datatype PairCheck = PairCheck(ok: bool, refl: map<EdgeID, EdgeID>, next: EdgeID)

  /** Every listed key is a key of the supplied map. */
  predicate KeysIn(order: seq<EdgeID>, supplied: map<EdgeID, EdgeID>)
  {
    forall i :: 0 <= i < |order| ==> order[i] in supplied
  }

  /** The order lists exactly the keys of the supplied map: the iteration
      order of an unordered_map, which the source leaves unspecified. */
  predicate VisitsKeys(order: seq<EdgeID>, supplied: map<EdgeID, EdgeID>)
  {
    KeysIn(order, supplied) && forall k :: k in supplied ==> k in order
  }

  /** One pair (a, b) of the first loop: the largest ID grows; if b already
      has a reflection it must be a, otherwise b is given the reflection a.
      Once a pair failed, nothing more happens. */
  function CheckPair(s: PairCheck, a: EdgeID, b: EdgeID): PairCheck
  {
    if !s.ok then s
    else if b in s.refl then PairCheck(s.refl[b] == a, s.refl, Max3(s.next, a, b))
    else PairCheck(true, s.refl[b := a], Max3(s.next, a, b))
  }

  /** The first loop over the supplied pairs, visited in `order`. */
  function CheckPairs(supplied: map<EdgeID, EdgeID>, order: seq<EdgeID>): PairCheck
    requires KeysIn(order, supplied)
  {
    if |order| == 0 then PairCheck(true, supplied, 0)
    else CheckPair(CheckPairs(supplied, order[..|order| - 1]), order[|order| - 1], supplied[order[|order| - 1]])
  }

  /** A supplied map is consistent when every reflection that is itself a
      key reflects back, and a reflection that is not a key comes from one
      key only. */
  predicate Consistent(s: map<EdgeID, EdgeID>)
  {
    forall a :: a in s ==>
      (s[a] in s ==> s[s[a]] == a) &&
      (s[a] !in s ==> forall c :: c in s && s[c] == s[a] ==> c == a)
  }

  /** A reflection map in which every reflection reflects back. */
  predicate Symmetric(r: map<EdgeID, EdgeID>)
  {
    forall a :: a in r ==> r[a] in r && r[r[a]] == a
  }

  /** What the first loop keeps after visiting the pairs of `order`: the
      supplied pairs are unchanged, every added key is the reflection of a
      supplied key and reflects back to it, every visited pair is
      symmetric, and `next` bounds and is one of the visited IDs. */
  ghost predicate CheckedSoFar(supplied: map<EdgeID, EdgeID>, order: seq<EdgeID>, s: PairCheck)
    requires KeysIn(order, supplied)
  {
    MapSoFar(supplied, order, s.refl) && NextSoFar(supplied, order, s.next)
  }

  /** The map part of CheckedSoFar. */
  ghost predicate MapSoFar(supplied: map<EdgeID, EdgeID>, order: seq<EdgeID>, refl: map<EdgeID, EdgeID>)
    requires KeysIn(order, supplied)
  {
    (forall k :: k in supplied ==> k in refl && refl[k] == supplied[k]) &&
    (forall k :: k in refl && k !in supplied ==> refl[k] in supplied && supplied[refl[k]] == k) &&
    (forall i :: 0 <= i < |order| ==> supplied[order[i]] in refl && refl[supplied[order[i]]] == order[i])
  }

  /** The largest-ID part of CheckedSoFar. */
  ghost predicate NextSoFar(supplied: map<EdgeID, EdgeID>, order: seq<EdgeID>, next: EdgeID)
    requires KeysIn(order, supplied)
  {
    (forall i :: 0 <= i < |order| ==> order[i] <= next && supplied[order[i]] <= next) &&
    (next == 0 || exists i :: 0 <= i < |order| && (next == order[i] || next == supplied[order[i]]))
  }


  /** The first loop keeps CheckedSoFar while it succeeds, and it fails
      only on a supplied map that is not consistent. */
  lemma {:induction false} CheckPairsInvariant(supplied: map<EdgeID, EdgeID>, order: seq<EdgeID>)
    requires KeysIn(order, supplied)
    ensures CheckPairs(supplied, order).ok ==> CheckedSoFar(supplied, order, CheckPairs(supplied, order))
    ensures !CheckPairs(supplied, order).ok ==> !Consistent(supplied)
    decreases |order|
  {
    if |order| > 0 {
      var m := |order| - 1;
      var prefix := order[..m];
      assert KeysIn(prefix, supplied);
      CheckPairsInvariant(supplied, prefix);
      var s := CheckPairs(supplied, prefix);
      var a, b := order[m], supplied[order[m]];
      if s.ok {
        if b in s.refl && s.refl[b] != a {
          ConflictIsInconsistent(supplied, prefix, s, a);
        } else {
          PairStep(supplied, prefix, s, a);
          assert order == prefix + [a];
        }
      }
    }
  }

  /** A visited pair whose reflection already reflects elsewhere shows the
      supplied map inconsistent. */
  lemma ConflictIsInconsistent(supplied: map<EdgeID, EdgeID>, prefix: seq<EdgeID>, s: PairCheck, a: EdgeID)
    requires KeysIn(prefix, supplied) && CheckedSoFar(supplied, prefix, s)
    requires a in supplied && supplied[a] in s.refl && s.refl[supplied[a]] != a
    ensures !Consistent(supplied)
  {
    var b := supplied[a];
    if b in supplied {
      assert supplied[supplied[a]] != a;
    } else {
      var c := s.refl[b];
      assert c in supplied && supplied[c] == b && c != a;
    }
  }

  /** A consistent visit of one more pair keeps CheckedSoFar. */
  lemma PairStep(supplied: map<EdgeID, EdgeID>, prefix: seq<EdgeID>, s: PairCheck, a: EdgeID)
    requires KeysIn(prefix, supplied) && CheckedSoFar(supplied, prefix, s) && s.ok
    requires a in supplied
    requires supplied[a] in s.refl ==> s.refl[supplied[a]] == a
    ensures KeysIn(prefix + [a], supplied)
    ensures CheckPair(s, a, supplied[a]).ok
    ensures CheckedSoFar(supplied, prefix + [a], CheckPair(s, a, supplied[a]))
  {
    var order := prefix + [a];
    assert forall i :: 0 <= i < |prefix| ==> order[i] == prefix[i];
    assert order[|prefix|] == a;
    PairStepMap(supplied, prefix, s.refl, a);
    PairStepNext(supplied, prefix, s.next, a);
  }

  /** The map part of PairStep. */
  lemma PairStepMap(supplied: map<EdgeID, EdgeID>, prefix: seq<EdgeID>, refl: map<EdgeID, EdgeID>, a: EdgeID)
    requires KeysIn(prefix, supplied) && MapSoFar(supplied, prefix, refl)
    requires a in supplied
    requires supplied[a] in refl ==> refl[supplied[a]] == a
    ensures KeysIn(prefix + [a], supplied)
    ensures MapSoFar(supplied, prefix + [a], if supplied[a] in refl then refl else refl[supplied[a] := a])
  {
    var order := prefix + [a];
    var b := supplied[a];
    var t := if b in refl then refl else refl[b := a];
    assert forall i :: 0 <= i < |prefix| ==> order[i] == prefix[i];
    assert order[|prefix|] == a;
    if b !in refl {
      assert b !in supplied;
      forall i | 0 <= i < |order|
        ensures supplied[order[i]] in t && t[supplied[order[i]]] == order[i]
      {
        if i < |prefix| {
          assert supplied[prefix[i]] in refl;
        }
      }
    }
  }

  /** The largest-ID part of PairStep. */
  lemma PairStepNext(supplied: map<EdgeID, EdgeID>, prefix: seq<EdgeID>, next: EdgeID, a: EdgeID)
    requires KeysIn(prefix, supplied) && NextSoFar(supplied, prefix, next)
    requires a in supplied
    ensures KeysIn(prefix + [a], supplied)
    ensures NextSoFar(supplied, prefix + [a], Max3(next, a, supplied[a]))
  {
    var order := prefix + [a];
    var b := supplied[a];
    var m := Max3(next, a, b);
    assert forall i :: 0 <= i < |prefix| ==> order[i] == prefix[i];
    assert order[|prefix|] == a;
    assert m == 0 || exists i :: 0 <= i < |order| && (m == order[i] || m == supplied[order[i]]) by {
      if m != a && m != b {
        assert m == next;
        if next != 0 {
          var i :| 0 <= i < |prefix| && (next == prefix[i] || next == supplied[prefix[i]]);
          assert order[i] == prefix[i];
        }
      } else {
        assert order[|prefix|] == a;
      }
    }
  }


  /** Once a pair failed, the loop's result stays that of the failure. */
  lemma {:induction false} FailureSticks(supplied: map<EdgeID, EdgeID>, order: seq<EdgeID>, i: nat)
    requires KeysIn(order, supplied) && i <= |order|
    requires !CheckPairs(supplied, order[..i]).ok
    ensures CheckPairs(supplied, order) == CheckPairs(supplied, order[..i])
    decreases |order|
  {
    if i < |order| {
      var m := |order| - 1;
      assert order[..m][..i] == order[..i];
      FailureSticks(supplied, order[..m], i);
    } else {
      assert order[..i] == order;
    }
  }

  /** The first loop over every supplied pair succeeds exactly when the
      supplied map is consistent; then the map it leaves is symmetric,
      keeps every supplied pair, adds only reflections of supplied keys,
      and `next` is the largest ID of the supplied map (0 when it is
      empty). */
  lemma CheckPairsMeaning(supplied: map<EdgeID, EdgeID>, order: seq<EdgeID>)
    requires VisitsKeys(order, supplied)
    ensures CheckPairs(supplied, order).ok <==> Consistent(supplied)
    ensures CheckPairs(supplied, order).ok ==> Symmetric(CheckPairs(supplied, order).refl)
    ensures CheckPairs(supplied, order).ok ==>
              forall k :: k in CheckPairs(supplied, order).refl <==>
                k in supplied || exists a :: a in supplied && supplied[a] == k
    ensures forall k :: k in supplied ==> k in CheckPairs(supplied, order).refl && CheckPairs(supplied, order).refl[k] == supplied[k]
    ensures CheckPairs(supplied, order).ok ==>
              forall k :: k in supplied ==> k <= CheckPairs(supplied, order).next && supplied[k] <= CheckPairs(supplied, order).next
    ensures CheckPairs(supplied, order).ok ==>
              (CheckPairs(supplied, order).next == 0 ||
               exists k :: k in supplied && (CheckPairs(supplied, order).next == k || CheckPairs(supplied, order).next == supplied[k]))
  {
    var s := CheckPairs(supplied, order);
    CheckPairsInvariant(supplied, order);
    KeptSupplied(supplied, order);
    if s.ok {
      CheckedMeaning(supplied, order, s);
    }
  }

  /** The first loop never changes a supplied pair, whether or not it
      fails. */
  lemma {:induction false} KeptSupplied(supplied: map<EdgeID, EdgeID>, order: seq<EdgeID>)
    requires KeysIn(order, supplied)
    ensures forall k :: k in supplied ==> k in CheckPairs(supplied, order).refl && CheckPairs(supplied, order).refl[k] == supplied[k]
    decreases |order|
  {
    if |order| > 0 {
      var m := |order| - 1;
      assert KeysIn(order[..m], supplied);
      KeptSupplied(supplied, order[..m]);
    }
  }

  lemma CheckedMeaning(supplied: map<EdgeID, EdgeID>, order: seq<EdgeID>, s: PairCheck)
    requires VisitsKeys(order, supplied) && CheckedSoFar(supplied, order, s)
    ensures Consistent(supplied)
    ensures Symmetric(s.refl)
    ensures forall k :: k in s.refl <==> k in supplied || exists a :: a in supplied && supplied[a] == k
    ensures forall k :: k in supplied ==> k <= s.next && supplied[k] <= s.next
    ensures s.next == 0 || exists k :: k in supplied && (s.next == k || s.next == supplied[k])
  {
    forall a | a in supplied
      ensures supplied[a] in s.refl && s.refl[supplied[a]] == a
      ensures a <= s.next && supplied[a] <= s.next
    {
      var i :| 0 <= i < |order| && order[i] == a;
    }
    forall k | k in s.refl
      ensures k in supplied || exists a :: a in supplied && supplied[a] == k
    {
      if k !in supplied {
        assert supplied[s.refl[k]] == k;
      }
    }
    if s.next != 0 {
      var i :| 0 <= i < |order| && (s.next == order[i] || s.next == supplied[order[i]]);
      assert order[i] in supplied;
    }
  }

  /** The first loop of the constructor. The source walks the live map;
      the pairs it inserts on the way are the reverse of pairs it already
      visited, so visiting them would change nothing. */
  method CheckSuppliedPairs(supplied: map<EdgeID, EdgeID>, order: seq<EdgeID>)
    returns (ok: bool, refl: map<EdgeID, EdgeID>, next: EdgeID)
    requires KeysIn(order, supplied)
    ensures PairCheck(ok, refl, next) == CheckPairs(supplied, order)
  {
    refl, next := supplied, 0;
    var i := 0;
    while i < |order|
      invariant 0 <= i <= |order|
      invariant KeysIn(order[..i], supplied)
      invariant PairCheck(true, refl, next) == CheckPairs(supplied, order[..i])
    {
      var a := order[i];
      var b := supplied[a];
      assert order[..i + 1][..i] == order[..i];
      next := Max3(next, a, b);
      if b in refl {
        if refl[b] != a {
          FailureSticks(supplied, order, i + 1);
          return false, refl, next;
        }
      } else {
        refl := refl[b := a];
      }
      i := i + 1;
    }
    assert order[..i] == order;
    ok := true;
  }

  // ---------------------------------------------------------------------
  // Fresh reflections for the remaining edges

  /** The state of the second loop: the map and the next fresh ID. */
  datatype EdgeMap = EdgeMap(refl: map<EdgeID, EdgeID>, next: EdgeID)

  /** One tile edge: if it has no reflection yet, it and the next fresh ID
      become each other's reflection, and the fresh ID advances (a uint16_t,
      so it wraps). */
  function AddEdge(m: EdgeMap, e: EdgeID): EdgeMap
  {
    if e in m.refl then m
    else EdgeMap(m.refl[e := m.next][m.next := e], (m.next + 1) % EDGE_ID_LIMIT)
  }

  /** The second loop over a list of edges. */
  function AddMissing(m: EdgeMap, edges: seq<EdgeID>): EdgeMap
  {
    if |edges| == 0 then m
    else AddEdge(AddMissing(m, edges[..|edges| - 1]), edges[|edges| - 1])
  }

  lemma AddMissingSnoc(m: EdgeMap, edges: seq<EdgeID>, e: EdgeID)
    ensures AddMissing(m, edges + [e]) == AddEdge(AddMissing(m, edges), e)
  {
    assert (edges + [e])[..|edges|] == edges;
  }

  /** The edges of the tiles, tile by tile, each in EdgeDirs order. */
  function TileEdges(tiles: seq<Tile>): (r: seq<EdgeID>)
    ensures |r| == 4 * |tiles|
  {
    if |tiles| == 0 then [] else TileEdges(tiles[..|tiles| - 1]) + tiles[|tiles| - 1].Edges
  }

  lemma TileEdgesSnoc(tiles: seq<Tile>, t: nat)
    requires t < |tiles|
    ensures TileEdges(tiles[..t + 1]) == TileEdges(tiles[..t]) + tiles[t].Edges
  {
    assert tiles[..t + 1][..t] == tiles[..t];
  }

  /** Every edge of every tile is listed. */
  lemma {:induction false} TileEdgesHas(tiles: seq<Tile>, t: nat, d: nat)
    requires t < |tiles| && d < 4
    ensures tiles[t].Edges[d] in TileEdges(tiles)
    decreases |tiles|
  {
    var m := |tiles| - 1;
    if t < m {
      assert tiles[..m][t] == tiles[t];
      TileEdgesHas(tiles[..m], t, d);
    } else {
      assert TileEdges(tiles)[4 * m + d] == tiles[t].Edges[d];
    }
  }

  /** The largest ID in a list of edges, 0 for none. */
  function MaxEdge(edges: seq<EdgeID>): (r: EdgeID)
    ensures forall i :: 0 <= i < |edges| ==> edges[i] <= r
  {
    if |edges| == 0 then 0
    else
      var r := MaxEdge(edges[..|edges| - 1]);
      assert forall i :: 0 <= i < |edges| - 1 ==> edges[i] == edges[..|edges| - 1][i];
      if edges[|edges| - 1] > r then edges[|edges| - 1] else r
  }

  /** The first fresh ID as the source computes it: one past the largest
      ID of the supplied map (`nextEdgeID += 1`, wrapping as a
      uint16_t). */
  function FreshStartAsWritten(next: EdgeID): EdgeID
  {
    (next + 1) % EDGE_ID_LIMIT
  }

  /** The first fresh ID once it also skips past every tile edge, so that
      no fresh reflection can be an edge some tile already has. */
  function FreshStart(next: EdgeID, tiles: seq<Tile>): EdgeID
  {
    (Max3(next, MaxEdge(TileEdges(tiles)), 0) + 1) % EDGE_ID_LIMIT
  }

  /** The whole reflection set-up from a successful first loop, with the
      given first fresh ID. */
  function Completed(c: PairCheck, start: EdgeID, tiles: seq<Tile>): map<EdgeID, EdgeID>
  {
    AddMissing(EdgeMap(c.refl, start), TileEdges(tiles)).refl
  }

  /** What the second loop keeps, from a map `m0` whose IDs all lie below
      the first fresh ID `f`: the map stays symmetric, keeps m0's pairs,
      holds every edge visited, gives each other new key below f a fresh
      reflection, and every key lies below the next fresh ID. */
  ghost predicate FreshSoFar(m0: map<EdgeID, EdgeID>, f: nat, edges: seq<EdgeID>, m: EdgeMap)
  {
    Symmetric(m.refl) &&
    f <= m.next <= f + |edges| &&
    (forall k :: k in m.refl ==> k < m.next) &&
    (forall k :: k in m0 ==> k in m.refl && m.refl[k] == m0[k]) &&
    (forall i :: 0 <= i < |edges| ==> edges[i] in m.refl) &&
    (forall k :: k in m.refl && k !in m0 && k < f ==> f <= m.refl[k])
  }

  /** The second loop keeps FreshSoFar as long as the fresh IDs do not run
      past the largest EdgeID. */
  lemma {:induction false} AddMissingInvariant(m0: map<EdgeID, EdgeID>, f: EdgeID, edges: seq<EdgeID>)
    requires Symmetric(m0)
    requires forall k :: k in m0 ==> k < f
    requires forall i :: 0 <= i < |edges| ==> edges[i] < f
    requires f + |edges| < EDGE_ID_LIMIT
    ensures FreshSoFar(m0, f, edges, AddMissing(EdgeMap(m0, f), edges))
    decreases |edges|
  {
    if |edges| > 0 {
      var m := |edges| - 1;
      var prefix := edges[..m];
      AddMissingInvariant(m0, f, prefix);
      FreshStep(m0, f, prefix, AddMissing(EdgeMap(m0, f), prefix), edges[m]);
      assert edges == prefix + [edges[m]];
    }
  }

  lemma FreshStep(m0: map<EdgeID, EdgeID>, f: EdgeID, prefix: seq<EdgeID>, m: EdgeMap, e: EdgeID)
    requires FreshSoFar(m0, f, prefix, m)
    requires e < f && f + |prefix| + 1 < EDGE_ID_LIMIT
    ensures FreshSoFar(m0, f, prefix + [e], AddEdge(m, e))
  {
    var edges := prefix + [e];
    assert forall i :: 0 <= i < |prefix| ==> edges[i] == prefix[i];
    assert edges[|prefix|] == e;
    if e !in m.refl {
      var n := m.next;
      assert n !in m.refl;
      var r := m.refl[e := n][n := e];
      assert AddEdge(m, e) == EdgeMap(r, n + 1);
      forall a | a in r
        ensures r[a] in r && r[r[a]] == a
      {
        if a != e && a != n {
          assert a in m.refl && m.refl[a] in m.refl;
        }
      }
    }
  }

  /** The corrected first fresh ID lies past every supplied ID and every
      tile edge. */
  lemma FreshStartIsFresh(c: PairCheck, supplied: map<EdgeID, EdgeID>, tiles: seq<Tile>)
    requires forall k :: k in c.refl ==> k <= c.next && c.refl[k] <= c.next
    requires c.next + 1 + |TileEdges(tiles)| < EDGE_ID_LIMIT && MaxEdge(TileEdges(tiles)) + 1 + |TileEdges(tiles)| < EDGE_ID_LIMIT
    ensures FreshStart(c.next, tiles) == Max3(c.next, MaxEdge(TileEdges(tiles)), 0) + 1
    ensures forall k :: k in c.refl ==> k < FreshStart(c.next, tiles)
    ensures forall i :: 0 <= i < |TileEdges(tiles)| ==> TileEdges(tiles)[i] < FreshStart(c.next, tiles)
  {
  }

  /** Enough room below 65536 for every edge to take a fresh ID: every
      supplied ID and every tile edge stays that far below the limit. */
  predicate RoomForFresh(supplied: map<EdgeID, EdgeID>, tiles: seq<Tile>)
  {
    (forall k :: k in supplied ==> k + 4 * |tiles| + 1 < EDGE_ID_LIMIT && supplied[k] + 4 * |tiles| + 1 < EDGE_ID_LIMIT) &&
    (forall t, d :: 0 <= t < |tiles| && 0 <= d < 4 ==> tiles[t].Edges[d] + 4 * |tiles| + 1 < EDGE_ID_LIMIT)
  }

  /** The complete reflection set-up of a consistent supplied map, with the
      corrected first fresh ID: the map is symmetric, keeps every supplied
      pair, gives every tile edge a reflection, and each edge that had none
      is paired with an ID that is neither a supplied ID nor any tile's
      edge. */
  lemma CompletedMeaning(supplied: map<EdgeID, EdgeID>, order: seq<EdgeID>, tiles: seq<Tile>)
    requires VisitsKeys(order, supplied) && Consistent(supplied) && RoomForFresh(supplied, tiles)
    ensures Symmetric(Completed(CheckPairs(supplied, order), FreshStart(CheckPairs(supplied, order).next, tiles), tiles))
    ensures forall k :: k in supplied ==>
              k in Completed(CheckPairs(supplied, order), FreshStart(CheckPairs(supplied, order).next, tiles), tiles) &&
              Completed(CheckPairs(supplied, order), FreshStart(CheckPairs(supplied, order).next, tiles), tiles)[k] == supplied[k]
    ensures forall t, d :: 0 <= t < |tiles| && 0 <= d < 4 ==>
              tiles[t].Edges[d] in Completed(CheckPairs(supplied, order), FreshStart(CheckPairs(supplied, order).next, tiles), tiles)
    ensures forall e :: (e in Completed(CheckPairs(supplied, order), FreshStart(CheckPairs(supplied, order).next, tiles), tiles) &&
                         e in TileEdges(tiles) && e !in CheckPairs(supplied, order).refl) ==>
              IsFresh(supplied, tiles, Completed(CheckPairs(supplied, order), FreshStart(CheckPairs(supplied, order).next, tiles), tiles)[e])
  {
    var c := CheckPairs(supplied, order);
    CheckPairsMeaning(supplied, order);
    var edges := TileEdges(tiles);
    forall k | k in c.refl
      ensures k <= c.next && c.refl[k] <= c.next
    {
      if k !in supplied {
        var a :| a in supplied && supplied[a] == k;
        assert c.refl[k] == a by {
          assert c.refl[supplied[a]] == a;
        }
      } else {
        assert c.refl[k] == supplied[k];
      }
    }
    RoomBounds(supplied, tiles, c.next);
    FreshStartIsFresh(c, supplied, tiles);
    var f := FreshStart(c.next, tiles);
    AddMissingInvariant(c.refl, f, edges);
    var r := Completed(c, f, tiles);
    forall t, d | 0 <= t < |tiles| && 0 <= d < 4
      ensures tiles[t].Edges[d] in r
    {
      TileEdgesHas(tiles, t, d);
    }
    forall e | e in r && e in edges && e !in c.refl
      ensures IsFresh(supplied, tiles, r[e])
    {
      var i :| 0 <= i < |edges| && edges[i] == e;
      assert f <= r[e];
      forall k | k in supplied
        ensures k != r[e] && supplied[k] != r[e]
      {
        assert k <= c.next && supplied[k] <= c.next;
      }
      forall t, d | 0 <= t < |tiles| && 0 <= d < 4
        ensures tiles[t].Edges[d] != r[e]
      {
        TileEdgesHas(tiles, t, d);
      }
    }
  }

  /** An ID that is neither a supplied ID nor an edge of any tile. */
  predicate IsFresh(supplied: map<EdgeID, EdgeID>, tiles: seq<Tile>, id: EdgeID)
  {
    (forall k :: k in supplied ==> k != id && supplied[k] != id) &&
    (forall t, d :: 0 <= t < |tiles| && 0 <= d < 4 ==> tiles[t].Edges[d] != id)
  }

  lemma RoomBounds(supplied: map<EdgeID, EdgeID>, tiles: seq<Tile>, next: EdgeID)
    requires RoomForFresh(supplied, tiles)
    requires next == 0 || exists k :: k in supplied && (next == k || next == supplied[k])
    ensures next + 1 + |TileEdges(tiles)| < EDGE_ID_LIMIT
    ensures MaxEdge(TileEdges(tiles)) + 1 + |TileEdges(tiles)| < EDGE_ID_LIMIT
  {
    var edges := TileEdges(tiles);
    if |edges| > 0 {
      MaxEdgeIsAnEdge(edges);
      var i :| 0 <= i < |edges| && edges[i] == MaxEdge(edges);
      assert edges[i] in edges;
      EdgeOfTile(tiles, edges[i]);
    }
  }

  /** The largest edge is one of the edges. */
  lemma {:induction false} MaxEdgeIsAnEdge(edges: seq<EdgeID>)
    requires |edges| > 0
    ensures exists i :: 0 <= i < |edges| && edges[i] == MaxEdge(edges)
    decreases |edges|
  {
    var m := |edges| - 1;
    if m > 0 && MaxEdge(edges) != edges[m] {
      MaxEdgeIsAnEdge(edges[..m]);
      var i :| 0 <= i < m && edges[..m][i] == MaxEdge(edges[..m]);
      assert edges[i] == MaxEdge(edges);
    } else {
      assert edges[..0] == [];
      assert edges[m] == MaxEdge(edges);
    }
  }

  /** Every listed edge is the edge of some tile on some side. */
  lemma {:induction false} EdgeOfTile(tiles: seq<Tile>, e: EdgeID)
    requires e in TileEdges(tiles)
    ensures exists t, d :: 0 <= t < |tiles| && 0 <= d < 4 && tiles[t].Edges[d] == e
    decreases |tiles|
  {
    var m := |tiles| - 1;
    if e in TileEdges(tiles[..m]) {
      EdgeOfTile(tiles[..m], e);
      var t, d :| 0 <= t < m && 0 <= d < 4 && tiles[..m][t].Edges[d] == e;
      assert tiles[t].Edges[d] == e;
    } else {
      var ed := tiles[m].Edges;
      assert e in ed;
      var d :| 0 <= d < 4 && ed[d] == e;
    }
  }

  /** With the first fresh ID the source uses, a fresh reflection can be an
      edge some tile already has: one tile with edges 0, 1, 0, 1, no
      supplied map and FlipX requested gives edge 0 the reflection 1, so
      reflecting a tile turns its edge 0 into an edge that matches edge 1,
      and edge 1 "reflects" to 0. */
  lemma FreshStartAsWrittenCollides()
    ensures Completed(CheckPairs(map[], []), FreshStartAsWritten(CheckPairs(map[], []).next), OneTile())
            == map[0 := 1, 1 := 0]
    ensures !IsFresh(map[], OneTile(), 1)
  {
    OneTileEdges();
    var r: map<EdgeID, EdgeID> := map[0 := 1, 1 := 0];
    var m0 := EdgeMap(map[], 1);
    AddMissingSnoc(m0, [], 0);
    assert [] + [0] == [0];
    assert AddMissing(m0, [0]) == EdgeMap(r, 2);
    AddMissingSnoc(m0, [0], 1);
    assert [0] + [1] == [0, 1];
    assert AddMissing(m0, [0, 1]) == EdgeMap(r, 2);
    AddMissingSnoc(m0, [0, 1], 0);
    assert [0, 1] + [0] == [0, 1, 0];
    AddMissingSnoc(m0, [0, 1, 0], 1);
    assert [0, 1, 0] + [1] == [0, 1, 0, 1];
    assert AddMissing(m0, [0, 1, 0, 1]) == EdgeMap(r, 2);
    assert OneTile()[0].Edges[1] == 1;
  }

  /** The tile of the example: edges 0, 1, 0, 1, no symmetries, the default
      weight. */
  function OneTile(): seq<Tile>
  {
    [Tile(0, [0, 1, 0, 1], DEFAULT_WEIGHT)]
  }

  lemma OneTileEdges()
    ensures TileEdges(OneTile()) == [0, 1, 0, 1]
    ensures MaxEdge([0, 1, 0, 1]) == 1
  {
    assert OneTile()[..0] == [];
    assert TileEdges(OneTile()) == TileEdges([]) + [0, 1, 0, 1];
    var e: seq<EdgeID> := [0, 1, 0, 1];
    assert e[..3] == [0, 1, 0] && e[..3][..2] == [0, 1] && e[..3][..2][..1] == [0] && [0][..0] == [];
    assert MaxEdge([0]) == 0;
    assert MaxEdge([0, 1]) == 1;
    assert MaxEdge([0, 1, 0]) == 1;
  }

  /** With the corrected first fresh ID the same tile's edges get the new
      reflections 2 and 3. */
  lemma FreshStartAvoidsTileEdges()
    ensures Completed(CheckPairs(map[], []), FreshStart(CheckPairs(map[], []).next, OneTile()), OneTile())
            == map[0 := 2, 2 := 0, 1 := 3, 3 := 1]
  {
    OneTileEdges();
    assert FreshStart(0, OneTile()) == 2;
    var r1: map<EdgeID, EdgeID> := map[0 := 2, 2 := 0];
    var r2: map<EdgeID, EdgeID> := map[0 := 2, 2 := 0, 1 := 3, 3 := 1];
    var m0 := EdgeMap(map[], 2);
    AddMissingSnoc(m0, [], 0);
    assert [] + [0] == [0];
    assert AddMissing(m0, [0]) == EdgeMap(r1, 3);
    AddMissingSnoc(m0, [0], 1);
    assert [0] + [1] == [0, 1];
    assert r1[1 := 3][3 := 1] == r2;
    assert AddMissing(m0, [0, 1]) == EdgeMap(r2, 4);
    AddMissingSnoc(m0, [0, 1], 0);
    assert [0, 1] + [0] == [0, 1, 0];
    AddMissingSnoc(m0, [0, 1, 0], 1);
    assert [0, 1, 0] + [1] == [0, 1, 0, 1];
    assert AddMissing(m0, [0, 1, 0, 1]) == EdgeMap(r2, 4);
  }

  /** The second loop of the constructor, over the original tiles. */
  method AddMissingReflections(tiles: seq<Tile>, refl0: map<EdgeID, EdgeID>, next0: EdgeID)
    returns (refl: map<EdgeID, EdgeID>, next: EdgeID)
    ensures EdgeMap(refl, next) == AddMissing(EdgeMap(refl0, next0), TileEdges(tiles))
  {
    refl, next := refl0, next0;
    assert tiles[..0] == [];
    var t := 0;
    while t < |tiles|
      invariant 0 <= t <= |tiles|
      invariant EdgeMap(refl, next) == AddMissing(EdgeMap(refl0, next0), TileEdges(tiles[..t]))
    {
      refl, next := AddTileReflections(EdgeMap(refl0, next0), TileEdges(tiles[..t]), tiles[t], refl, next);
      TileEdgesSnoc(tiles, t);
      t := t + 1;
    }
    assert tiles[..t] == tiles;
  }

  /** The inner loop: the four edges of one tile. */
  method AddTileReflections(ghost m0: EdgeMap, ghost done: seq<EdgeID>, tile: Tile, refl0: map<EdgeID, EdgeID>, next0: EdgeID)
    returns (refl: map<EdgeID, EdgeID>, next: EdgeID)
    requires EdgeMap(refl0, next0) == AddMissing(m0, done)
    ensures EdgeMap(refl, next) == AddMissing(m0, done + tile.Edges)
  {
    refl, next := refl0, next0;
    assert done + tile.Edges[..0] == done;
    var i := 0;
    while i < 4
      invariant 0 <= i <= 4
      invariant EdgeMap(refl, next) == AddMissing(m0, done + tile.Edges[..i])
    {
      var edge := tile.Edges[i];
      AddMissingSnoc(m0, done + tile.Edges[..i], edge);
      assert done + tile.Edges[..i + 1] == done + tile.Edges[..i] + [edge];
      if edge !in refl {
        var refEdge := next;
        next := (next + 1) % EDGE_ID_LIMIT;
        refl := refl[edge := refEdge][refEdge := edge];
      }
      i := i + 1;
    }
    assert tile.Edges[..4] == tile.Edges;
  }

  // ---------------------------------------------------------------------
  // The permuted tiles

  /** edgeReflections[e] with operator[]: the reflection of e, or the 0
      that operator[] inserts for a missing key (which never happens: see
      BuildReflections). */
  function Reflect(refl: map<EdgeID, EdgeID>, e: EdgeID): EdgeID
  {
    if e in refl then refl[e] else 0
  }

  function ReflectAll(refl: map<EdgeID, EdgeID>, e: EdgeArray): EdgeArray
  {
    [Reflect(refl, e[0]), Reflect(refl, e[1]), Reflect(refl, e[2]), Reflect(refl, e[3])]
  }

  /** Reflecting twice through a symmetric map that holds the edges gives
      the edges back. */
  lemma ReflectTwice(refl: map<EdgeID, EdgeID>, e: EdgeArray)
    requires Symmetric(refl)
    requires forall d :: 0 <= d < 4 ==> e[d] in refl
    ensures ReflectAll(refl, ReflectAll(refl, e)) == e
  {
    assert e[0] in refl && e[1] in refl && e[2] in refl && e[3] in refl;
  }

  /** Tile::Symmetries.Contains(tr). */
  predicate SymmetricUnder(tile: Tile, tr: Transformation)
  {
    MaskContains(tile.Symmetries, Ordinal(tr))
  }

  /** The `edges` array of the constructor: the parent's edges, each
      reflected when tr is a reflection. */
  function ParentEdgesFor(refl: map<EdgeID, EdgeID>, parent: Tile, tr: Transformation): EdgeArray
  {
    if IsReflection(tr) then ReflectAll(refl, parent.Edges) else parent.Edges
  }

  /** A child tile: a copy of the parent whose edges are moved by the EDGES
      table. */
  function ChildTile(refl: map<EdgeID, EdgeID>, parent: Tile, tr: Transformation): Tile
  {
    parent.(Edges := ChildEdges(tr, ParentEdgesFor(refl, parent, tr)))
  }

  /** The children one transformation makes, from parents 0..k-1 in order. */
  function ChildrenFor(tiles: seq<Tile>, tr: Transformation, k: nat): seq<ParentData<Transformation>>
    requires k <= |tiles|
  {
    if k == 0 then []
    else ChildrenFor(tiles, tr, k - 1) + (if SymmetricUnder(tiles[k - 1], tr) then [] else [ParentData(k - 1, tr)])
  }

  /** The children every transformation makes, transformation by
      transformation. */
  function AllChildren(tiles: seq<Tile>, trs: seq<Transformation>): seq<ParentData<Transformation>>
  {
    if |trs| == 0 then []
    else AllChildren(tiles, trs[..|trs| - 1]) + ChildrenFor(tiles, trs[|trs| - 1], |tiles|)
  }

  /** Every child of one transformation carries it, has one of the first k
      tiles as parent, and is a child exactly when that parent is not
      symmetric under it. */
  lemma {:induction false} ChildrenForMembers(tiles: seq<Tile>, tr: Transformation, k: nat)
    requires k <= |tiles|
    ensures forall c :: c in ChildrenFor(tiles, tr, k) <==>
              c.MyTransform == tr && c.ParentID < k && !SymmetricUnder(tiles[c.ParentID], tr)
    decreases k
  {
    if k > 0 {
      ChildrenForMembers(tiles, tr, k - 1);
    }
  }

  /** A (parent, transformation) pair gets a child exactly when the parent
      is an original, the transformation was requested, and the parent is
      not symmetric under it. */
  lemma {:induction false} AllChildrenMembers(tiles: seq<Tile>, trs: seq<Transformation>)
    ensures forall c :: c in AllChildren(tiles, trs) <==>
              c.ParentID < |tiles| && c.MyTransform in trs && !SymmetricUnder(tiles[c.ParentID], c.MyTransform)
    decreases |trs|
  {
    if |trs| > 0 {
      var m := |trs| - 1;
      AllChildrenMembers(tiles, trs[..m]);
      ChildrenForMembers(tiles, trs[m], |tiles|);
      assert trs == trs[..m] + [trs[m]];
      forall t: Transformation
        ensures t in trs <==> t in trs[..m] || t == trs[m]
      {
        assert t in trs[..m] ==> t in trs;
      }
    }
  }

  /** One pair, by AllChildrenMembers. */
  lemma AllChildrenHas(tiles: seq<Tile>, trs: seq<Transformation>, c: ParentData<Transformation>)
    ensures c in AllChildren(tiles, trs) <==>
              c.ParentID < |tiles| && c.MyTransform in trs && !SymmetricUnder(tiles[c.ParentID], c.MyTransform)
  {
    AllChildrenMembers(tiles, trs);
  }

  /** The children of a built permutator all have an original as parent. */
  lemma BuiltParentsBelow(tiles: seq<Tile>, trs: seq<Transformation>)
    ensures ParentsBelow(AllChildren(tiles, trs), |tiles|)
  {
    var entries := AllChildren(tiles, trs);
    forall j | 0 <= j < |entries|
      ensures entries[j].ParentID < |tiles|
    {
      assert entries[j] in entries;
      AllChildrenMembers(tiles, trs);
    }
  }

  /** The child tiles, in the order of their entries. */
  function ChildTiles(refl: map<EdgeID, EdgeID>, originals: seq<Tile>, entries: seq<ParentData<Transformation>>): (r: seq<Tile>)
    requires ParentsBelow(entries, |originals|)
    ensures |r| == |entries|
    ensures forall j :: 0 <= j < |entries| ==>
              r[j] == ChildTile(refl, originals[entries[j].ParentID], entries[j].MyTransform)
  {
    seq(|entries|, j requires 0 <= j < |entries| =>
          ChildTile(refl, originals[entries[j].ParentID], entries[j].MyTransform))
  }

  /** Each original listed under itself only. */
  function OriginalLists(n: nat): map<nat, seq<nat>>
  {
    map p: nat | p < n :: [p]
  }

  /** What the constructor has at the end: the out-parameter's error code,
      the tiles, the parent records, the per-original lists and the edge
      reflections. */
  datatype Built = Built(error: ErrorCode, tiles: seq<Tile>, parents: seq<ParentData<Transformation>>,
                         per: map<nat, seq<nat>>, refl: map<EdgeID, EdgeID>)

  /** The parent records: the originals, then every child entry. */
  function BuiltParents(originals: seq<Tile>, trs: seq<Transformation>): seq<ParentData<Transformation>>
  {
    Originals(|originals|, None) + AllChildren(originals, trs)
  }

  /** The result of a constructor that got as far as the permutations. */
  function Permuted(refl: map<EdgeID, EdgeID>, originals: seq<Tile>, trs: seq<Transformation>): Built
  {
    Built(NoError, BuiltTiles(refl, originals, trs), BuiltParents(originals, trs), BuiltLists(originals, trs), refl)
  }

  /** The tiles: the originals, then every child entry's tile. */
  function BuiltTiles(refl: map<EdgeID, EdgeID>, originals: seq<Tile>, trs: seq<Transformation>): seq<Tile>
  {
    BuiltParentsBelow(originals, trs);
    originals + ChildTiles(refl, originals, AllChildren(originals, trs))
  }

  /** Each original's list: itself, then its children's IDs. */
  function BuiltLists(originals: seq<Tile>, trs: seq<Transformation>): map<nat, seq<nat>>
  {
    map p: nat | p < |originals| :: [p] + ChildIDs(AllChildren(originals, trs), p, |originals|)
  }


  /** What the reflection-map setup of the constructor ends with: whether
      it went on to the permutations, and the map it left behind. */
  datatype Setup = Setup(ok: bool, refl: map<EdgeID, EdgeID>)

  /** Without a reflection among the transformations the supplied map is
      kept as it is; with one, an inconsistent supplied map stops the
      constructor, and otherwise the map is completed with fresh IDs that
      start past every tile edge. */
  function SetupReflections(originals: seq<Tile>, trs: seq<Transformation>, supplied: map<EdgeID, EdgeID>,
                            order: seq<EdgeID>): Setup
    requires KeysIn(order, supplied)
  {
    if !HasReflection(trs) then Setup(true, supplied)
    else if !CheckPairs(supplied, order).ok then Setup(false, CheckPairs(supplied, order).refl)
    else Setup(true, Completed(CheckPairs(supplied, order), FreshStart(CheckPairs(supplied, order).next, originals), originals))
  }

  /** The whole constructor on values: a failed setup leaves the originals
      alone in the permutator, with the InvalidReflectionMap code. */
  function Build(originals: seq<Tile>, mask: bv8, supplied: map<EdgeID, EdgeID>, order: seq<EdgeID>): Built
    requires KeysIn(order, supplied)
  {
    if SetupReflections(originals, Requested(mask), supplied, order).ok then
      Permuted(SetupReflections(originals, Requested(mask), supplied, order).refl, originals, Requested(mask))
    else
      Built(InvalidReflectionMap, originals, Originals(|originals|, None), OriginalLists(|originals|),
            SetupReflections(originals, Requested(mask), supplied, order).refl)
  }

  /** The permutations the flags enumerate, as transformations. */
  method RequestedTransforms(permutations: bv8) returns (trs: seq<Transformation>)
    ensures trs == Requested(permutations)
  {
    var flags := new Flags(permutations);
    var ords := flags.Enumerate([]);
    EnumeratedIsRequested(permutations, ords);
    trs := ToTransforms(ords);
  }

  /** Lines copying, checking and completing the reflection map. */
  method ReflectionSetup(originals: seq<Tile>, trs: seq<Transformation>, supplied: map<EdgeID, EdgeID>,
                         order: seq<EdgeID>) returns (ok: bool, refl: map<EdgeID, EdgeID>)
    requires VisitsKeys(order, supplied)
    ensures Setup(ok, refl) == SetupReflections(originals, trs, supplied, order)
  {
    var anyReflection := AnyReflection(trs);
    refl := supplied;
    ok := true;
    if anyReflection {
      var next;
      ok, refl, next := CheckSuppliedPairs(supplied, order);
      if ok {
        next := FreshStart(next, originals);
        refl, next := AddMissingReflections(originals, refl, next);
      }
    }
  }

  /** The two loops making the permutations. */
  method Permute(refl: map<EdgeID, EdgeID>, originals: seq<Tile>, trs: seq<Transformation>)
    returns (ts: seq<Tile>, parents: seq<ParentData<Transformation>>, per: map<nat, seq<nat>>)
    ensures Built(NoError, ts, parents, per, refl) == Permuted(refl, originals, trs)
    ensures |parents| == |ts|
    ensures forall p :: p in per ==> forall k :: 0 <= k < |per[p]| ==> per[p][k] < |parents|
  {
    var parents0, per0 := RegisterOriginals(originals);
    InvStart(refl, originals);
    ts, parents, per := PermuteEach(refl, originals, trs, parents0, per0);
    InvPermuted(refl, originals, trs, ts, parents, per);
    BuiltValid(refl, originals, AllChildren(originals, trs), ts, parents, per);
  }

  /** What the builder has made from the children entries so far. */
  ghost predicate Inv(refl: map<EdgeID, EdgeID>, originals: seq<Tile>, entries: seq<ParentData<Transformation>>,
                      ts: seq<Tile>, parents: seq<ParentData<Transformation>>, per: map<nat, seq<nat>>)
  {
    ParentsBelow(entries, |originals|) &&
    ts == originals + ChildTiles(refl, originals, entries) &&
    parents == Originals(|originals|, None) + entries &&
    (forall p: nat :: p in per <==> p < |originals|) &&
    forall p :: 0 <= p < |originals| ==> per[p] == [p] + ChildIDs(entries, p, |originals|)
  }

  /** The first loop of the constructor: each original is its own parent
      and the first tile listed under itself. */
  method RegisterOriginals(originals: seq<Tile>) returns (parents: seq<ParentData<Transformation>>, per: map<nat, seq<nat>>)
    ensures parents == Originals(|originals|, None)
    ensures per == OriginalLists(|originals|)
    ensures forall p :: p in per ==> forall k :: 0 <= k < |per[p]| ==> per[p][k] < |parents|
  {
    var n := |originals|;
    parents, per := [], map[];
    var parentID := 0;
    while parentID < n
      invariant 0 <= parentID <= n
      invariant parents == Originals(parentID, None)
      invariant per == map p: nat | p < parentID :: [p]
    {
      parents := parents + [ParentData(parentID, None)];
      per := per[parentID := [parentID]];
      parentID := parentID + 1;
    }
  }

  /** The originals alone satisfy the builder's invariant. */
  lemma InvStart(refl: map<EdgeID, EdgeID>, originals: seq<Tile>)
    ensures Inv(refl, originals, [], originals, Originals(|originals|, None), OriginalLists(|originals|))
  {
    var n := |originals|;
    assert originals == originals + ChildTiles(refl, originals, []);
    assert Originals(n, None) == Originals(n, None) + [];
    assert forall p :: 0 <= p < n ==> OriginalLists(n)[p] == [p] + ChildIDs<Transformation>([], p, n);
  }

  /** The builder's invariant for every requested transformation is the
      constructor's result. */
  lemma InvPermuted(refl: map<EdgeID, EdgeID>, originals: seq<Tile>, trs: seq<Transformation>,
                    ts: seq<Tile>, parents: seq<ParentData<Transformation>>, per: map<nat, seq<nat>>)
    requires Inv(refl, originals, AllChildren(originals, trs), ts, parents, per)
    ensures Built(NoError, ts, parents, per, refl) == Permuted(refl, originals, trs)
  {
    var n := |originals|;
    var want := map p: nat | p < n :: [p] + ChildIDs(AllChildren(originals, trs), p, n);
    assert per.Keys == want.Keys;
    assert forall p :: p in per ==> per[p] == want[p];
    assert per == want;
  }

  /** The outer loop of the permutations, over the requested
      transformations in order. */
  method PermuteEach(refl: map<EdgeID, EdgeID>, originals: seq<Tile>, trs: seq<Transformation>,
                     parents0: seq<ParentData<Transformation>>, per0: map<nat, seq<nat>>)
    returns (ts: seq<Tile>, parents: seq<ParentData<Transformation>>, per: map<nat, seq<nat>>)
    requires Inv(refl, originals, [], originals, parents0, per0)
    ensures Inv(refl, originals, AllChildren(originals, trs), ts, parents, per)
  {
    var n := |originals|;
    ts, parents, per := originals, parents0, per0;
    ghost var entries: seq<ParentData<Transformation>> := [];
    assert AllChildren(originals, trs[..0]) == [];
    var i := 0;
    while i < |trs|
      invariant 0 <= i <= |trs|
      invariant entries == AllChildren(originals, trs[..i])
      invariant Inv(refl, originals, entries, ts, parents, per)
    {
      var tr := trs[i];
      ts, parents, per := PermuteAll(refl, originals, tr, entries, ts, parents, per);
      entries := entries + ChildrenFor(originals, tr, n);
      assert trs[..i + 1][..i] == trs[..i];
      i := i + 1;
    }
    assert trs[..i] == trs;
  }

  /** The inner loop: one transformation, every parent. */
  method PermuteAll(refl: map<EdgeID, EdgeID>, originals: seq<Tile>, tr: Transformation,
                    ghost entries0: seq<ParentData<Transformation>>, ts0: seq<Tile>,
                    parents0: seq<ParentData<Transformation>>, per0: map<nat, seq<nat>>)
    returns (ts: seq<Tile>, parents: seq<ParentData<Transformation>>, per: map<nat, seq<nat>>)
    requires Inv(refl, originals, entries0, ts0, parents0, per0)
    ensures Inv(refl, originals, entries0 + ChildrenFor(originals, tr, |originals|), ts, parents, per)
  {
    var n := |originals|;
    ts, parents, per := ts0, parents0, per0;
    ghost var entries := entries0;
    assert entries0 + ChildrenFor(originals, tr, 0) == entries0;
    var parentID := 0;
    while parentID < n
      invariant 0 <= parentID <= n
      invariant entries == entries0 + ChildrenFor(originals, tr, parentID)
      invariant Inv(refl, originals, entries, ts, parents, per)
    {
      ChildrenForStep(originals, tr, entries0, parentID);
      if !SymmetricUnder(originals[parentID], tr) {
        ts, parents, per := RegisterChild(refl, originals, parentID, tr, entries, ts, parents, per);
        entries := entries + [ParentData(parentID, tr)];
      }
      parentID := parentID + 1;
    }
  }

  /** One more parent extends a transformation's children by at most its
      own child. */
  lemma ChildrenForStep(tiles: seq<Tile>, tr: Transformation, entries0: seq<ParentData<Transformation>>, k: nat)
    requires k < |tiles|
    ensures entries0 + ChildrenFor(tiles, tr, k + 1) ==
            entries0 + ChildrenFor(tiles, tr, k) + (if SymmetricUnder(tiles[k], tr) then [] else [ParentData(k, tr)])
  {
  }

  /** The loop filling `edges`. */
  method ParentEdges(refl: map<EdgeID, EdgeID>, tile: Tile, tr: Transformation) returns (edges: EdgeArray)
    ensures edges == ParentEdgesFor(refl, tile, tr)
  {
    var e: seq<EdgeID> := [];
    var i := 0;
    while i < 4
      invariant 0 <= i <= 4 && |e| == i
      invariant forall k :: 0 <= k < i ==> e[k] == (if IsReflection(tr) then Reflect(refl, tile.Edges[k]) else tile.Edges[k])
    {
      if IsReflection(tr) {
        e := e + [Reflect(refl, tile.Edges[i])];
      } else {
        e := e + [tile.Edges[i]];
      }
      i := i + 1;
    }
    edges := e;
  }

  /** The body of the inner loop for a parent that is not symmetric: the
      child tile, its parent record and its ID under the parent. */
  method RegisterChild(refl: map<EdgeID, EdgeID>, originals: seq<Tile>, parentID: nat, tr: Transformation,
                       ghost entries: seq<ParentData<Transformation>>, ts0: seq<Tile>,
                       parents0: seq<ParentData<Transformation>>, per0: map<nat, seq<nat>>)
    returns (ts: seq<Tile>, parents: seq<ParentData<Transformation>>, per: map<nat, seq<nat>>)
    requires parentID < |originals|
    requires Inv(refl, originals, entries, ts0, parents0, per0)
    ensures Inv(refl, originals, entries + [ParentData(parentID, tr)], ts, parents, per)
  {
    AppendChild(refl, originals, entries, ParentData(parentID, tr), ts0, parents0, per0);
    var tile := originals[parentID];
    var edges := ParentEdges(refl, tile, tr);
    var childTile := tile.(Edges := ChildEdges(tr, edges));
    var childID := |ts0|;
    ts := ts0 + [childTile];
    parents := parents0 + [ParentData(parentID, tr)];
    per := per0[parentID := per0[parentID] + [childID]];
  }

  /** One more entry adds its child tile at the end. */
  lemma ChildTilesSnoc(refl: map<EdgeID, EdgeID>, originals: seq<Tile>, entries: seq<ParentData<Transformation>>,
                       c: ParentData<Transformation>)
    requires c.ParentID < |originals| && ParentsBelow(entries, |originals|)
    ensures ParentsBelow(entries + [c], |originals|)
    ensures ChildTiles(refl, originals, entries + [c]) ==
            ChildTiles(refl, originals, entries) + [ChildTile(refl, originals[c.ParentID], c.MyTransform)]
  {
    var e := entries + [c];
    assert forall j :: 0 <= j < |entries| ==> e[j] == entries[j];
    assert e[|entries|] == c;
  }

  /** Registering one child keeps the builder's invariant. */
  lemma AppendChild(refl: map<EdgeID, EdgeID>, originals: seq<Tile>, entries: seq<ParentData<Transformation>>,
                    c: ParentData<Transformation>, ts: seq<Tile>, parents: seq<ParentData<Transformation>>,
                    per: map<nat, seq<nat>>)
    requires c.ParentID < |originals|
    requires Inv(refl, originals, entries, ts, parents, per)
    ensures c.ParentID in per
    ensures Inv(refl, originals, entries + [c], ts + [ChildTile(refl, originals[c.ParentID], c.MyTransform)],
                parents + [c], per[c.ParentID := per[c.ParentID] + [|ts|]])
  {
    var n := |originals|;
    var e := entries + [c];
    ChildTilesSnoc(refl, originals, entries, c);
    assert ts + [ChildTile(refl, originals[c.ParentID], c.MyTransform)] == originals + ChildTiles(refl, originals, e);
    assert parents + [c] == Originals(n, None) + e;
    PerAppend(originals, entries, c, ts, per);
  }

  /** The per-original lists after registering child |ts|. */
  lemma PerAppend(originals: seq<Tile>, entries: seq<ParentData<Transformation>>, c: ParentData<Transformation>,
                  ts: seq<Tile>, per: map<nat, seq<nat>>)
    requires c.ParentID < |originals| && |ts| == |originals| + |entries|
    requires forall p: nat :: p in per <==> p < |originals|
    requires forall p :: 0 <= p < |originals| ==> per[p] == [p] + ChildIDs(entries, p, |originals|)
    ensures c.ParentID in per
    ensures forall p: nat :: p in per[c.ParentID := per[c.ParentID] + [|ts|]] <==> p in per
    ensures forall p :: 0 <= p < |originals| ==>
              per[c.ParentID := per[c.ParentID] + [|ts|]][p] == [p] + ChildIDs(entries + [c], p, |originals|)
  {
    var n := |originals|;
    var per' := per[c.ParentID := per[c.ParentID] + [|ts|]];
    forall p | 0 <= p < n
      ensures per'[p] == [p] + ChildIDs(entries + [c], p, n)
    {
      PerAppendAt(entries, c, n, per[p], p, |ts|);
    }
  }

  /** One original's list after registering child `id`. */
  lemma PerAppendAt(entries: seq<ParentData<Transformation>>, c: ParentData<Transformation>, n: nat,
                    list: seq<nat>, p: nat, id: nat)
    requires id == n + |entries|
    requires list == [p] + ChildIDs(entries, p, n)
    ensures (if p == c.ParentID then list + [id] else list) == [p] + ChildIDs(entries + [c], p, n)
  {
    ChildIDsAppend(entries, c, p, n);
    var before := ChildIDs(entries, p, n);
    if p == c.ParentID {
      assert ChildIDs(entries + [c], p, n) == before + [id];
      assert ([p] + before) + [id] == [p] + (before + [id]);
    }
  }

  /** A built permutator lists only built tiles. */
  lemma BuiltValid(refl: map<EdgeID, EdgeID>, originals: seq<Tile>, entries: seq<ParentData<Transformation>>,
                   ts: seq<Tile>, parents: seq<ParentData<Transformation>>, per: map<nat, seq<nat>>)
    requires Inv(refl, originals, entries, ts, parents, per)
    ensures |parents| == |ts|
    ensures forall p :: p in per ==> forall k :: 0 <= k < |per[p]| ==> per[p][k] < |parents|
  {
    forall p | p in per
      ensures forall k :: 0 <= k < |per[p]| ==> per[p][k] < |parents|
    {
      IDsInRange(entries, p, |originals|);
    }
  }

  // ---------------------------------------------------------------------
  // What the constructor builds

  /** A child tile keeps its parent's symmetries and weight, and the parent
      edge on side d (reflected when tr is a reflection) ends up on the
      side that d's outward direction is turned to by tr. */
  lemma ChildTileEdges(refl: map<EdgeID, EdgeID>, parent: Tile, tr: Transformation, d: nat)
    requires d < 4
    requires IsReflection(tr) ==> parent.Edges[d] in refl
    ensures MovedSide(tr, d) < 4
    ensures ChildTile(refl, parent, tr).Symmetries == parent.Symmetries
    ensures ChildTile(refl, parent, tr).Weight == parent.Weight
    ensures ChildTile(refl, parent, tr).Edges[MovedSide(tr, d)] ==
              (if IsReflection(tr) then refl[parent.Edges[d]] else parent.Edges[d])
  {
    ChildEdgesFollowGeometry(tr, ParentEdgesFor(refl, parent, tr), d);
    assert ParentEdgesFor(refl, parent, tr)[d] == (if IsReflection(tr) then Reflect(refl, parent.Edges[d]) else parent.Edges[d]);
  }

  /** A transformation is a reflection that was asked for exactly when one
      of the four reflection bits is set. */
  lemma RequestsReflection(mask: bv8)
    ensures HasReflection(Requested(mask)) <==>
              MaskContains(mask, Ordinal(FlipX)) || MaskContains(mask, Ordinal(FlipY)) ||
              MaskContains(mask, Ordinal(FlipDiag1)) || MaskContains(mask, Ordinal(FlipDiag2))
  {
    var trs := Requested(mask);
    RequestedMembers(mask, FlipX);
    RequestedMembers(mask, FlipY);
    RequestedMembers(mask, FlipDiag1);
    RequestedMembers(mask, FlipDiag2);
    if HasReflection(trs) {
      var i :| 0 <= i < |trs| && IsReflection(trs[i]);
      assert trs[i] in trs;
    } else {
      forall tr | tr in trs
        ensures !IsReflection(tr)
      {
        var i :| 0 <= i < |trs| && trs[i] == tr;
      }
    }
  }

  /** The originals come first in every permutator the constructor builds,
      each its own parent under None and first in its own list; one list
      per original and no other. */
  lemma BuildKeepsOriginals(originals: seq<Tile>, mask: bv8, supplied: map<EdgeID, EdgeID>, order: seq<EdgeID>)
    requires KeysIn(order, supplied)
    ensures |originals| <= |Build(originals, mask, supplied, order).tiles|
    ensures |Build(originals, mask, supplied, order).parents| == |Build(originals, mask, supplied, order).tiles|
    ensures forall p :: 0 <= p < |originals| ==>
              Build(originals, mask, supplied, order).tiles[p] == originals[p] &&
              Build(originals, mask, supplied, order).parents[p] == ParentData(p, None)
    ensures forall p: nat :: p in Build(originals, mask, supplied, order).per <==> p < |originals|
    ensures forall p :: 0 <= p < |originals| ==>
              |Build(originals, mask, supplied, order).per[p]| > 0 && Build(originals, mask, supplied, order).per[p][0] == p
  {
  }

  /** The constructor reports InvalidReflectionMap exactly when a
      reflection was asked for and the supplied map is not consistent; it
      then holds the originals only. */
  lemma BuildError(originals: seq<Tile>, mask: bv8, supplied: map<EdgeID, EdgeID>, order: seq<EdgeID>)
    requires VisitsKeys(order, supplied)
    ensures Build(originals, mask, supplied, order).error == InvalidReflectionMap <==>
              HasReflection(Requested(mask)) && !Consistent(supplied)
    ensures Build(originals, mask, supplied, order).error == InvalidReflectionMap ==>
              Build(originals, mask, supplied, order).tiles == originals &&
              Build(originals, mask, supplied, order).per == OriginalLists(|originals|)
  {
    CheckPairsMeaning(supplied, order);
  }

  /** The reflection map the constructor leaves: the supplied map itself
      when no reflection was asked for; otherwise, for a consistent map with
      room for fresh IDs, a symmetric map that keeps the supplied pairs and
      holds every edge of every original, so that no reflected edge falls
      back to operator[]'s default. */
  lemma BuildReflections(originals: seq<Tile>, mask: bv8, supplied: map<EdgeID, EdgeID>, order: seq<EdgeID>)
    requires VisitsKeys(order, supplied)
    ensures !HasReflection(Requested(mask)) ==> Build(originals, mask, supplied, order).refl == supplied
    ensures HasReflection(Requested(mask)) && Consistent(supplied) && RoomForFresh(supplied, originals) ==>
              Symmetric(Build(originals, mask, supplied, order).refl) &&
              (forall k :: k in supplied ==>
                 k in Build(originals, mask, supplied, order).refl && Build(originals, mask, supplied, order).refl[k] == supplied[k]) &&
              (forall t, d :: 0 <= t < |originals| && 0 <= d < 4 ==>
                 originals[t].Edges[d] in Build(originals, mask, supplied, order).refl)
  {
    if HasReflection(Requested(mask)) && Consistent(supplied) && RoomForFresh(supplied, originals) {
      CheckPairsMeaning(supplied, order);
      CompletedMeaning(supplied, order, originals);
    }
  }

  /** The record with ID n + j is child entry j. */
  lemma ParentAt(originals: seq<Tile>, trs: seq<Transformation>, j: nat)
    requires j < |AllChildren(originals, trs)|
    ensures |BuiltParents(originals, trs)| == |originals| + |AllChildren(originals, trs)|
    ensures BuiltParents(originals, trs)[|originals| + j] == AllChildren(originals, trs)[j]
  {
  }

  /** The tile with ID n + j is child entry j's tile. */
  lemma ChildAt(refl: map<EdgeID, EdgeID>, originals: seq<Tile>, trs: seq<Transformation>, j: nat)
    requires j < |AllChildren(originals, trs)|
    ensures AllChildren(originals, trs)[j].ParentID < |originals|
    ensures Permuted(refl, originals, trs).tiles[|originals| + j] ==
              ChildTile(refl, originals[AllChildren(originals, trs)[j].ParentID], AllChildren(originals, trs)[j].MyTransform)
  {
    BuiltParentsBelow(originals, trs);
  }

  /** Every ID listed under p past p itself is one of p's children, made
      by a requested transformation p is not symmetric under. */
  lemma ListedChild(originals: seq<Tile>, trs: seq<Transformation>, p: nat, id: nat)
    requires p < |originals|
    requires id in ChildIDs(AllChildren(originals, trs), p, |originals|)
    ensures |originals| <= id < |originals| + |AllChildren(originals, trs)|
    ensures AllChildren(originals, trs)[id - |originals|].ParentID == p
    ensures AllChildren(originals, trs)[id - |originals|].MyTransform in trs
    ensures !SymmetricUnder(originals[p], AllChildren(originals, trs)[id - |originals|].MyTransform)
  {
    var entries := AllChildren(originals, trs);
    ChildIDIs(entries, p, |originals|, id);
    var c := entries[id - |originals|];
    assert c in entries;
    AllChildrenHas(originals, trs, c);
  }

  /** The scan over p's children stops at the child made by tr. */
  lemma FindChild(originals: seq<Tile>, trs: seq<Transformation>, p: nat, tr: Transformation)
    returns (r: nat)
    requires p < |originals| && tr in trs && !SymmetricUnder(originals[p], tr)
    ensures forall k :: 0 <= k < |ChildIDs(AllChildren(originals, trs), p, |originals|)| ==>
              ChildIDs(AllChildren(originals, trs), p, |originals|)[k] < |BuiltParents(originals, trs)|
    ensures r == FirstMatch(ChildIDs(AllChildren(originals, trs), p, |originals|), BuiltParents(originals, trs), tr)
    ensures r in ChildIDs(AllChildren(originals, trs), p, |originals|)
    ensures BuiltParents(originals, trs)[r].MyTransform == tr
  {
    var n := |originals|;
    var entries := AllChildren(originals, trs);
    var rest := ChildIDs(entries, p, n);
    var parents := BuiltParents(originals, trs);
    IDsInRange(entries, p, n);
    AllChildrenHas(originals, trs, ParentData(p, tr));
    var j :| 0 <= j < |entries| && entries[j] == ParentData(p, tr);
    ChildIDOf(entries, p, n, j);
    var k :| 0 <= k < |rest| && rest[k] == n + j;
    ParentAt(originals, trs, j);
    FirstMatchFinds(rest, parents, tr, k);
    r := FirstMatch(rest, parents, tr);
  }

  /** One child of p, not made by a transformation that was not requested
      or that p is symmetric under. */
  lemma NotMadeBy(originals: seq<Tile>, trs: seq<Transformation>, p: nat, tr: Transformation, id: nat)
    requires p < |originals| && (tr !in trs || SymmetricUnder(originals[p], tr))
    requires id in ChildIDs(AllChildren(originals, trs), p, |originals|)
    ensures id < |BuiltParents(originals, trs)|
    ensures BuiltParents(originals, trs)[id].MyTransform != tr
  {
    ListedChild(originals, trs, p, id);
    ParentAt(originals, trs, id - |originals|);
  }

  /** No child of p was made by a transformation that was not requested
      or that p is symmetric under. */
  lemma NoChild(originals: seq<Tile>, trs: seq<Transformation>, p: nat, tr: Transformation)
    requires p < |originals| && (tr !in trs || SymmetricUnder(originals[p], tr))
    ensures forall k :: 0 <= k < |ChildIDs(AllChildren(originals, trs), p, |originals|)| ==>
              ChildIDs(AllChildren(originals, trs), p, |originals|)[k] < |BuiltParents(originals, trs)|
    ensures FirstMatch(ChildIDs(AllChildren(originals, trs), p, |originals|), BuiltParents(originals, trs), tr)
              == TILE_ID_INVALID
  {
    var n := |originals|;
    var entries := AllChildren(originals, trs);
    var rest := ChildIDs(entries, p, n);
    var parents := BuiltParents(originals, trs);
    IDsInRange(entries, p, n);
    forall k | 0 <= k < |rest|
      ensures parents[rest[k]].MyTransform != tr
    {
      assert rest[k] in rest;
      NotMadeBy(originals, trs, p, tr, rest[k]);
    }
    FirstMatchMeaning(rest, parents, tr);
  }

  /** The list of an original on a permutator the constructor completed:
      the original itself, then its children's IDs. */
  lemma PermutedList(refl: map<EdgeID, EdgeID>, originals: seq<Tile>, trs: seq<Transformation>, p: nat)
    requires p < |originals|
    ensures p in Permuted(refl, originals, trs).per
    ensures Permuted(refl, originals, trs).per[p] == [p] + ChildIDs(AllChildren(originals, trs), p, |originals|)
    ensures Permuted(refl, originals, trs).parents == BuiltParents(originals, trs)
    ensures forall k :: 0 <= k < |Permuted(refl, originals, trs).per[p]| ==> Permuted(refl, originals, trs).per[p][k] < |Permuted(refl, originals, trs).parents|
  {
    IDsInRange(AllChildren(originals, trs), p, |originals|);
  }

  /** GetTileChild on a completed permutator, under None: an original
      finds itself. */
  lemma PermutedFindSelf(refl: map<EdgeID, EdgeID>, originals: seq<Tile>, trs: seq<Transformation>, p: nat)
    requires p < |originals|
    ensures p in Permuted(refl, originals, trs).per
    ensures forall k :: 0 <= k < |Permuted(refl, originals, trs).per[p]| ==> Permuted(refl, originals, trs).per[p][k] < |Permuted(refl, originals, trs).parents|
    ensures FirstMatch(Permuted(refl, originals, trs).per[p], Permuted(refl, originals, trs).parents, None) == p
  {
    PermutedList(refl, originals, trs, p);
  }

  /** Under a transformation other than None the scan passes over the
      original itself. */
  lemma SkipSelf(refl: map<EdgeID, EdgeID>, originals: seq<Tile>, trs: seq<Transformation>, p: nat, tr: Transformation)
    requires p < |originals| && tr != None
    ensures p in Permuted(refl, originals, trs).per
    ensures forall k :: 0 <= k < |Permuted(refl, originals, trs).per[p]| ==> Permuted(refl, originals, trs).per[p][k] < |Permuted(refl, originals, trs).parents|
    ensures forall k :: 0 <= k < |ChildIDs(AllChildren(originals, trs), p, |originals|)| ==>
              ChildIDs(AllChildren(originals, trs), p, |originals|)[k] < |BuiltParents(originals, trs)|
    ensures FirstMatch(Permuted(refl, originals, trs).per[p], Permuted(refl, originals, trs).parents, tr) ==
              FirstMatch(ChildIDs(AllChildren(originals, trs), p, |originals|), BuiltParents(originals, trs), tr)
  {
    PermutedList(refl, originals, trs, p);
    var ids := Permuted(refl, originals, trs).per[p];
    var rest := ChildIDs(AllChildren(originals, trs), p, |originals|);
    assert ids[1..] == rest;
    assert BuiltParents(originals, trs)[p].MyTransform == None;
  }

  /** GetTileChild on a completed permutator, under a transformation that
      was not requested or that the original is symmetric under: no
      child. */
  lemma PermutedFindNone(refl: map<EdgeID, EdgeID>, originals: seq<Tile>, trs: seq<Transformation>, p: nat, tr: Transformation)
    requires p < |originals| && tr != None && (tr !in trs || SymmetricUnder(originals[p], tr))
    ensures p in Permuted(refl, originals, trs).per
    ensures forall k :: 0 <= k < |Permuted(refl, originals, trs).per[p]| ==> Permuted(refl, originals, trs).per[p][k] < |Permuted(refl, originals, trs).parents|
    ensures FirstMatch(Permuted(refl, originals, trs).per[p], Permuted(refl, originals, trs).parents, tr) == TILE_ID_INVALID
  {
    SkipSelf(refl, originals, trs, p, tr);
    NoChild(originals, trs, p, tr);
  }

  /** GetTileChild on a completed permutator, under a requested
      transformation the original is not symmetric under: the original's
      child tile under it. */
  lemma PermutedFindChild(refl: map<EdgeID, EdgeID>, originals: seq<Tile>, trs: seq<Transformation>, p: nat, tr: Transformation)
    returns (r: nat)
    requires p < |originals| && tr != None && tr in trs && !SymmetricUnder(originals[p], tr)
    ensures p in Permuted(refl, originals, trs).per
    ensures forall k :: 0 <= k < |Permuted(refl, originals, trs).per[p]| ==> Permuted(refl, originals, trs).per[p][k] < |Permuted(refl, originals, trs).parents|
    ensures r == FirstMatch(Permuted(refl, originals, trs).per[p], Permuted(refl, originals, trs).parents, tr)
    ensures |originals| <= r < |Permuted(refl, originals, trs).tiles|
    ensures Permuted(refl, originals, trs).parents[r] == ParentData(p, tr)
    ensures Permuted(refl, originals, trs).tiles[r] == ChildTile(refl, originals[p], tr)
  {
    SkipSelf(refl, originals, trs, p, tr);
    r := FindChild(originals, trs, p, tr);
    MadeBy(refl, originals, trs, p, tr, r);
  }

  /** The child of p listed with ID id and made by tr is p's child tile
      under tr. */
  lemma MadeBy(refl: map<EdgeID, EdgeID>, originals: seq<Tile>, trs: seq<Transformation>, p: nat, tr: Transformation, id: nat)
    requires p < |originals|
    requires id in ChildIDs(AllChildren(originals, trs), p, |originals|)
    requires id < |BuiltParents(originals, trs)| && BuiltParents(originals, trs)[id].MyTransform == tr
    ensures |originals| <= id < |Permuted(refl, originals, trs).tiles|
    ensures Permuted(refl, originals, trs).parents[id] == ParentData(p, tr)
    ensures Permuted(refl, originals, trs).tiles[id] == ChildTile(refl, originals[p], tr)
  {
    var n := |originals|;
    ListedChild(originals, trs, p, id);
    var j := id - n;
    ParentAt(originals, trs, j);
    ChildAt(refl, originals, trs, j);
    var c := AllChildren(originals, trs)[j];
    assert c == ParentData(p, tr);
  }

  /** GetTileChild on the permutator the constructor builds, in terms of the
      requested bits and the tiles' symmetries. */
  lemma BuildFind(originals: seq<Tile>, mask: bv8, supplied: map<EdgeID, EdgeID>, order: seq<EdgeID>, p: nat, tr: Transformation)
    requires KeysIn(order, supplied)
    requires Build(originals, mask, supplied, order).error == NoError && p < |originals|
    ensures p in Build(originals, mask, supplied, order).per
    ensures forall k :: 0 <= k < |Build(originals, mask, supplied, order).per[p]| ==>
              Build(originals, mask, supplied, order).per[p][k] < |Build(originals, mask, supplied, order).parents|
    ensures tr == None ==>
              FirstMatch(Build(originals, mask, supplied, order).per[p], Build(originals, mask, supplied, order).parents, tr) == p
    ensures tr != None && (!MaskContains(mask, Ordinal(tr)) || SymmetricUnder(originals[p], tr)) ==>
              FirstMatch(Build(originals, mask, supplied, order).per[p], Build(originals, mask, supplied, order).parents, tr)
                == TILE_ID_INVALID
    ensures tr != None && MaskContains(mask, Ordinal(tr)) && !SymmetricUnder(originals[p], tr) ==>
              |originals| <= FirstMatch(Build(originals, mask, supplied, order).per[p], Build(originals, mask, supplied, order).parents, tr) <
                |Build(originals, mask, supplied, order).tiles|
    ensures tr != None && MaskContains(mask, Ordinal(tr)) && !SymmetricUnder(originals[p], tr) ==>
              Build(originals, mask, supplied, order).tiles[
                FirstMatch(Build(originals, mask, supplied, order).per[p], Build(originals, mask, supplied, order).parents, tr)]
                == ChildTile(Build(originals, mask, supplied, order).refl, originals[p], tr)
  {
    RequestedMembers(mask, tr);
    var refl := Build(originals, mask, supplied, order).refl;
    if tr == None {
      PermutedFindSelf(refl, originals, Requested(mask), p);
    } else if tr !in Requested(mask) || SymmetricUnder(originals[p], tr) {
      PermutedFindNone(refl, originals, Requested(mask), p, tr);
    } else {
      var r := PermutedFindChild(refl, originals, Requested(mask), p, tr);
    }
  }

  class TilePermutator {
    var tiles: seq<Tile>
    var nOriginalTiles: nat
    var tileParents: seq<ParentData<Transformation>>
    var tilePermutations: map<nat, seq<nat>>
    var edgeReflections: map<EdgeID, EdgeID>
    /** The constructor's `outErrorCode` reference parameter. */
    var outErrorCode: ErrorCode

    /** Every tile has a parent record and every listed child is a tile. */
    ghost predicate Valid()
      reads this
    {
      |tileParents| == |tiles| &&
      forall p :: p in tilePermutations ==>
        forall k :: 0 <= k < |tilePermutations[p]| ==> tilePermutations[p][k] < |tileParents|
    }

    /** The constructor, with the supplied reflection map (an absent map is
        the empty one) and the order in which the unordered_map hands out
        its pairs. None may not be among the permutations. */
    constructor(originalTiles: seq<Tile>, permutations: bv8, reflectedEdges: map<EdgeID, EdgeID>, order: seq<EdgeID>)
      requires VisitsKeys(order, reflectedEdges)
      requires !MaskContains(permutations, Ordinal(None))
      ensures Valid()
      ensures nOriginalTiles == |originalTiles|
      ensures Built(outErrorCode, tiles, tileParents, tilePermutations, edgeReflections) ==
              Build(originalTiles, permutations, reflectedEdges, order)
    {
      var n := |originalTiles|;
      var trs := RequestedTransforms(permutations);
      var ok, refl := ReflectionSetup(originalTiles, trs, reflectedEdges, order);
      assert SetupReflections(originalTiles, Requested(permutations), reflectedEdges, order) == Setup(ok, refl);
      if ok {
        var ts, parents, per := Permute(refl, originalTiles, trs);
        tiles, nOriginalTiles, tileParents, tilePermutations, edgeReflections, outErrorCode :=
          ts, n, parents, per, refl, NoError;
      } else {
        var parents, per := RegisterOriginals(originalTiles);
        tiles, nOriginalTiles, tileParents, tilePermutations, edgeReflections, outErrorCode :=
          originalTiles, n, parents, per, refl, InvalidReflectionMap;
      }
    }

    /** GetTileChild: the first tile listed under `original` made by
        `permutation`, or TileID_INVALID. The original must have been
        registered (the lookup uses `at`). */
    method GetTileChild(original: nat, permutation: Transformation) returns (id: nat)
      requires Valid() && original in tilePermutations
      ensures id == FirstMatch(tilePermutations[original], tileParents, permutation)
    {
      var children := tilePermutations[original];
      var k := 0;
      while k < |children|
        invariant 0 <= k <= |children|
        invariant FirstMatch(children[k..], tileParents, permutation) ==
                  FirstMatch(children, tileParents, permutation)
      {
        if tileParents[children[k]].MyTransform == permutation {
          return children[k];
        }
        assert children[k..][1..] == children[k + 1..];
        k := k + 1;
      }
      return TILE_ID_INVALID;
    }
  }
}
