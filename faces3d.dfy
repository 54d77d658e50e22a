/** The faces of a cube (Tiled3D/Transform3D.h): the four corners and
    four edges of a face, the six directions, the identifiers a face
    carries, a face on a given side, and the cube of six faces. */
module Faces3D {
  import opened Vectors

  // ---------------------------------------------------------------------
  // FacePoints: corners and edges of one face

  /** On a face with axes 1 and 2: as a corner, the letters say min (A) or
      max (B) along axis 1 and then axis 2; as an edge, the first letter
      says parallel to axis 1 (A) or 2 (B), the second min (A) or max (B). */
  datatype FacePoint = AA | AB | BA | BB

  function PointOrdinal(p: FacePoint): (n: nat)
    ensures n < 4
  {
    match p
    case AA => 0
    case AB => 1
    case BA => 2
    case BB => 3
  }

  function PointFromOrdinal(n: nat): (p: FacePoint)
    requires n < 4
    ensures PointOrdinal(p) == n
  {
    if n == 0 then AA else if n == 1 then AB else if n == 2 then BA else BB
  }

  predicate IsCornerFirstAxisMin(p: FacePoint) { PointOrdinal(p) / 2 == 0 }

  predicate IsCornerSecondAxisMin(p: FacePoint) { PointOrdinal(p) % 2 == 0 }

  function MakeCornerFacePoint(axis1IsMin: bool, axis2IsMin: bool): FacePoint
  {
    if axis1IsMin then (if axis2IsMin then AA else AB)
    else (if axis2IsMin then BA else BB)
  }

  /** The corner as a vector of -1/+1 components. */
  function MakeCornerFaceVector(p: FacePoint): (v: Vector2i)
    ensures v.x == -1 || v.x == 1
    ensures v.y == -1 || v.y == 1
  {
    Vector2i(if IsCornerFirstAxisMin(p) then -1 else 1, if IsCornerSecondAxisMin(p) then -1 else 1)
  }

  /** The overload of MakeCornerFacePoint taking a face vector. */
  function CornerFromVector(v: Vector2i): FacePoint
  {
    MakeCornerFacePoint(v.x < 0, v.y < 0)
  }

  /** A corner is determined by its two min/max flags, and each flag can be
      read back. */
  lemma CornerFlagsRoundTrip(p: FacePoint, axis1IsMin: bool, axis2IsMin: bool)
    ensures MakeCornerFacePoint(IsCornerFirstAxisMin(p), IsCornerSecondAxisMin(p)) == p
    ensures IsCornerFirstAxisMin(MakeCornerFacePoint(axis1IsMin, axis2IsMin)) == axis1IsMin
    ensures IsCornerSecondAxisMin(MakeCornerFacePoint(axis1IsMin, axis2IsMin)) == axis2IsMin
  {
  }

  /** MakeCornerFacePoint(vector) inverts MakeCornerFaceVector, in both
      directions on the four -1/+1 vectors. */
  lemma CornerVectorRoundTrip(p: FacePoint, v: Vector2i)
    ensures CornerFromVector(MakeCornerFaceVector(p)) == p
    ensures (v.x == -1 || v.x == 1) && (v.y == -1 || v.y == 1) ==>
              MakeCornerFaceVector(CornerFromVector(v)) == v
  {
  }

  predicate IsEdgeParallelToFirstAxis(p: FacePoint) { PointOrdinal(p) / 2 == 0 }

  predicate IsEdgeOnMinSide(p: FacePoint) { PointOrdinal(p) % 2 == 0 }

  function MakeEdgeFacePoint(isParallelToAxis1: bool, onMinSide: bool): FacePoint
  {
    if isParallelToAxis1 then (if onMinSide then AA else AB)
    else (if onMinSide then BA else BB)
  }

  /** The vector from the face centre to the middle of the edge: zero along
      the edge's own axis, -1 or +1 across it. */
  function MakeEdgeFaceVector(p: FacePoint): (v: Vector2i)
  {
    var value := if IsEdgeOnMinSide(p) then -1 else 1;
    if IsEdgeParallelToFirstAxis(p) then Vector2i(0, value) else Vector2i(value, 0)
  }

  /** The overload of MakeEdgeFacePoint taking a face vector. */
  function EdgeFromVector(v: Vector2i): FacePoint
  {
    MakeEdgeFacePoint(v.x == 0, (if v.x < v.y then v.x else v.y) < 0)
  }

  /** An edge vector is one unit step along one axis. */
  predicate IsEdgeVector(v: Vector2i)
  {
    (v.x == 0 && (v.y == -1 || v.y == 1)) || (v.y == 0 && (v.x == -1 || v.x == 1))
  }

  lemma EdgeFlagsRoundTrip(p: FacePoint, isParallelToAxis1: bool, onMinSide: bool)
    ensures MakeEdgeFacePoint(IsEdgeParallelToFirstAxis(p), IsEdgeOnMinSide(p)) == p
    ensures IsEdgeParallelToFirstAxis(MakeEdgeFacePoint(isParallelToAxis1, onMinSide)) == isParallelToAxis1
    ensures IsEdgeOnMinSide(MakeEdgeFacePoint(isParallelToAxis1, onMinSide)) == onMinSide
  {
  }

  /** MakeEdgeFacePoint(vector) inverts MakeEdgeFaceVector, in both
      directions on the four unit steps. */
  lemma EdgeVectorRoundTrip(p: FacePoint, v: Vector2i)
    ensures IsEdgeVector(MakeEdgeFaceVector(p))
    ensures EdgeFromVector(MakeEdgeFaceVector(p)) == p
    ensures IsEdgeVector(v) ==> MakeEdgeFaceVector(EdgeFromVector(v)) == v
  {
  }

  // ---------------------------------------------------------------------
  // Directions3D

  datatype Direction3D = MinX | MaxX | MinY | MaxY | MinZ | MaxZ

  function DirOrdinal(d: Direction3D): (n: nat)
    ensures n < 6
  {
    match d
    case MinX => 0
    case MaxX => 1
    case MinY => 2
    case MaxY => 3
    case MinZ => 4
    case MaxZ => 5
  }

  function DirFromOrdinal(n: nat): (d: Direction3D)
    requires n < 6
    ensures DirOrdinal(d) == n
  {
    if n == 0 then MinX else if n == 1 then MaxX else if n == 2 then MinY
    else if n == 3 then MaxY else if n == 4 then MinZ else MaxZ
  }

  lemma DirOrdinalRoundTrip(d: Direction3D)
    ensures DirFromOrdinal(DirOrdinal(d)) == d
  {
  }

  predicate IsMin(d: Direction3D) { DirOrdinal(d) % 2 == 0 }

  predicate IsMax(d: Direction3D) { DirOrdinal(d) % 2 == 1 }

  function GetAxisIndex(d: Direction3D): (axis: nat)
    ensures axis < 3
  {
    DirOrdinal(d) / 2
  }

  function GetOpposite(d: Direction3D): Direction3D
  {
    DirFromOrdinal(if IsMin(d) then DirOrdinal(d) + 1 else DirOrdinal(d) - 1)
  }

  function MakeDirection3D(isMin: bool, axis: nat): Direction3D
    requires axis < 3
  {
    DirFromOrdinal((if isMin then 0 else 1) + axis * 2)
  }

  /** GetOpposite is an involution that keeps the axis and trades min for
      max; IsMax is the negation of IsMin. */
  lemma OppositeFacts(d: Direction3D)
    ensures GetOpposite(GetOpposite(d)) == d
    ensures GetOpposite(d) != d
    ensures GetAxisIndex(GetOpposite(d)) == GetAxisIndex(d)
    ensures IsMin(GetOpposite(d)) == !IsMin(d)
    ensures IsMax(d) == !IsMin(d)
  {
  }

  /** A direction is its min/max flag and its axis, and MakeDirection3D
      builds exactly the direction with the given flag and axis. */
  lemma DirectionRoundTrip(d: Direction3D, isMin: bool, axis: nat)
    requires axis < 3
    ensures MakeDirection3D(IsMin(d), GetAxisIndex(d)) == d
    ensures IsMin(MakeDirection3D(isMin, axis)) == isMin
    ensures GetAxisIndex(MakeDirection3D(isMin, axis)) == axis
  {
  }

  /** GetFaceDirection: the outward unit normal of the face. */
  function GetFaceDirection(d: Direction3D): (v: Vector3i)
    ensures forall k :: 0 <= k < 3 ==>
              v.Get(k) == (if k != GetAxisIndex(d) then 0 else if IsMin(d) then -1 else 1)
  {
    match d
    case MinX => Vector3i(-1, 0, 0)
    case MaxX => Vector3i(1, 0, 0)
    case MinY => Vector3i(0, -1, 0)
    case MaxY => Vector3i(0, 1, 0)
    case MinZ => Vector3i(0, 0, -1)
    case MaxZ => Vector3i(0, 0, 1)
  }

  /** GetAxes: the face's own axis, then the other two in ascending order. */
  function GetAxes(d: Direction3D): (axes: (nat, nat, nat))
    ensures axes.0 == GetAxisIndex(d)
    ensures axes.1 < axes.2 < 3
    ensures axes.1 != axes.0 && axes.2 != axes.0
  {
    var main := GetAxisIndex(d);
    var plane1 := (main + 1) % 3;
    var plane2 := (plane1 + 1) % 3;
    if plane2 < plane1 then (main, plane2, plane1) else (main, plane1, plane2)
  }

  predicate IsFaceLeftHanded(d: Direction3D)
  {
    d.MinX? || d.MaxY? || d.MinZ?
  }

  /** The sign of the axis permutation (a, b, c) of (0, 1, 2): the
      determinant of the frame made of the three positive unit axes in
      that order. */
  function PermutationSign(a: nat, b: nat, c: nat): int
  {
    if (a, b, c) == (0, 1, 2) || (a, b, c) == (1, 2, 0) || (a, b, c) == (2, 0, 1) then 1 else -1
  }

  /** The orientation of the frame made of the face's two axes, in GetAxes
      order, followed by its outward normal (which points down the face's
      axis on a min face): +1 for right-handed, -1 for left-handed. */
  function FaceFrameSign(d: Direction3D): int
  {
    var axes := GetAxes(d);
    var sign := PermutationSign(axes.1, axes.2, axes.0);
    if IsMin(d) then -sign else sign
  }

  /** An independent reading of IsFaceLeftHanded: the faces whose frame is
      left-handed are exactly the left-handed ones, and every other face's
      frame is right-handed. */
  lemma LeftHandedIsOrientation(d: Direction3D)
    ensures FaceFrameSign(d) == if IsFaceLeftHanded(d) then -1 else 1
  {
  }

  // ---------------------------------------------------------------------
  // FaceIdentifiers, FacePermutation, CubePermutation

  /** A PerFacePoint array of point IDs, indexed by PointOrdinal. */
  type PointIDs = s: seq<nat> | |s| == 4 witness [0, 0, 0, 0]

  /** The IDs of a face's corners and edges; the default has all zeros.
      Equality is that of both arrays, as in the source. */
  datatype FaceIdentifiers = FaceIdentifiers(Corners: PointIDs, Edges: PointIDs)

  const DefaultIdentifiers: FaceIdentifiers := FaceIdentifiers([0, 0, 0, 0], [0, 0, 0, 0])

  /** A face with its identifiers on a given side of the cube. Two faces
      line up when their sides are opposite and their points are equal. */
  datatype FacePermutation = FacePermutation(Side: Direction3D, Points: FaceIdentifiers)

  /** The matching face on the opposite side. */
  function Flipped(f: FacePermutation): FacePermutation
  {
    f.(Side := GetOpposite(f.Side))
  }

  /** Flipped moves the face to the opposite side, keeps its points, and
      undoes itself. */
  lemma FlippedFacts(f: FacePermutation)
    ensures Flipped(f).Side == GetOpposite(f.Side) && Flipped(f).Side != f.Side
    ensures Flipped(f).Points == f.Points
    ensures Flipped(Flipped(f)) == f
  {
    OppositeFacts(f.Side);
  }

  /** The six faces, indexed by the side each face started on. */
  datatype CubePermutation = CubePermutation(Faces: seq<FacePermutation>)

  predicate IsCube(c: CubePermutation) { |c.Faces| == 6 }

  /** The default cube: face d is on side d, with default identifiers. */
  function DefaultCube(): (c: CubePermutation)
    ensures IsCube(c)
    ensures forall i :: 0 <= i < 6 ==> c.Faces[i].Side == DirFromOrdinal(i)
  {
    CubePermutation(seq(6, i requires 0 <= i < 6 => FacePermutation(DirFromOrdinal(i), DefaultIdentifiers)))
  }

  /** The first index at or after `from` whose face is on `side`, or |faces|. */
  function FindFace(faces: seq<FacePermutation>, side: Direction3D, from: nat): (i: nat)
    requires from <= |faces|
    ensures from <= i <= |faces|
    ensures i < |faces| ==> faces[i].Side == side
    ensures forall j :: from <= j < i ==> faces[j].Side != side
    decreases |faces| - from
  {
    if from == |faces| then from
    else if faces[from].Side == side then from
    else FindFace(faces, side, from + 1)
  }

  /** CubePermutation::GetFace: the index of the face now on `dir`; the
      `uint_fast8_t` result -1 reads as 255 when no face is there. */
  method GetFace(cube: CubePermutation, dir: Direction3D) returns (i: nat)
    requires IsCube(cube)
    ensures i < 6 ==> cube.Faces[i].Side == dir && forall j :: 0 <= j < i ==> cube.Faces[j].Side != dir
    ensures i == 255 <==> forall j :: 0 <= j < 6 ==> cube.Faces[j].Side != dir
    ensures i < 6 || i == 255
  {
    i := 0;
    while i < 6
      invariant 0 <= i <= 6
      invariant forall j :: 0 <= j < i ==> cube.Faces[j].Side != dir
    {
      if cube.Faces[i].Side == dir {
        return;
      }
      i := i + 1;
    }
    i := 255;
  }
}
