/** How a transform moves the points of a face: TransformFaceCorner and
    TransformFaceEdge (a 2D transformation of one face, from
    src/Tiled3D/Transform3D.cpp), and Transform3D::ApplyToFace and
    ApplyToCube (the 3D transforms acting on faces and their point IDs). */
module FaceTransforms {
  import opened Vectors
  import opened Faces3D
  import opened CubeTransforms
  import T2 = Transform2D

  // ---------------------------------------------------------------------
  // TransformFaceCorner and TransformFaceEdge

  /** A table row of the source: the results for AA, AB, BA and BB. */
  datatype Row = Row(aa: FacePoint, ab: FacePoint, ba: FacePoint, bb: FacePoint)

  /** The WFCPP_RETURN macro: the entry of the row for point p. */
  function Pick(p: FacePoint, row: Row): FacePoint
  {
    match p
    case AA => row.aa
    case AB => row.ab
    case BA => row.ba
    case BB => row.bb
  }

  function CornerRow(tr: T2.Transformation): Row
  {
    match tr
    case None => Row(AA, AB, BA, BB)
    case Rotate90CW => Row(AB, BB, AA, BA)
    case Rotate180 => Row(BB, BA, AB, AA)
    case Rotate270CW => Row(BA, AA, BB, AB)
    case FlipX => Row(BA, BB, AA, AB)
    case FlipY => Row(AB, AA, BB, BA)
    case FlipDiag1 => Row(AA, BA, AB, BB)
    case FlipDiag2 => Row(BB, AB, BA, AA)
  }

  function EdgeRow(tr: T2.Transformation): Row
  {
    match tr
    case None => Row(AA, AB, BA, BB)
    case Rotate90CW => Row(BA, BB, AB, AA)
    case Rotate180 => Row(AB, AA, BB, BA)
    case Rotate270CW => Row(BB, BA, AA, AB)
    case FlipX => Row(AA, AB, BB, BA)
    case FlipY => Row(AB, AA, BA, BB)
    case FlipDiag1 => Row(BA, BB, AA, AB)
    case FlipDiag2 => Row(BB, BA, AB, AA)
  }

  /** TransformFaceCorner: a right-handed face (MaxX, MinY, MaxZ) is
      handled as its opposite, left-handed face with the inverse 2D
      transformation; a left-handed face reads the table. */
  function TransformFaceCorner(p: FacePoint, dir: Direction3D, tr: T2.Transformation): FacePoint
    decreases if IsFaceLeftHanded(dir) then 0 else 1
  {
    match dir
    case MaxX => TransformFaceCorner(p, GetOpposite(dir), T2.Invert(tr))
    case MinY => TransformFaceCorner(p, GetOpposite(dir), T2.Invert(tr))
    case MaxZ => TransformFaceCorner(p, GetOpposite(dir), T2.Invert(tr))
    case MinX => Pick(p, CornerRow(tr))
    case MaxY => Pick(p, CornerRow(tr))
    case MinZ => Pick(p, CornerRow(tr))
  }

  /** TransformFaceEdge, with the same treatment of right-handed faces. */
  function TransformFaceEdge(p: FacePoint, dir: Direction3D, tr: T2.Transformation): FacePoint
    decreases if IsFaceLeftHanded(dir) then 0 else 1
  {
    match dir
    case MaxX => TransformFaceEdge(p, GetOpposite(dir), T2.Invert(tr))
    case MinY => TransformFaceEdge(p, GetOpposite(dir), T2.Invert(tr))
    case MaxZ => TransformFaceEdge(p, GetOpposite(dir), T2.Invert(tr))
    case MinX => Pick(p, EdgeRow(tr))
    case MaxY => Pick(p, EdgeRow(tr))
    case MinZ => Pick(p, EdgeRow(tr))
  }

  /** A corner as a cell of the 2 x 2 grid of corners: x along the face's
      first axis, y along its second, 0 at the min side. */
  function CornerCell(p: FacePoint): Vector2i
  {
    Vector2i(if IsCornerFirstAxisMin(p) then 0 else 1, if IsCornerSecondAxisMin(p) then 0 else 1)
  }

  /** An edge as the cell of its middle in the 3 x 3 grid of the face: an
      edge parallel to the first axis sits at x = 1, across the second
      axis at y = 0 (min side) or 2 (max side), and symmetrically. */
  function EdgeCell(p: FacePoint): Vector2i
  {
    var across := if IsEdgeOnMinSide(p) then 0 else 2;
    if IsEdgeParallelToFirstAxis(p) then Vector2i(1, across) else Vector2i(across, 1)
  }

  lemma CellsAreDistinct(p: FacePoint, q: FacePoint)
    ensures CornerCell(p) == CornerCell(q) ==> p == q
    ensures EdgeCell(p) == EdgeCell(q) ==> p == q
  {
  }

  /** The 2D transformation the table applies to a face's grid: the
      inverse of tr on a left-handed face; tr itself on a right-handed
      face, which the source reduces to the opposite face and Invert(tr). */
  function GridTransform(dir: Direction3D, tr: T2.Transformation): T2.Transformation
  {
    if IsFaceLeftHanded(dir) then T2.Invert(tr) else tr
  }

  /** The corner table is the 2D transformation of the corner grid: the
      corner TransformFaceCorner returns is the cell where the grid
      transformation moves p. */
  lemma FaceCornerIsGridTransform(p: FacePoint, dir: Direction3D, tr: T2.Transformation)
    ensures CornerCell(TransformFaceCorner(p, dir, tr)) == T2.Transform(GridTransform(dir, tr), CornerCell(p), Vector2i(2, 2))
  {
    T2.InvertIsInvolution(tr);
    if IsFaceLeftHanded(dir) {
      CornerRowIsGridTransform(p, tr);
    } else {
      CornerRowIsGridTransform(p, T2.Invert(tr));
    }
  }

  /** One row of the table, as used on the left-handed faces. */
  lemma CornerRowIsGridTransform(p: FacePoint, tr: T2.Transformation)
    ensures CornerCell(Pick(p, CornerRow(tr))) == T2.Transform(T2.Invert(tr), CornerCell(p), Vector2i(2, 2))
  {
    match tr
    case None =>
    case Rotate90CW =>
    case Rotate180 =>
    case Rotate270CW =>
    case FlipX =>
    case FlipY =>
    case FlipDiag1 =>
    case FlipDiag2 =>
  }

  /** The edge table is the 2D transformation of the 3 x 3 grid of the
      face, acting on the middles of the edges. */
  lemma FaceEdgeIsGridTransform(p: FacePoint, dir: Direction3D, tr: T2.Transformation)
    ensures EdgeCell(TransformFaceEdge(p, dir, tr)) == T2.Transform(GridTransform(dir, tr), EdgeCell(p), Vector2i(3, 3))
  {
    T2.InvertIsInvolution(tr);
    if IsFaceLeftHanded(dir) {
      EdgeRowIsGridTransform(p, tr);
    } else {
      EdgeRowIsGridTransform(p, T2.Invert(tr));
    }
  }

  /** One row of the table, as used on the left-handed faces. */
  lemma EdgeRowIsGridTransform(p: FacePoint, tr: T2.Transformation)
    ensures EdgeCell(Pick(p, EdgeRow(tr))) == T2.Transform(T2.Invert(tr), EdgeCell(p), Vector2i(3, 3))
  {
    match tr
    case None =>
    case Rotate90CW =>
    case Rotate180 =>
    case Rotate270CW =>
    case FlipX =>
    case FlipY =>
    case FlipDiag1 =>
    case FlipDiag2 =>
  }

  /** Transforming a face's corners by tr and then by Invert(tr) gives every
      corner back, so each row of the corner table is a permutation. */
  lemma FaceCornerInverse(p: FacePoint, dir: Direction3D, tr: T2.Transformation)
    ensures TransformFaceCorner(TransformFaceCorner(p, dir, tr), dir, T2.Invert(tr)) == p
  {
    var q := TransformFaceCorner(p, dir, tr);
    var size := Vector2i(2, 2);
    FaceCornerIsGridTransform(p, dir, tr);
    FaceCornerIsGridTransform(q, dir, T2.Invert(tr));
    T2.InvertIsInvolution(tr);
    T2.InvertUndoes(GridTransform(dir, tr), CornerCell(p), size);
    assert GridTransform(dir, T2.Invert(tr)) == T2.Invert(GridTransform(dir, tr));
    CellsAreDistinct(TransformFaceCorner(q, dir, T2.Invert(tr)), p);
  }

  /** The same for the edges. */
  lemma FaceEdgeInverse(p: FacePoint, dir: Direction3D, tr: T2.Transformation)
    ensures TransformFaceEdge(TransformFaceEdge(p, dir, tr), dir, T2.Invert(tr)) == p
  {
    var q := TransformFaceEdge(p, dir, tr);
    var size := Vector2i(3, 3);
    FaceEdgeIsGridTransform(p, dir, tr);
    FaceEdgeIsGridTransform(q, dir, T2.Invert(tr));
    T2.InvertIsInvolution(tr);
    T2.InvertUndoes(GridTransform(dir, tr), EdgeCell(p), size);
    assert GridTransform(dir, T2.Invert(tr)) == T2.Invert(GridTransform(dir, tr));
    CellsAreDistinct(TransformFaceEdge(q, dir, T2.Invert(tr)), p);
  }

  /** The untransformed face keeps every point, on every side. */
  lemma FaceIdentity(p: FacePoint, dir: Direction3D)
    ensures TransformFaceCorner(p, dir, T2.None) == p
    ensures TransformFaceEdge(p, dir, T2.None) == p
  {
  }

  // ---------------------------------------------------------------------
  // ApplyToFace

  /** Where a face lies along its own axis, on the cube from the origin to
      (1, 1, 1): 0 for a min face, 1 for a max face. */
  function SideValue(d: Direction3D): int
  {
    if IsMin(d) then 0 else 1
  }

  /** The position with the given components along the face's own axis
      and along its first and second axes (in GetAxes order). */
  function OnFace(d: Direction3D, main: int, a1: int, a2: int): (v: Vector3i)
    ensures v.Get(GetAxes(d).0) == main
    ensures v.Get(GetAxes(d).1) == a1
    ensures v.Get(GetAxes(d).2) == a2
  {
    var axes := GetAxes(d);
    Vector3i(0, 0, 0).With(axes.0, main).With(axes.1, a1).With(axes.2, a2)
  }

  /** The three axes of a face are all of them. */
  lemma AxesCover(d: Direction3D, k: nat)
    requires k < 3
    ensures k == GetAxes(d).0 || k == GetAxes(d).1 || k == GetAxes(d).2
  {
  }

  /** Two positions that agree along the three axes of a face are equal. */
  lemma EqualAlongAxes(d: Direction3D, u: Vector3i, v: Vector3i)
    requires u.Get(GetAxes(d).0) == v.Get(GetAxes(d).0)
    requires u.Get(GetAxes(d).1) == v.Get(GetAxes(d).1)
    requires u.Get(GetAxes(d).2) == v.Get(GetAxes(d).2)
    ensures u == v
  {
    AxesCover(d, 0);
    AxesCover(d, 1);
    AxesCover(d, 2);
    assert u.Get(0) == v.Get(0) && u.Get(1) == v.Get(1) && u.Get(2) == v.Get(2);
  }

  /** The corner positions of ApplyToFace, along the first and the second
      face axis (0 at the min side, 1 at the max side). */
  function CornerAxis1(p: FacePoint): int
  {
    match p
    case AA => 0
    case AB => 0
    case BA => 1
    case BB => 1
  }

  function CornerAxis2(p: FacePoint): int
  {
    match p
    case AA => 0
    case AB => 1
    case BA => 0
    case BB => 1
  }

  /** The edge positions of ApplyToFace on the doubled grid: 1 halfway
      along the edge, 0 or 2 at the min or max side. */
  function EdgeAxis1(p: FacePoint): int
  {
    match p
    case AA => 1
    case AB => 1
    case BA => 0
    case BB => 2
  }

  function EdgeAxis2(p: FacePoint): int
  {
    match p
    case AA => 0
    case AB => 2
    case BA => 1
    case BB => 1
  }

  /** The world position of a corner of the face on side d, in the cube
      from the origin to (1, 1, 1). */
  function CornerStart(d: Direction3D, p: FacePoint): Vector3i
  {
    OnFace(d, SideValue(d), CornerAxis1(p), CornerAxis2(p))
  }

  /** The world position of an edge of the face on side d, applied in the
      cube from the origin to (2, 2, 2). The face's own axis keeps the
      value 0 or 1 of the unit cube, as in the source. */
  function EdgeStart(d: Direction3D, p: FacePoint): Vector3i
  {
    OnFace(d, SideValue(d), EdgeAxis1(p), EdgeAxis2(p))
  }

  /** The corner of the face on side e that a transformed position is:
      min or max along each face axis. */
  function CornerPlaceOf(e: Direction3D, q: Vector3i): FacePoint
  {
    var axes := GetAxes(e);
    MakeCornerFacePoint(q.Get(axes.1) == 0, q.Get(axes.2) == 0)
  }

  /** The edge of the face on side e that a transformed position is: it
      is parallel to the first axis when halfway along it, and on the min
      side when it is 0 across the edge. */
  function EdgePlaceOf(e: Direction3D, q: Vector3i): FacePoint
  {
    var axes := GetAxes(e);
    var parallel := q.Get(axes.1) == 1;
    MakeEdgeFacePoint(parallel, q.Get(if parallel then axes.2 else axes.1) == 0)
  }

  /** Where ApplyToFace moves the ID of corner p and of edge p. */
  function CornerPlace(t: Transform3D, d: Direction3D, p: FacePoint): FacePoint
  {
    CornerPlaceOf(ApplyToSide(t, d), ApplyToPos(t, CornerStart(d, p), Cube(1)))
  }

  function EdgePlace(t: Transform3D, d: Direction3D, p: FacePoint): FacePoint
  {
    EdgePlaceOf(ApplyToSide(t, d), ApplyToPos(t, EdgeStart(d, p), Cube(2)))
  }

  /** The transform maps the face's own axis onto the new side's axis, and
      mirrors it exactly when the side changes between min and max. */
  lemma MainAxisLands(t: Transform3D, d: Direction3D)
    ensures TransformSigned(t).Src(GetAxisIndex(ApplyToSide(t, d))) == GetAxisIndex(d)
    ensures TransformSigned(t).Flip(GetAxisIndex(ApplyToSide(t, d))) == (IsMin(ApplyToSide(t, d)) != IsMin(d))
  {
    ApplyToSideIsGeometric(t, d);
    ApplyToPosIsSigned(t, FaceCentre(d), Cube(2));
    SignedMovesCentre(TransformSigned(t), d, ApplyToSide(t, d));
  }

  /** A signed permutation that moves the centre of face d to the centre
      of face e reads e's axis from d's axis, mirrored exactly when one is
      a min face and the other a max face. */
  lemma SignedMovesCentre(sp: SignedPerm, d: Direction3D, e: Direction3D)
    requires sp.Valid()
    requires ApplySigned(sp, FaceCentre(d), Cube(2)) == FaceCentre(e)
    ensures sp.Src(GetAxisIndex(e)) == GetAxisIndex(d)
    ensures sp.Flip(GetAxisIndex(e)) == (IsMin(e) != IsMin(d))
  {
    var k := GetAxisIndex(e);
    var c := FaceCentre(d);
    FaceCentreOnAxis(d);
    FaceCentreOnAxis(e);
    var s := sp.Src(k);
    assert FaceCentre(e).Get(k) == if sp.Flip(k) then 2 - c.Get(s) else c.Get(s);
    if s != GetAxisIndex(d) {
      FaceCentreOffAxis(d, s);
      assert false;
    }
  }

  /** Corner and edge start positions of a face lie in the cube from the
      origin to (1, 1, 1), and in the one to (2, 2, 2). */
  lemma StartsInBox(d: Direction3D, p: FacePoint)
    ensures InBox(CornerStart(d, p), Cube(1))
    ensures InBox(EdgeStart(d, p), Cube(2))
  {
    var c, e := CornerStart(d, p), EdgeStart(d, p);
    forall k | 0 <= k < 3
      ensures 0 <= c.Get(k) <= 1 && 0 <= e.Get(k) <= 2
    {
      AxesCover(d, k);
    }
    assert 0 <= c.Get(0) <= 1 && 0 <= c.Get(1) <= 1 && 0 <= c.Get(2) <= 1;
    assert 0 <= e.Get(0) <= 2 && 0 <= e.Get(1) <= 2 && 0 <= e.Get(2) <= 2;
  }

  /** A signed permutation that carries face d's axis onto face e's
      axis, mirrored exactly when one is a min face and the other a max
      face: what every transform does to a side (MainAxisLands). */
  predicate CarriesFace(sp: SignedPerm, d: Direction3D, e: Direction3D)
    requires sp.Valid()
  {
    sp.Src(GetAxisIndex(e)) == GetAxisIndex(d) && sp.Flip(GetAxisIndex(e)) == (IsMin(e) != IsMin(d))
  }

  /** A signed permutation keeps the cube from the origin to (m, m, m). */
  lemma SignedKeepsCube(sp: SignedPerm, p: Vector3i, m: int)
    requires sp.Valid() && InBox(p, Cube(m))
    ensures InBox(ApplySigned(sp, p, Cube(m)), Cube(m))
  {
    var q := ApplySigned(sp, p, Cube(m));
    forall k | 0 <= k < 3
      ensures 0 <= q.Get(k) <= m
    {
      var j := sp.Src(k);
      assert 0 <= p.Get(j) <= m by {
        assert j == 0 || j == 1 || j == 2;
      }
    }
    assert 0 <= q.Get(0) <= m && 0 <= q.Get(1) <= m && 0 <= q.Get(2) <= m;
  }

  /** A position of the unit cube on face e's plane is the start position
      of the corner it is placed at. */
  lemma CornerStartOfPlace(e: Direction3D, q: Vector3i)
    requires q.Get(GetAxes(e).0) == SideValue(e)
    requires 0 <= q.Get(GetAxes(e).1) <= 1 && 0 <= q.Get(GetAxes(e).2) <= 1
    ensures q == CornerStart(e, CornerPlaceOf(e, q))
  {
    EqualAlongAxes(e, q, CornerStart(e, CornerPlaceOf(e, q)));
  }

  /** A transformed corner lies on the plane of the new face. */
  lemma CornerMainAxis(sp: SignedPerm, d: Direction3D, e: Direction3D, p: FacePoint)
    requires sp.Valid() && CarriesFace(sp, d, e)
    ensures ApplySigned(sp, CornerStart(d, p), Cube(1)).Get(GetAxisIndex(e)) == SideValue(e)
  {
  }

  lemma CornerLandsSigned(sp: SignedPerm, d: Direction3D, e: Direction3D, p: FacePoint)
    requires sp.Valid() && CarriesFace(sp, d, e)
    ensures var q := ApplySigned(sp, CornerStart(d, p), Cube(1)); q == CornerStart(e, CornerPlaceOf(e, q))
  {
    var q := ApplySigned(sp, CornerStart(d, p), Cube(1));
    StartsInBox(d, p);
    SignedKeepsCube(sp, CornerStart(d, p), 1);
    CornerMainAxis(sp, d, e, p);
    CornerStartOfPlace(e, q);
  }

  /** Two coordinates of a middle of an edge of the 3 x 3 grid: one is 1
      and the other 0 or 2. */
  predicate MiddlePair(a: int, b: int)
  {
    (a == 1 && (b == 0 || b == 2)) || (b == 1 && (a == 0 || a == 2))
  }

  /** A middle of an edge of face e, along e's two face axes. */
  predicate IsEdgeMiddle(e: Direction3D, q: Vector3i)
  {
    MiddlePair(q.Get(GetAxes(e).1), q.Get(GetAxes(e).2))
  }

  lemma EdgeStartIsMiddle(d: Direction3D, p: FacePoint)
    ensures IsEdgeMiddle(d, EdgeStart(d, p))
  {
  }

  /** The edge a middle is placed at has its start position at that
      middle, along both face axes. */
  lemma EdgeStartOfPlace(e: Direction3D, q: Vector3i)
    requires IsEdgeMiddle(e, q)
    ensures EdgeStart(e, EdgePlaceOf(e, q)).Get(GetAxes(e).1) == q.Get(GetAxes(e).1)
    ensures EdgeStart(e, EdgePlaceOf(e, q)).Get(GetAxes(e).2) == q.Get(GetAxes(e).2)
  {
  }

  /** The other two axes of the new side read the other two axes of the
      old one. */
  lemma FaceAxesCarried(sp: SignedPerm, d: Direction3D, e: Direction3D)
    requires sp.Valid() && CarriesFace(sp, d, e)
    ensures sp.Src(GetAxes(e).1) != GetAxes(d).0 && sp.Src(GetAxes(e).2) != GetAxes(d).0
    ensures sp.Src(GetAxes(e).1) != sp.Src(GetAxes(e).2)
  {
  }

  /** Component k of a signed permutation's image in the doubled cube. */
  lemma SignedComponent2(sp: SignedPerm, p: Vector3i, k: nat)
    requires sp.Valid() && k < 3
    ensures ApplySigned(sp, p, Cube(2)).Get(k) == if sp.Flip(k) then 2 - p.Get(sp.Src(k)) else p.Get(sp.Src(k))
  {
  }

  /** Mirroring either coordinate inside the doubled cube keeps an edge middle. */
  lemma MiddlePairMirror(a: int, b: int, fa: bool, fb: bool)
    requires MiddlePair(a, b)
    ensures MiddlePair(if fa then 2 - a else a, if fb then 2 - b else b)
  {
  }

  /** A signed permutation carrying side d to side e carries edge middles of
      d's face to edge middles of e's face. */
  lemma SignedKeepsMiddle(sp: SignedPerm, d: Direction3D, e: Direction3D, p: Vector3i)
    requires sp.Valid() && CarriesFace(sp, d, e) && IsEdgeMiddle(d, p)
    ensures IsEdgeMiddle(e, ApplySigned(sp, p, Cube(2)))
  {
    var from, to := GetAxes(d), GetAxes(e);
    FaceAxesCarried(sp, d, e);
    var s1, s2 := sp.Src(to.1), sp.Src(to.2);
    AxesCover(d, s1);
    AxesCover(d, s2);
    assert MiddlePair(p.Get(s1), p.Get(s2)) by {
      if s1 == from.1 {
        assert s2 == from.2;
      } else {
        assert s1 == from.2 && s2 == from.1;
      }
    }
    SignedComponent2(sp, p, to.1);
    SignedComponent2(sp, p, to.2);
    MiddlePairMirror(p.Get(s1), p.Get(s2), sp.Flip(to.1), sp.Flip(to.2));
  }

  /** A transformed edge middle is an edge middle of the new face. */
  lemma EdgeStaysMiddle(sp: SignedPerm, d: Direction3D, e: Direction3D, p: FacePoint)
    requires sp.Valid() && CarriesFace(sp, d, e)
    ensures IsEdgeMiddle(e, ApplySigned(sp, EdgeStart(d, p), Cube(2)))
  {
    EdgeStartIsMiddle(d, p);
    SignedKeepsMiddle(sp, d, e, EdgeStart(d, p));
  }

  /** Along the new side's own axis, a transformed edge keeps the 0 or 1
      of its start, mirrored in the doubled cube. */
  lemma EdgeMainAxis(sp: SignedPerm, d: Direction3D, e: Direction3D, p: FacePoint)
    requires sp.Valid() && CarriesFace(sp, d, e)
    ensures var k := GetAxisIndex(e);
            ApplySigned(sp, EdgeStart(d, p), Cube(2)).Get(k) == if sp.Flip(k) then 2 - SideValue(d) else SideValue(d)
  {
  }

  // ---------------------------------------------------------------------
  // Where a transform moves each corner and edge of a face

  /** A transformed corner lands exactly on the corner of the new face that
      ApplyToFace places its ID at. */
  lemma CornerLandsOnStart(t: Transform3D, d: Direction3D, p: FacePoint)
    ensures ApplyToPos(t, CornerStart(d, p), Cube(1)) == CornerStart(ApplyToSide(t, d), CornerPlace(t, d, p))
  {
    MainAxisLands(t, d);
    ApplyToPosIsSigned(t, CornerStart(d, p), Cube(1));
    CornerLandsSigned(TransformSigned(t), d, ApplyToSide(t, d), p);
  }

  /** Two positions that agree along the two axes of face e. */
  predicate SameOnFace(e: Direction3D, a: Vector3i, b: Vector3i)
  {
    a.Get(GetAxes(e).1) == b.Get(GetAxes(e).1) && a.Get(GetAxes(e).2) == b.Get(GetAxes(e).2)
  }

  /** A transformed edge lands, along the new face's two axes, on the edge
      of the new face that ApplyToFace places its ID at. */
  lemma EdgeLandsOnStart(t: Transform3D, d: Direction3D, p: FacePoint)
    ensures SameOnFace(ApplyToSide(t, d), ApplyToPos(t, EdgeStart(d, p), Cube(2)),
                       EdgeStart(ApplyToSide(t, d), EdgePlace(t, d, p)))
  {
    var e, sp := ApplyToSide(t, d), TransformSigned(t);
    MainAxisLands(t, d);
    ApplyToPosIsSigned(t, EdgeStart(d, p), Cube(2));
    EdgeStaysMiddle(sp, d, e, p);
    EdgeStartOfPlace(e, ApplySigned(sp, EdgeStart(d, p), Cube(2)));
  }

  /** Reading back the start position of a corner or an edge gives that
      corner or edge. */
  lemma StartPlaceRoundTrip(d: Direction3D, p: FacePoint)
    ensures CornerPlaceOf(d, CornerStart(d, p)) == p
    ensures EdgePlaceOf(d, EdgeStart(d, p)) == p
  {
  }

  /** No two corners of a face are moved to the same place. */
  lemma CornerPlaceInjective(t: Transform3D, d: Direction3D, p1: FacePoint, p2: FacePoint)
    requires CornerPlace(t, d, p1) == CornerPlace(t, d, p2)
    ensures p1 == p2
  {
    CornerLandsOnStart(t, d, p1);
    CornerLandsOnStart(t, d, p2);
    ApplyToPosIsSigned(t, CornerStart(d, p1), Cube(1));
    ApplyToPosIsSigned(t, CornerStart(d, p2), Cube(1));
    SignedInjective(TransformSigned(t), CornerStart(d, p1), CornerStart(d, p2), Cube(1));
    StartPlaceRoundTrip(d, p1);
    StartPlaceRoundTrip(d, p2);
  }

  /** No two edges of a face are moved to the same place. */
  lemma EdgePlaceInjective(t: Transform3D, d: Direction3D, p1: FacePoint, p2: FacePoint)
    requires EdgePlace(t, d, p1) == EdgePlace(t, d, p2)
    ensures p1 == p2
  {
    var e, sp := ApplyToSide(t, d), TransformSigned(t);
    var q1, q2 := ApplyToPos(t, EdgeStart(d, p1), Cube(2)), ApplyToPos(t, EdgeStart(d, p2), Cube(2));
    EdgeLandsOnStart(t, d, p1);
    EdgeLandsOnStart(t, d, p2);
    MainAxisLands(t, d);
    ApplyToPosIsSigned(t, EdgeStart(d, p1), Cube(2));
    ApplyToPosIsSigned(t, EdgeStart(d, p2), Cube(2));
    EdgeMainAxis(sp, d, e, p1);
    EdgeMainAxis(sp, d, e, p2);
    EqualAlongAxes(e, q1, q2);
    SignedInjective(sp, EdgeStart(d, p1), EdgeStart(d, p2), Cube(2));
    StartPlaceRoundTrip(d, p1);
    StartPlaceRoundTrip(d, p2);
  }

  /** The inverse transform moves the new side back to the old one. */
  lemma SideRoundTrip(t: Transform3D, d: Direction3D)
    ensures ApplyToSide(Inverse(t), ApplyToSide(t, d)) == d
  {
    var e := ApplyToSide(t, d);
    ApplyToSideIsGeometric(t, d);
    ApplyToSideIsGeometric(Inverse(t), e);
    InverseUndoes(t, FaceCentre(d), 2);
    FaceCentreSide(d);
    FaceCentreSide(ApplyToSide(Inverse(t), e));
  }

  /** The inverse transform moves every corner back where it came from. */
  lemma CornerPlaceRoundTrip(t: Transform3D, d: Direction3D, p: FacePoint)
    ensures CornerPlace(Inverse(t), ApplyToSide(t, d), CornerPlace(t, d, p)) == p
  {
    var e, q := ApplyToSide(t, d), CornerPlace(t, d, p);
    var r := CornerPlace(Inverse(t), e, q);
    CornerLandsOnStart(t, d, p);
    CornerLandsOnStart(Inverse(t), e, q);
    SideRoundTrip(t, d);
    InverseUndoes(t, CornerStart(d, p), 1);
    StartPlaceRoundTrip(d, p);
    StartPlaceRoundTrip(d, r);
  }

  /** A signed permutation carrying face e onto face d sends positions that
      agree along e's axes to positions that agree along d's axes. */
  lemma SignedKeepsSameOnFace(sp: SignedPerm, e: Direction3D, d: Direction3D, a: Vector3i, b: Vector3i)
    requires sp.Valid() && CarriesFace(sp, e, d) && SameOnFace(e, a, b)
    ensures SameOnFace(d, ApplySigned(sp, a, Cube(2)), ApplySigned(sp, b, Cube(2)))
  {
    var to := GetAxes(d);
    FaceAxesCarried(sp, e, d);
    AxesCover(e, sp.Src(to.1));
    AxesCover(e, sp.Src(to.2));
    SignedComponent2(sp, a, to.1);
    SignedComponent2(sp, a, to.2);
    SignedComponent2(sp, b, to.1);
    SignedComponent2(sp, b, to.2);
  }

  /** The edge a position is placed at depends only on its face coordinates. */
  lemma EdgePlaceOfFace(e: Direction3D, a: Vector3i, b: Vector3i)
    requires SameOnFace(e, a, b)
    ensures EdgePlaceOf(e, a) == EdgePlaceOf(e, b)
  {
  }

  /** The inverse transform moves every edge back where it came from. */
  lemma EdgePlaceRoundTrip(t: Transform3D, d: Direction3D, p: FacePoint)
    ensures EdgePlace(Inverse(t), ApplyToSide(t, d), EdgePlace(t, d, p)) == p
  {
    var e, q := ApplyToSide(t, d), EdgePlace(t, d, p);
    var w := ApplyToPos(t, EdgeStart(d, p), Cube(2));
    EdgeLandsOnStart(t, d, p);
    SideRoundTrip(t, d);
    MainAxisLands(Inverse(t), e);
    ApplyToPosIsSigned(Inverse(t), w, Cube(2));
    ApplyToPosIsSigned(Inverse(t), EdgeStart(e, q), Cube(2));
    SignedKeepsSameOnFace(TransformSigned(Inverse(t)), e, d, w, EdgeStart(e, q));
    InverseUndoes(t, EdgeStart(d, p), 2);
    EdgePlaceOfFace(d, EdgeStart(d, p), ApplyToPos(Inverse(t), EdgeStart(e, q), Cube(2)));
    StartPlaceRoundTrip(d, p);
  }

  // ---------------------------------------------------------------------
  // ApplyToFace and ApplyToCube

  /** Where ApplyToFace moves the ID of corner p (when `corners`) or of edge p. */
  function Place(t: Transform3D, d: Direction3D, corners: bool, p: FacePoint): FacePoint
  {
    if corners then CornerPlace(t, d, p) else EdgePlace(t, d, p)
  }

  lemma PlaceInjective(t: Transform3D, d: Direction3D, corners: bool, p1: FacePoint, p2: FacePoint)
    requires Place(t, d, corners, p1) == Place(t, d, corners, p2)
    ensures p1 == p2
  {
    if corners {
      CornerPlaceInjective(t, d, p1, p2);
    } else {
      EdgePlaceInjective(t, d, p1, p2);
    }
  }

  lemma PlaceRoundTrip(t: Transform3D, d: Direction3D, corners: bool, p: FacePoint)
    ensures Place(Inverse(t), ApplyToSide(t, d), corners, Place(t, d, corners, p)) == p
  {
    if corners {
      CornerPlaceRoundTrip(t, d, p);
    } else {
      EdgePlaceRoundTrip(t, d, p);
    }
  }

  /** Every place of the new face receives some point of the old one: the
      one the inverse transform moves that place to. */
  lemma PlaceOnto(t: Transform3D, d: Direction3D, corners: bool, q: FacePoint)
    ensures Place(t, d, corners, Place(Inverse(t), ApplyToSide(t, d), corners, q)) == q
  {
    var e := ApplyToSide(t, d);
    PlaceRoundTrip(Inverse(t), e, corners, q);
    InverseIsInvolution(t);
    SideRoundTrip(t, d);
  }

  /** The new IDs once the first n of the four old ones are in place; the
      slots start at the zeros of a default FaceIdentifiers. */
  function Scatter(t: Transform3D, d: Direction3D, corners: bool, ids: PointIDs, n: nat): PointIDs
    requires n <= 4
  {
    if n == 0 then [0, 0, 0, 0]
    else Scatter(t, d, corners, ids, n - 1)[PointOrdinal(Place(t, d, corners, PointFromOrdinal(n - 1))) := ids[n - 1]]
  }

  /** Once the first n IDs are in place, each of them sits at its place. */
  lemma {:induction false} ScatterPlaces(t: Transform3D, d: Direction3D, corners: bool, ids: PointIDs, n: nat, i: nat)
    requires i < n <= 4
    ensures Scatter(t, d, corners, ids, n)[PointOrdinal(Place(t, d, corners, PointFromOrdinal(i)))] == ids[i]
  {
    if i < n - 1 {
      ScatterPlaces(t, d, corners, ids, n - 1, i);
      var a, b := PointFromOrdinal(i), PointFromOrdinal(n - 1);
      if Place(t, d, corners, a) == Place(t, d, corners, b) {
        PlaceInjective(t, d, corners, a, b);
        assert false;
      }
    }
  }

  /** FacePermutation Transform3D::ApplyToFace: the face moves to the
      transformed side and each corner and edge ID moves to the place its
      transformed position lands on. */
  function ApplyToFace(t: Transform3D, face: FacePermutation): FacePermutation
  {
    var d := face.Side;
    FacePermutation(ApplyToSide(t, d),
                    FaceIdentifiers(Scatter(t, d, true, face.Points.Corners, 4),
                                    Scatter(t, d, false, face.Points.Edges, 4)))
  }

  /** The ID at every place of the new face is that of the one old point
      moved there: ApplyToFace permutes the corner IDs and the edge IDs. */
  lemma ApplyToFacePermutes(t: Transform3D, face: FacePermutation, p: FacePoint)
    ensures ApplyToFace(t, face).Side == ApplyToSide(t, face.Side)
    ensures ApplyToFace(t, face).Points.Corners[PointOrdinal(CornerPlace(t, face.Side, p))] == face.Points.Corners[PointOrdinal(p)]
    ensures ApplyToFace(t, face).Points.Edges[PointOrdinal(EdgePlace(t, face.Side, p))] == face.Points.Edges[PointOrdinal(p)]
  {
    var i := PointOrdinal(p);
    assert PointFromOrdinal(i) == p;
    ScatterPlaces(t, face.Side, true, face.Points.Corners, 4, i);
    ScatterPlaces(t, face.Side, false, face.Points.Edges, 4, i);
  }

  /** Every slot of the new face is filled: it holds the ID of the point
      the inverse transform moves it back to, never a leftover zero. */
  lemma ApplyToFaceSlots(t: Transform3D, face: FacePermutation, q: FacePoint)
    ensures ApplyToFace(t, face).Points.Corners[PointOrdinal(q)]
         == face.Points.Corners[PointOrdinal(CornerPlace(Inverse(t), ApplyToSide(t, face.Side), q))]
    ensures ApplyToFace(t, face).Points.Edges[PointOrdinal(q)]
         == face.Points.Edges[PointOrdinal(EdgePlace(Inverse(t), ApplyToSide(t, face.Side), q))]
  {
    var e := ApplyToSide(t, face.Side);
    PlaceOnto(t, face.Side, true, q);
    PlaceOnto(t, face.Side, false, q);
    ApplyToFacePermutes(t, face, CornerPlace(Inverse(t), e, q));
    ApplyToFacePermutes(t, face, EdgePlace(Inverse(t), e, q));
  }

  /** The identity transform leaves a face as it is. */
  lemma ApplyToFaceIdentity(face: FacePermutation)
    ensures ApplyToFace(Identity, face) == face
  {
    var r := ApplyToFace(Identity, face);
    ApplyToSideBasics(face.Side);
    forall i | 0 <= i < 4
      ensures r.Points.Corners[i] == face.Points.Corners[i] && r.Points.Edges[i] == face.Points.Edges[i]
    {
      var p := PointFromOrdinal(i);
      StartPlaceRoundTrip(face.Side, p);
      ApplyToFacePermutes(Identity, face, p);
    }
    assert r.Points.Corners == face.Points.Corners;
    assert r.Points.Edges == face.Points.Edges;
  }

  /** The inverse transform undoes ApplyToFace. */
  lemma ApplyToFaceRoundTrip(t: Transform3D, face: FacePermutation)
    ensures ApplyToFace(Inverse(t), ApplyToFace(t, face)) == face
  {
    var d := face.Side;
    var mid := ApplyToFace(t, face);
    var back := ApplyToFace(Inverse(t), mid);
    SideRoundTrip(t, d);
    forall i | 0 <= i < 4
      ensures back.Points.Corners[i] == face.Points.Corners[i]
      ensures back.Points.Edges[i] == face.Points.Edges[i]
    {
      var p := PointFromOrdinal(i);
      ApplyToFacePermutes(t, face, p);
      ApplyToFacePermutes(Inverse(t), mid, CornerPlace(t, d, p));
      ApplyToFacePermutes(Inverse(t), mid, EdgePlace(t, d, p));
      CornerPlaceRoundTrip(t, d, p);
      EdgePlaceRoundTrip(t, d, p);
    }
    assert back.Points.Corners == face.Points.Corners;
    assert back.Points.Edges == face.Points.Edges;
  }

  /** The first half of ApplyToFace: the start positions of the face's
      corners and edges, transformed in the cubes to (1, 1, 1) and to
      (2, 2, 2). */
  method TransformedStarts(t: Transform3D, d: Direction3D) returns (corners: seq<Vector3i>, edges: seq<Vector3i>)
    ensures |corners| == 4 && |edges| == 4
    ensures forall k :: 0 <= k < 4 ==> corners[k] == ApplyToPos(t, CornerStart(d, PointFromOrdinal(k)), Cube(1))
    ensures forall k :: 0 <= k < 4 ==> edges[k] == ApplyToPos(t, EdgeStart(d, PointFromOrdinal(k)), Cube(2))
  {
    var newCornerPoses := new Vector3i[4];
    var newEdgePoses := new Vector3i[4];
    for i := 0 to 4
      invariant forall k :: 0 <= k < i ==> newCornerPoses[k] == ApplyToPos(t, CornerStart(d, PointFromOrdinal(k)), Cube(1))
      invariant forall k :: 0 <= k < i ==> newEdgePoses[k] == ApplyToPos(t, EdgeStart(d, PointFromOrdinal(k)), Cube(2))
    {
      newCornerPoses[i] := ApplyToPos(t, CornerStart(d, PointFromOrdinal(i)), Cube(1));
      newEdgePoses[i] := ApplyToPos(t, EdgeStart(d, PointFromOrdinal(i)), Cube(2));
    }
    corners, edges := newCornerPoses[..], newEdgePoses[..];
  }

  /** The corner loop of ApplyToFace: each old corner ID is copied to the
      corner its transformed position marks as min or max along the new
      face's axes. */
  method PlaceCornerIDs(t: Transform3D, d: Direction3D, poses: seq<Vector3i>, ids: PointIDs) returns (r: PointIDs)
    requires |poses| == 4
    requires forall k :: 0 <= k < 4 ==> poses[k] == ApplyToPos(t, CornerStart(d, PointFromOrdinal(k)), Cube(1))
    ensures r == Scatter(t, d, true, ids, 4)
  {
    var axesNew := GetAxes(ApplyToSide(t, d));
    var newCorners := new nat[4](_ => 0);
    for cornerI := 0 to 4
      invariant newCorners[..] == Scatter(t, d, true, ids, cornerI)
    {
      var worldPos := poses[cornerI];
      var place := MakeCornerFacePoint(worldPos.Get(axesNew.1) == 0, worldPos.Get(axesNew.2) == 0);
      assert place == Place(t, d, true, PointFromOrdinal(cornerI));
      newCorners[PointOrdinal(place)] := ids[cornerI];
    }
    r := newCorners[..];
  }

  /** The edge loop of ApplyToFace: an edge whose transformed position is
      halfway along the new first axis is parallel to it, and it is a min
      edge when it is 0 across its length. */
  method PlaceEdgeIDs(t: Transform3D, d: Direction3D, poses: seq<Vector3i>, ids: PointIDs) returns (r: PointIDs)
    requires |poses| == 4
    requires forall k :: 0 <= k < 4 ==> poses[k] == ApplyToPos(t, EdgeStart(d, PointFromOrdinal(k)), Cube(2))
    ensures r == Scatter(t, d, false, ids, 4)
  {
    var axesNew := GetAxes(ApplyToSide(t, d));
    var newEdges := new nat[4](_ => 0);
    for edgeI := 0 to 4
      invariant newEdges[..] == Scatter(t, d, false, ids, edgeI)
    {
      var worldPos := poses[edgeI];
      var isParallelToAxis1 := worldPos.Get(axesNew.1) == 1;
      var isMinEdge := worldPos.Get(if isParallelToAxis1 then axesNew.2 else axesNew.1) == 0;
      var place := MakeEdgeFacePoint(isParallelToAxis1, isMinEdge);
      assert place == Place(t, d, false, PointFromOrdinal(edgeI));
      newEdges[PointOrdinal(place)] := ids[edgeI];
    }
    r := newEdges[..];
  }

  /** ApplyToFace as the source computes it. */
  method ComputeApplyToFace(t: Transform3D, face: FacePermutation) returns (r: FacePermutation)
    ensures r == ApplyToFace(t, face)
  {
    var cornerPoses, edgePoses := TransformedStarts(t, face.Side);
    var corners := PlaceCornerIDs(t, face.Side, cornerPoses, face.Points.Corners);
    var edges := PlaceEdgeIDs(t, face.Side, edgePoses, face.Points.Edges);
    r := FacePermutation(ApplyToSide(t, face.Side), FaceIdentifiers(corners, edges));
  }

  /** CubePermutation Transform3D::ApplyToCube: each face, in its slot. */
  function ApplyToCube(t: Transform3D, cube: CubePermutation): CubePermutation
  {
    CubePermutation(seq(|cube.Faces|, i requires 0 <= i < |cube.Faces| => ApplyToFace(t, cube.Faces[i])))
  }

  /** The loop of the source, replacing each face of a copy of the cube. */
  method ComputeApplyToCube(t: Transform3D, cube: CubePermutation) returns (r: CubePermutation)
    ensures r == ApplyToCube(t, cube)
  {
    var faces := cube.Faces;
    for i := 0 to |faces|
      invariant |faces| == |cube.Faces|
      invariant forall k :: 0 <= k < i ==> faces[k] == ApplyToFace(t, cube.Faces[k])
      invariant forall k :: i <= k < |faces| ==> faces[k] == cube.Faces[k]
    {
      var face := ComputeApplyToFace(t, faces[i]);
      faces := faces[i := face];
    }
    r := CubePermutation(faces);
  }

  /** ApplyToCube keeps a cube of six faces, and the inverse undoes it. */
  lemma ApplyToCubeRoundTrip(t: Transform3D, cube: CubePermutation)
    ensures IsCube(ApplyToCube(t, cube)) == IsCube(cube)
    ensures ApplyToCube(Inverse(t), ApplyToCube(t, cube)) == cube
  {
    var back := ApplyToCube(Inverse(t), ApplyToCube(t, cube));
    forall i | 0 <= i < |cube.Faces|
      ensures back.Faces[i] == cube.Faces[i]
    {
      ApplyToFaceRoundTrip(t, cube.Faces[i]);
    }
    assert back.Faces == cube.Faces;
  }

  /** Looking up the transformed side in the transformed cube finds the
      face that was on the original side: the index GetFace answers is
      kept. */
  lemma {:induction false} ApplyToCubeKeepsFaceIndex(t: Transform3D, cube: CubePermutation, side: Direction3D, from: nat)
    requires from <= |cube.Faces|
    ensures FindFace(ApplyToCube(t, cube).Faces, ApplyToSide(t, side), from) == FindFace(cube.Faces, side, from)
    decreases |cube.Faces| - from
  {
    var moved := ApplyToCube(t, cube).Faces;
    if from < |cube.Faces| && cube.Faces[from].Side != side {
      assert moved[from].Side == ApplyToSide(t, cube.Faces[from].Side);
      if moved[from].Side == ApplyToSide(t, side) {
        ApplyToSideInjective(t, cube.Faces[from].Side, side);
      }
      ApplyToCubeKeepsFaceIndex(t, cube, side, from + 1);
    }
  }
}
