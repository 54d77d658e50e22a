/** Composing cube transforms (Tiled3D/Transform3D.cpp): Transform3D::Then,
    CombineRotations and the cache of all 48 x 48 answers, which deduces
    each composite from where it sends the eight corners of the unit
    cube. */
module TransformCompose {
  import opened Vectors
  import opened Faces3D
  import opened CubeTransforms

  // ---------------------------------------------------------------------
  // Signed permutations: composition and the way back to a transform

  /** `a` first, then `b`: output axis k of b reads b.Src(k) of a's output,
      which reads a.Src(b.Src(k)) of the input; it is mirrored by b or by
      a, but not both. */
  function Compose(a: SignedPerm, b: SignedPerm): (c: SignedPerm)
    requires a.Valid() && b.Valid()
    ensures c.Valid()
  {
    SignedPerm(a.Src(b.s0), a.Src(b.s1), a.Src(b.s2),
               b.f0 != a.Flip(b.s0), b.f1 != a.Flip(b.s1), b.f2 != a.Flip(b.s2))
  }

  lemma ComposeParts(a: SignedPerm, b: SignedPerm, k: nat)
    requires a.Valid() && b.Valid() && k < 3
    ensures Compose(a, b).Src(k) == a.Src(b.Src(k))
    ensures Compose(a, b).Flip(k) == (b.Flip(k) != a.Flip(b.Src(k)))
  {
  }

  /** Component k after applying a and then b: b's mirror of a's mirror
      of the input axis a.Src(b.Src(k)). */
  lemma TwoStepComponent(a: SignedPerm, b: SignedPerm, p: Vector3i, m: int, k: nat)
    requires a.Valid() && b.Valid() && k < 3
    ensures var j := b.Src(k);
            var v := if a.Flip(j) then m - p.Get(a.Src(j)) else p.Get(a.Src(j));
            ApplySigned(b, ApplySigned(a, p, Cube(m)), Cube(m)).Get(k) == if b.Flip(k) then m - v else v
  {
    var j := b.Src(k);
    assert j < 3;
  }

  /** Component k of the composition, which is the same value. */
  lemma ComposedComponent(a: SignedPerm, b: SignedPerm, p: Vector3i, m: int, k: nat)
    requires a.Valid() && b.Valid() && k < 3
    ensures var j := b.Src(k);
            var v := if a.Flip(j) then m - p.Get(a.Src(j)) else p.Get(a.Src(j));
            ApplySigned(Compose(a, b), p, Cube(m)).Get(k) == if b.Flip(k) then m - v else v
  {
    ComposeParts(a, b, k);
  }

  lemma ComposeComponent(a: SignedPerm, b: SignedPerm, p: Vector3i, m: int, k: nat)
    requires a.Valid() && b.Valid() && k < 3
    ensures ApplySigned(b, ApplySigned(a, p, Cube(m)), Cube(m)).Get(k) == ApplySigned(Compose(a, b), p, Cube(m)).Get(k)
  {
    TwoStepComponent(a, b, p, m, k);
    ComposedComponent(a, b, p, m, k);
  }

  /** Applying the composition in the cube to (m, m, m) is applying a and
      then b. */
  lemma ComposeApplies(a: SignedPerm, b: SignedPerm, p: Vector3i, m: int)
    requires a.Valid() && b.Valid()
    ensures ApplySigned(b, ApplySigned(a, p, Cube(m)), Cube(m)) == ApplySigned(Compose(a, b), p, Cube(m))
  {
    ComposeComponent(a, b, p, m, 0);
    ComposeComponent(a, b, p, m, 1);
    ComposeComponent(a, b, p, m, 2);
  }

  /** The proper rotation with a given signed permutation, read off the
      table of RotSigned by permutation and then by the first two flips
      (the third follows from the orientation). */
  function ProperRot(sp: SignedPerm): Rotations3D
  {
    if sp.s0 == 0 && sp.s1 == 1 then
      (if !sp.f0 then (if !sp.f1 then None else AxisX_180) else (if !sp.f1 then AxisY_180 else AxisZ_180))
    else if sp.s0 == 0 then
      (if !sp.f0 then (if sp.f1 then AxisX_90 else AxisX_270) else (if !sp.f1 then EdgesXa else EdgesXb))
    else if sp.s0 == 2 && sp.s1 == 1 then
      (if !sp.f1 then (if !sp.f0 then AxisY_90 else AxisY_270) else (if !sp.f0 then EdgesYa else EdgesYb))
    else if sp.s0 == 1 && sp.s1 == 0 then
      (if sp.f0 != sp.f1 then (if sp.f0 then AxisZ_90 else AxisZ_270) else (if !sp.f0 then EdgesZa else EdgesZb))
    else if sp.s0 == 1 then
      (if !sp.f0 then (if !sp.f1 then CornerAAA_120 else CornerBBA_120) else (if sp.f1 then CornerABA_240 else CornerBAA_240))
    else
      (if !sp.f0 then (if !sp.f1 then CornerAAA_240 else CornerABA_120) else (if sp.f1 then CornerBAA_120 else CornerBBA_240))
  }

  /** Every flag of a signed permutation toggled: the inversion. */
  function Mirrored(sp: SignedPerm): SignedPerm
  {
    SignedPerm(sp.s0, sp.s1, sp.s2, !sp.f0, !sp.f1, !sp.f2)
  }

  /** The transform whose signed permutation is sp: a rotation when sp
      keeps orientation, otherwise the inversion of the rotation of the
      mirrored permutation. */
  function FromSigned(sp: SignedPerm): Transform3D
    requires sp.Valid()
  {
    if sp.Orientation() == 1 then Transform3D(false, ProperRot(sp))
    else Transform3D(true, ProperRot(Mirrored(sp)))
  }

  lemma ProperRotOfRot(r: Rotations3D)
    ensures ProperRot(RotSigned(r)) == r
  {
    match r
    case None =>
    case AxisX_90 =>
    case AxisX_180 =>
    case AxisX_270 =>
    case AxisY_90 =>
    case AxisY_180 =>
    case AxisY_270 =>
    case AxisZ_90 =>
    case AxisZ_180 =>
    case AxisZ_270 =>
    case EdgesXa =>
    case EdgesXb =>
    case EdgesYa =>
    case EdgesYb =>
    case EdgesZa =>
    case EdgesZb =>
    case CornerAAA_120 =>
    case CornerAAA_240 =>
    case CornerABA_120 =>
    case CornerABA_240 =>
    case CornerBAA_120 =>
    case CornerBAA_240 =>
    case CornerBBA_120 =>
    case CornerBBA_240 =>
  }

  /** Every transform is recovered from its signed permutation. */
  lemma FromSignedOfTransform(t: Transform3D)
    ensures FromSigned(TransformSigned(t)) == t
  {
    RotationsAreProper(t);
    ProperRotOfRot(t.Rot);
    if t.Invert {
      assert Mirrored(TransformSigned(t)) == RotSigned(t.Rot);
    }
  }

  /** Two transforms with the same signed permutation are equal. */
  lemma TransformSignedInjective(a: Transform3D, b: Transform3D)
    requires TransformSigned(a) == TransformSigned(b)
    ensures a == b
  {
    FromSignedOfTransform(a);
    FromSignedOfTransform(b);
  }

  /** Each proper signed permutation of one axis arrangement is the
      signed permutation of the rotation ProperRot picks. */
  lemma ProperRotSignedOf(sp: SignedPerm)
    requires sp.Valid() && sp.Orientation() == 1
    ensures RotSigned(ProperRot(sp)) == sp
  {
    if sp.s0 == 0 && sp.s1 == 1 {
      assert sp.s2 == 2;
    } else if sp.s0 == 0 {
      assert sp.s1 == 2 && sp.s2 == 1;
    } else if sp.s0 == 2 && sp.s1 == 1 {
      assert sp.s2 == 0;
    } else if sp.s0 == 1 && sp.s1 == 0 {
      assert sp.s2 == 2;
    } else if sp.s0 == 1 {
      assert sp.s1 == 2 && sp.s2 == 0;
    } else {
      assert sp.s0 == 2 && sp.s1 == 0 && sp.s2 == 1;
    }
  }

  lemma MirroredOrientation(sp: SignedPerm)
    requires sp.Valid()
    ensures Mirrored(sp).Valid() && Mirrored(sp).Orientation() == -sp.Orientation()
  {
  }

  /** Every one of the 48 signed permutations of the axes is the signed
      permutation of a transform. */
  lemma FromSignedIsOnto(sp: SignedPerm)
    requires sp.Valid()
    ensures TransformSigned(FromSigned(sp)) == sp
  {
    MirroredOrientation(sp);
    if sp.Orientation() == 1 {
      ProperRotSignedOf(sp);
    } else {
      assert sp.Orientation() == -1 by {
        assert PermutationSign(sp.s0, sp.s1, sp.s2) == 1 || PermutationSign(sp.s0, sp.s1, sp.s2) == -1;
      }
      ProperRotSignedOf(Mirrored(sp));
    }
  }

  // ---------------------------------------------------------------------
  // Transform3D::Then

  /** `a.Then(b)`: the transform that applies a and then b. */
  function Then(a: Transform3D, b: Transform3D): Transform3D
  {
    FromSigned(Compose(TransformSigned(a), TransformSigned(b)))
  }

  /** Then applies the first transform and then the second, in any cube
      from the origin to (m, m, m). */
  lemma ThenApplies(a: Transform3D, b: Transform3D, p: Vector3i, m: int)
    ensures ApplyToPos(Then(a, b), p, Cube(m)) == ApplyToPos(b, ApplyToPos(a, p, Cube(m)), Cube(m))
  {
    var sa, sb := TransformSigned(a), TransformSigned(b);
    FromSignedIsOnto(Compose(sa, sb));
    ApplyToPosIsSigned(Then(a, b), p, Cube(m));
    ApplyToPosIsSigned(a, p, Cube(m));
    ApplyToPosIsSigned(b, ApplyToPos(a, p, Cube(m)), Cube(m));
    ComposeApplies(sa, sb, p, m);
  }

  /** The corners of the unit cube that pin a transform down: the origin
      and the far end of each axis. */
  const Origin: Vector3i := Vector3i(0, 0, 0)
  const UnitX: Vector3i := Vector3i(1, 0, 0)
  const UnitY: Vector3i := Vector3i(0, 1, 0)
  const UnitZ: Vector3i := Vector3i(0, 0, 1)

  /** Output axis k of the image of the origin is 1 exactly when k is
      mirrored; of the image of the far end of axis j, exactly when k reads
      j or is mirrored, but not both. */
  lemma UnitCornerComponents(sp: SignedPerm, k: nat)
    requires sp.Valid() && k < 3
    ensures ApplySigned(sp, Origin, Cube(1)).Get(k) == if sp.Flip(k) then 1 else 0
    ensures ApplySigned(sp, UnitX, Cube(1)).Get(k) == if (sp.Src(k) == 0) != sp.Flip(k) then 1 else 0
    ensures ApplySigned(sp, UnitY, Cube(1)).Get(k) == if (sp.Src(k) == 1) != sp.Flip(k) then 1 else 0
    ensures ApplySigned(sp, UnitZ, Cube(1)).Get(k) == if (sp.Src(k) == 2) != sp.Flip(k) then 1 else 0
  {
    var j := sp.Src(k);
    assert j == 0 || j == 1 || j == 2;
  }

  /** The signed permutation is fixed by where it sends four corners of the
      unit cube. */
  lemma SignedByCorners(x: SignedPerm, y: SignedPerm)
    requires x.Valid() && y.Valid()
    requires ApplySigned(x, Origin, Cube(1)) == ApplySigned(y, Origin, Cube(1))
    requires ApplySigned(x, UnitX, Cube(1)) == ApplySigned(y, UnitX, Cube(1))
    requires ApplySigned(x, UnitY, Cube(1)) == ApplySigned(y, UnitY, Cube(1))
    requires ApplySigned(x, UnitZ, Cube(1)) == ApplySigned(y, UnitZ, Cube(1))
    ensures x == y
  {
    forall k | 0 <= k < 3
      ensures x.Src(k) == y.Src(k) && x.Flip(k) == y.Flip(k)
    {
      UnitCornerComponents(x, k);
      UnitCornerComponents(y, k);
      assert x.Src(k) < 3 && y.Src(k) < 3;
    }
    assert x.Src(0) == y.Src(0) && x.Src(1) == y.Src(1) && x.Src(2) == y.Src(2);
    assert x.Flip(0) == y.Flip(0) && x.Flip(1) == y.Flip(1) && x.Flip(2) == y.Flip(2);
  }

  /** Two transforms that agree on those four corners are equal. */
  lemma TransformByCorners(a: Transform3D, b: Transform3D)
    requires ApplyToPos(a, Origin, Cube(1)) == ApplyToPos(b, Origin, Cube(1))
    requires ApplyToPos(a, UnitX, Cube(1)) == ApplyToPos(b, UnitX, Cube(1))
    requires ApplyToPos(a, UnitY, Cube(1)) == ApplyToPos(b, UnitY, Cube(1))
    requires ApplyToPos(a, UnitZ, Cube(1)) == ApplyToPos(b, UnitZ, Cube(1))
    ensures a == b
  {
    ApplyToPosIsSigned(a, Origin, Cube(1));
    ApplyToPosIsSigned(b, Origin, Cube(1));
    ApplyToPosIsSigned(a, UnitX, Cube(1));
    ApplyToPosIsSigned(b, UnitX, Cube(1));
    ApplyToPosIsSigned(a, UnitY, Cube(1));
    ApplyToPosIsSigned(b, UnitY, Cube(1));
    ApplyToPosIsSigned(a, UnitZ, Cube(1));
    ApplyToPosIsSigned(b, UnitZ, Cube(1));
    SignedByCorners(TransformSigned(a), TransformSigned(b));
    TransformSignedInjective(a, b);
  }

  /** Then is well defined: the one transform that does what a and then b
      do to the corners of the unit cube. */
  lemma ThenIsUnique(a: Transform3D, b: Transform3D, t: Transform3D)
    requires ApplyToPos(t, Origin, Cube(1)) == ApplyToPos(b, ApplyToPos(a, Origin, Cube(1)), Cube(1))
    requires ApplyToPos(t, UnitX, Cube(1)) == ApplyToPos(b, ApplyToPos(a, UnitX, Cube(1)), Cube(1))
    requires ApplyToPos(t, UnitY, Cube(1)) == ApplyToPos(b, ApplyToPos(a, UnitY, Cube(1)), Cube(1))
    requires ApplyToPos(t, UnitZ, Cube(1)) == ApplyToPos(b, ApplyToPos(a, UnitZ, Cube(1)), Cube(1))
    ensures t == Then(a, b)
  {
    ThenApplies(a, b, Origin, 1);
    ThenApplies(a, b, UnitX, 1);
    ThenApplies(a, b, UnitY, 1);
    ThenApplies(a, b, UnitZ, 1);
    TransformByCorners(t, Then(a, b));
  }

  /** The identity is a unit for Then on both sides. */
  lemma ThenIdentity(t: Transform3D)
    ensures Then(Identity, t) == t
    ensures Then(t, Identity) == t
  {
    IdentityComposes(TransformSigned(t));
    FromSignedOfTransform(t);
  }

  /** The identity's signed permutation is a unit for Compose. */
  lemma IdentityComposes(s: SignedPerm)
    requires s.Valid()
    ensures Compose(TransformSigned(Identity), s) == s
    ensures Compose(s, TransformSigned(Identity)) == s
  {
  }

  /** A transform followed by its inverse, either way round, is the
      identity. */
  lemma ThenInverse(t: Transform3D)
    ensures Then(t, Inverse(t)) == Identity
    ensures Then(Inverse(t), t) == Identity
  {
    InverseUndoes(t, Origin, 1);
    InverseUndoes(t, UnitX, 1);
    InverseUndoes(t, UnitY, 1);
    InverseUndoes(t, UnitZ, 1);
    ThenIsUnique(t, Inverse(t), Identity);
    InverseIsInvolution(t);
    InverseUndoes(Inverse(t), Origin, 1);
    InverseUndoes(Inverse(t), UnitX, 1);
    InverseUndoes(Inverse(t), UnitY, 1);
    InverseUndoes(Inverse(t), UnitZ, 1);
    ThenIsUnique(Inverse(t), t, Identity);
  }

  /** Then is associative. */
  lemma ThenAssociative(a: Transform3D, b: Transform3D, c: Transform3D)
    ensures Then(Then(a, b), c) == Then(a, Then(b, c))
  {
    var p := Then(Then(a, b), c);
    forall v | v in {Origin, UnitX, UnitY, UnitZ}
      ensures ApplyToPos(p, v, Cube(1)) == ApplyToPos(Then(b, c), ApplyToPos(a, v, Cube(1)), Cube(1))
    {
      ThenApplies(Then(a, b), c, v, 1);
      ThenApplies(a, b, v, 1);
      ThenApplies(b, c, ApplyToPos(a, v, Cube(1)), 1);
    }
    ThenIsUnique(a, Then(b, c), p);
  }

  // ---------------------------------------------------------------------
  // Orientation and CombineRotations

  lemma ComposeOrientationX(a: SignedPerm, b: SignedPerm)
    requires a.Valid() && b.Valid() && b.s0 == 0
    ensures (Compose(a, b).Orientation() == 1) == ((a.Orientation() == 1) == (b.Orientation() == 1))
  {
    if b.s1 == 1 {
      assert b.s2 == 2;
    } else {
      assert b.s1 == 2 && b.s2 == 1;
    }
  }

  lemma ComposeOrientationY(a: SignedPerm, b: SignedPerm)
    requires a.Valid() && b.Valid() && b.s0 == 1
    ensures (Compose(a, b).Orientation() == 1) == ((a.Orientation() == 1) == (b.Orientation() == 1))
  {
    if b.s1 == 0 {
      assert b.s2 == 2;
    } else {
      assert b.s1 == 2 && b.s2 == 0;
    }
  }

  lemma ComposeOrientationZ(a: SignedPerm, b: SignedPerm)
    requires a.Valid() && b.Valid() && b.s0 == 2
    ensures (Compose(a, b).Orientation() == 1) == ((a.Orientation() == 1) == (b.Orientation() == 1))
  {
    if b.s1 == 0 {
      assert b.s2 == 1;
    } else {
      assert b.s1 == 1 && b.s2 == 0;
    }
  }

  /** Then mirrors exactly when one of the two transforms does. */
  lemma ThenInvert(a: Transform3D, b: Transform3D)
    ensures Then(a, b).Invert == (a.Invert != b.Invert)
  {
    var sa, sb := TransformSigned(a), TransformSigned(b);
    RotationsAreProper(a);
    RotationsAreProper(b);
    if sb.s0 == 0 {
      ComposeOrientationX(sa, sb);
    } else if sb.s0 == 1 {
      ComposeOrientationY(sa, sb);
    } else {
      ComposeOrientationZ(sa, sb);
    }
  }

  /** CombineRotations: the rotation that does a and then b. */
  function CombineRotations(a: Rotations3D, b: Rotations3D): Rotations3D
  {
    Then(Transform3D(false, a), Transform3D(false, b)).Rot
  }

  /** Two rotations combine into a rotation, which applies a and then b. */
  lemma CombineRotationsApplies(a: Rotations3D, b: Rotations3D, p: Vector3i, m: int)
    ensures Transform3D(false, CombineRotations(a, b)) == Then(Transform3D(false, a), Transform3D(false, b))
    ensures ApplyToPos(Transform3D(false, CombineRotations(a, b)), p, Cube(m))
         == ApplyToPos(Transform3D(false, b), ApplyToPos(Transform3D(false, a), p, Cube(m)), Cube(m))
  {
    ThenInvert(Transform3D(false, a), Transform3D(false, b));
    ThenApplies(Transform3D(false, a), Transform3D(false, b), p, m);
  }

  // ---------------------------------------------------------------------
  // Corner arrangements

  /** Corner i of the unit cube, in the order of cornerPointsInitial. */
  function InitialCorner(i: nat): Vector3i
  {
    Vector3i(i % 2, i / 4, (i / 2) % 2)
  }

  function InitialCorners(): (c: seq<Vector3i>)
    ensures |c| == 8
  {
    seq(8, i requires 0 <= i < 8 => InitialCorner(i))
  }

  /** cornerPointsTransform: every corner moved by t in the unit cube. */
  function TransformCorners(c: seq<Vector3i>, t: Transform3D): (r: seq<Vector3i>)
    ensures |r| == |c|
  {
    seq(|c|, i requires 0 <= i < |c| => ApplyToPos(t, c[i], Cube(1)))
  }

  /** Where t sends the eight corners. */
  function Arrangement(t: Transform3D): seq<Vector3i>
  {
    TransformCorners(InitialCorners(), t)
  }

  predicate UnitCorners(c: seq<Vector3i>)
  {
    forall i :: 0 <= i < |c| ==> InBox(c[i], Cube(1))
  }

  /** The three bits of a corner: x in bit 0, y in bit 1, z in bit 2. */
  function PointBits(v: Vector3i): int
  {
    v.x + 2 * v.y + 4 * v.z
  }

  /** cornerPointsToID from corner i on: corner i takes bits 3i to 3i + 2. */
  function PackCorners(c: seq<Vector3i>, i: nat): int
    requires i <= |c|
    decreases |c| - i
  {
    if i == |c| then 0 else PointBits(c[i]) + 8 * PackCorners(c, i + 1)
  }

  function CornersID(c: seq<Vector3i>): int
  {
    PackCorners(c, 0)
  }

  /** Corners of the unit cube with the same bits are the same corner. */
  lemma PointBitsInjective(u: Vector3i, v: Vector3i)
    requires InBox(u, Cube(1)) && InBox(v, Cube(1))
    ensures 0 <= PointBits(u) < 8
    ensures PointBits(u) == PointBits(v) ==> u == v
  {
  }

  /** Lists of unit-cube corners with the same packed ID are equal. */
  lemma {:induction false} PackInjective(c: seq<Vector3i>, d: seq<Vector3i>, i: nat)
    requires |c| == |d| && i <= |c| && UnitCorners(c) && UnitCorners(d)
    requires PackCorners(c, i) == PackCorners(d, i)
    ensures c[i..] == d[i..]
    decreases |c| - i
  {
    if i < |c| {
      PointBitsInjective(c[i], d[i]);
      PointBitsInjective(d[i], c[i]);
      var x, y := PointBits(c[i]), PointBits(d[i]);
      var xs, ys := PackCorners(c, i + 1), PackCorners(d, i + 1);
      assert x + 8 * xs == y + 8 * ys;
      assert x == y && xs == ys;
      PackInjective(c, d, i + 1);
      assert c[i..] == [c[i]] + c[i + 1..];
      assert d[i..] == [d[i]] + d[i + 1..];
    }
  }

  lemma ArrangementInUnitCube(t: Transform3D)
    ensures UnitCorners(Arrangement(t))
  {
    var c := InitialCorners();
    forall i | 0 <= i < 8
      ensures InBox(Arrangement(t)[i], Cube(1))
    {
      ApplyToPosInBox(t, c[i], Cube(1));
      CubeIsFixed(TransformSigned(t), 1);
    }
  }

  /** Four of the eight corners are the ones that pin a transform down. */
  lemma ArrangementCorners(t: Transform3D)
    ensures Arrangement(t)[0] == ApplyToPos(t, Origin, Cube(1))
    ensures Arrangement(t)[1] == ApplyToPos(t, UnitX, Cube(1))
    ensures Arrangement(t)[4] == ApplyToPos(t, UnitY, Cube(1))
    ensures Arrangement(t)[2] == ApplyToPos(t, UnitZ, Cube(1))
  {
    var c := InitialCorners();
    assert c[0] == Origin && c[1] == UnitX && c[4] == UnitY && c[2] == UnitZ;
  }

  /** Transforms with the same corner ID have the same arrangement. */
  lemma SameIDSameArrangement(a: Transform3D, b: Transform3D)
    requires CornersID(Arrangement(a)) == CornersID(Arrangement(b))
    ensures Arrangement(a) == Arrangement(b)
  {
    ArrangementInUnitCube(a);
    ArrangementInUnitCube(b);
    PackInjective(Arrangement(a), Arrangement(b), 0);
    assert Arrangement(a) == Arrangement(a)[0..];
    assert Arrangement(b) == Arrangement(b)[0..];
  }

  /** The 48 transforms produce 48 distinct corner IDs: the assertion
      that no arrangement is seen twice holds, and the map is one to one. */
  lemma CornersIDInjective(a: Transform3D, b: Transform3D)
    requires CornersID(Arrangement(a)) == CornersID(Arrangement(b))
    ensures a == b
  {
    SameIDSameArrangement(a, b);
    ArrangementCorners(a);
    ArrangementCorners(b);
    TransformByCorners(a, b);
  }

  /** Moving the corners by a and then by b gives the arrangement of
      a.Then(b). */
  lemma ArrangementOfThen(a: Transform3D, b: Transform3D)
    ensures TransformCorners(Arrangement(a), b) == Arrangement(Then(a, b))
  {
    var c := InitialCorners();
    forall i | 0 <= i < 8
      ensures TransformCorners(Arrangement(a), b)[i] == Arrangement(Then(a, b))[i]
    {
      ThenApplies(a, b, c[i], 1);
    }
  }

  // ---------------------------------------------------------------------
  // TransformApplicationCache

  const N_ANSWERS: nat := N_TRANSFORMS * N_TRANSFORMS

  /** The slot of the pair (a, b): a's bit index plus 48 times b's. */
  function AnswerSlot(i: nat, j: nat): nat
  {
    i + j * N_TRANSFORMS
  }

  lemma AnswerSlotInjective(i1: nat, j1: nat, i2: nat, j2: nat)
    requires i1 < N_TRANSFORMS && i2 < N_TRANSFORMS
    ensures AnswerSlot(i1, j1) == AnswerSlot(i2, j2) <==> i1 == i2 && j1 == j2
  {
  }

  /** GetAnswer's index into the cache, always inside it. */
  function AnswerIndex(a: Transform3D, b: Transform3D): (n: nat)
    ensures n < N_ANSWERS
  {
    AnswerSlot(ToBitIdx(a), ToBitIdx(b))
  }

  /** The corner ID of a transform's arrangement, as the cache computes it
      from cornerPointsInitial, cornerPointsTransform and cornerPointsToID. */
  function TransformKey(t: Transform3D): int
  {
    CornersID(TransformCorners(InitialCorners(), t))
  }

  lemma TransformKeyInjective(a: Transform3D, b: Transform3D)
    requires TransformKey(a) == TransformKey(b)
    ensures a == b
  {
    CornersIDInjective(a, b);
  }

  /** The corner ID of the arrangement reached by a and then b is that of
      a.Then(b). */
  lemma ThenKey(a: Transform3D, b: Transform3D)
    ensures CornersID(TransformCorners(TransformCorners(InitialCorners(), a), b)) == TransformKey(Then(a, b))
  {
    ArrangementOfThen(a, b);
  }

  /** transformByCornerArrangement: each of the 48 transforms under its
      key, filled in bit-index order (inversion outer, rotation inner, as
      the two loops of the source). The key is the cache's function
      TransformKey; the loop relies only on its being one to one, which is
      the source's assertion that no key is seen twice. */
  method ArrangementMap(key: Transform3D -> int) returns (m: map<int, Transform3D>)
    requires forall a, b :: key(a) == key(b) ==> a == b
    ensures forall t :: key(t) in m && m[key(t)] == t
  {
    m := map[];
    for i := 0 to N_TRANSFORMS
      invariant forall k :: k in m ==> ToBitIdx(m[k]) < i && k == key(m[k])
      invariant forall j :: 0 <= j < i ==> key(FromBit(j)) in m && m[key(FromBit(j))] == FromBit(j)
    {
      var tr := FromBit(i);
      var cornersID := key(tr);
      if cornersID in m {
        assert false;
      }
      m := m[cornersID := tr];
    }
    forall t
      ensures key(t) in m && m[key(t)] == t
    {
      BitIdxRoundTrip(t);
    }
  }

  /** The cache of every answer to Then. */
  class TransformApplicationCache {
    var cachedAnswers: array<Transform3D>

    ghost predicate Valid()
      reads this, cachedAnswers
    {
      cachedAnswers.Length == N_ANSWERS &&
      forall a, b :: cachedAnswers[AnswerIndex(a, b)] == Then(a, b)
    }

    function GetAnswer(a: Transform3D, b: Transform3D): (r: Transform3D)
      reads this, cachedAnswers
      requires Valid()
      ensures r == Then(a, b)
    {
      cachedAnswers[AnswerIndex(a, b)]
    }

    /** Every pair of transforms is applied to the corners, and the answer
        is the transform with the resulting arrangement. */
    constructor()
      ensures Valid() && fresh(cachedAnswers)
    {
      forall a, b | TransformKey(a) == TransformKey(b)
        ensures a == b
      {
        TransformKeyInjective(a, b);
      }
      var byArrangement := ArrangementMap(TransformKey);
      forall a, b
        ensures MovedKey(a, b) == TransformKey(Then(a, b))
      {
        ThenKey(a, b);
      }
      var answers := FillAnswers(byArrangement, TransformKey, MovedKey, Then);
      cachedAnswers := answers;
      new;
      forall a, b
        ensures cachedAnswers[AnswerIndex(a, b)] == Then(a, b)
      {
        BitIdxRoundTrip(a);
        BitIdxRoundTrip(b);
      }
    }
  }

  /** The corner ID reached by moving the corners by a and then by b. */
  function MovedKey(a: Transform3D, b: Transform3D): int
  {
    CornersID(TransformCorners(TransformCorners(InitialCorners(), a), b))
  }

  /** The two nested loops of the cache: for every pair, the arrangement
      reached by applying both is looked up in the map. The loop uses only
      what the map and the keys promise: the map holds every transform
      under its key, and the pair's arrangement has the key of the pair's
      answer. */
  method FillAnswers(byArrangement: map<int, Transform3D>, key: Transform3D -> int,
                     moved: (Transform3D, Transform3D) -> int,
                     answer: (Transform3D, Transform3D) -> Transform3D)
    returns (answers: array<Transform3D>)
    requires forall t :: key(t) in byArrangement && byArrangement[key(t)] == t
    requires forall a, b :: moved(a, b) == key(answer(a, b))
    ensures fresh(answers) && answers.Length == N_ANSWERS
    ensures forall j1, j2 :: 0 <= j1 < N_TRANSFORMS && 0 <= j2 < N_TRANSFORMS ==>
              answers[AnswerSlot(j1, j2)] == answer(FromBit(j1), FromBit(j2))
  {
    answers := new Transform3D[N_ANSWERS](_ => Identity);
    for i1 := 0 to N_TRANSFORMS
      invariant forall j1, j2 :: 0 <= j1 < i1 && 0 <= j2 < N_TRANSFORMS ==>
                  answers[AnswerSlot(j1, j2)] == answer(FromBit(j1), FromBit(j2))
    {
      var tr1 := FromBit(i1);
      for i2 := 0 to N_TRANSFORMS
        invariant forall j1, j2 :: 0 <= j1 < i1 && 0 <= j2 < N_TRANSFORMS ==>
                    answers[AnswerSlot(j1, j2)] == answer(FromBit(j1), FromBit(j2))
        invariant forall j2 :: 0 <= j2 < i2 ==> answers[AnswerSlot(i1, j2)] == answer(tr1, FromBit(j2))
      {
        var tr2 := FromBit(i2);
        var effectiveTr := byArrangement[moved(tr1, tr2)];
        forall j1, j2 | 0 <= j1 < N_TRANSFORMS && AnswerSlot(j1, j2) == AnswerSlot(i1, i2)
          ensures j1 == i1 && j2 == i2
        {
          AnswerSlotInjective(j1, j2, i1, i2);
        }
        answers[AnswerSlot(i1, i2)] := effectiveTr;
      }
    }
  }

  /** Transform3D::Then as the source computes it: a lookup in the cache. */
  method ThenByCache(cache: TransformApplicationCache, a: Transform3D, b: Transform3D) returns (r: Transform3D)
    requires cache.Valid()
    ensures r == Then(a, b)
  {
    r := cache.GetAnswer(a, b);
  }
}
