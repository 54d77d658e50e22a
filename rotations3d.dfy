/** The cube transform group of Tiled3D/Transform3D.h and
    src/Tiled3D/Transform3D.cpp: the 24 axis-aligned rotations
    (Rotations3D), a Transform3D made of an inversion flag and a rotation,
    its action on positions (ApplyToPos) and on sides (ApplyToSide),
    Inverse and GetID.

    Every rotation is described a second time, independently of the
    source's switch and table, as a signed permutation of the axes
    (SignedPerm): output axis k reads input axis Src(k), mirrored when
    Flip(k). The lemmas tie the switch and the side table to that
    description and prove the group facts the source relies on. */
module CubeTransforms {
  import opened Vectors
  import opened Faces3D

  /** Rotations3D, in the source's order (the tables depend on it). */
  datatype Rotations3D =
    | None
    | AxisX_90 | AxisX_180 | AxisX_270
    | AxisY_90 | AxisY_180 | AxisY_270
    | AxisZ_90 | AxisZ_180 | AxisZ_270
    | EdgesXa | EdgesXb | EdgesYa | EdgesYb | EdgesZa | EdgesZb
    | CornerAAA_120 | CornerAAA_240 | CornerABA_120 | CornerABA_240
    | CornerBAA_120 | CornerBAA_240 | CornerBBA_120 | CornerBBA_240

  const N_ROTATIONS_3D: nat := 24

  /** The enum's numeric value. */
  function RotOrdinal(r: Rotations3D): (n: nat)
    ensures n < N_ROTATIONS_3D
  {
    match r
    case None => 0
    case AxisX_90 => 1
    case AxisX_180 => 2
    case AxisX_270 => 3
    case AxisY_90 => 4
    case AxisY_180 => 5
    case AxisY_270 => 6
    case AxisZ_90 => 7
    case AxisZ_180 => 8
    case AxisZ_270 => 9
    case EdgesXa => 10
    case EdgesXb => 11
    case EdgesYa => 12
    case EdgesYb => 13
    case EdgesZa => 14
    case EdgesZb => 15
    case CornerAAA_120 => 16
    case CornerAAA_240 => 17
    case CornerABA_120 => 18
    case CornerABA_240 => 19
    case CornerBAA_120 => 20
    case CornerBAA_240 => 21
    case CornerBBA_120 => 22
    case CornerBBA_240 => 23
  }

  /** `static_cast<Rotations3D>(n)`. */
  function RotFromOrdinal(n: nat): (r: Rotations3D)
    requires n < N_ROTATIONS_3D
    ensures RotOrdinal(r) == n
  {
    if n == 0 then None
    else if n == 1 then AxisX_90
    else if n == 2 then AxisX_180
    else if n == 3 then AxisX_270
    else if n == 4 then AxisY_90
    else if n == 5 then AxisY_180
    else if n == 6 then AxisY_270
    else if n == 7 then AxisZ_90
    else if n == 8 then AxisZ_180
    else if n == 9 then AxisZ_270
    else if n == 10 then EdgesXa
    else if n == 11 then EdgesXb
    else if n == 12 then EdgesYa
    else if n == 13 then EdgesYb
    else if n == 14 then EdgesZa
    else if n == 15 then EdgesZb
    else if n == 16 then CornerAAA_120
    else if n == 17 then CornerAAA_240
    else if n == 18 then CornerABA_120
    else if n == 19 then CornerABA_240
    else if n == 20 then CornerBAA_120
    else if n == 21 then CornerBAA_240
    else if n == 22 then CornerBBA_120
    else CornerBBA_240
  }

  /** The cast undoes the numeric value (and RotFromOrdinal's contract is
      the other direction), so the 24 values are distinct. */
  lemma RotOrdinalRoundTrip(r: Rotations3D)
    ensures RotFromOrdinal(RotOrdinal(r)) == r
  {
    match r
    case None =>
    case AxisX_90 =>
    case AxisX_180 =>
    case AxisX_270 =>
    case AxisY_90 =>
    case AxisY_180 =>
    case AxisY_270 =>
    case AxisZ_90 =>
    case AxisZ_180 =>
    case AxisZ_270 =>
    case EdgesXa =>
    case EdgesXb =>
    case EdgesYa =>
    case EdgesYb =>
    case EdgesZa =>
    case EdgesZb =>
    case CornerAAA_120 =>
    case CornerAAA_240 =>
    case CornerABA_120 =>
    case CornerABA_240 =>
    case CornerBAA_120 =>
    case CornerBAA_240 =>
    case CornerBBA_120 =>
    case CornerBBA_240 =>
  }

  /** Transform3D: when Invert, the cube is mirrored along every axis, and
      then rotated by Rot. The default value is the identity. */
  datatype Transform3D = Transform3D(Invert: bool, Rot: Rotations3D)

  const Identity: Transform3D := Transform3D(false, None)

  const N_TRANSFORMS: nat := 48

  predicate IsIdentity(t: Transform3D)
  {
    !t.Invert && t.Rot == None
  }

  /** The rotLookup table of Transform3D::Inverse. */
  function InverseRot(r: Rotations3D): Rotations3D
  {
    match r
    case None => None
    case AxisX_90 => AxisX_270
    case AxisX_180 => AxisX_180
    case AxisX_270 => AxisX_90
    case AxisY_90 => AxisY_270
    case AxisY_180 => AxisY_180
    case AxisY_270 => AxisY_90
    case AxisZ_90 => AxisZ_270
    case AxisZ_180 => AxisZ_180
    case AxisZ_270 => AxisZ_90
    case EdgesXa => EdgesXa
    case EdgesXb => EdgesXb
    case EdgesYa => EdgesYa
    case EdgesYb => EdgesYb
    case EdgesZa => EdgesZa
    case EdgesZb => EdgesZb
    case CornerAAA_120 => CornerAAA_240
    case CornerAAA_240 => CornerAAA_120
    case CornerABA_120 => CornerABA_240
    case CornerABA_240 => CornerABA_120
    case CornerBAA_120 => CornerBAA_240
    case CornerBAA_240 => CornerBAA_120
    case CornerBBA_120 => CornerBBA_240
    case CornerBBA_240 => CornerBBA_120
  }

  /** Transform3D::Inverse: the inversion and the rotation are undone
      separately. */
  function Inverse(t: Transform3D): (r: Transform3D)
    ensures r.Invert == t.Invert
  {
    Transform3D(t.Invert, InverseRot(t.Rot))
  }

  predicate IsAxisQuarterTurn(r: Rotations3D)
  {
    r.AxisX_90? || r.AxisX_270? || r.AxisY_90? || r.AxisY_270? || r.AxisZ_90? || r.AxisZ_270?
  }

  /** The rotations that are their own inverse: the identity, the half
      turns about an axis and the six edge rotations. */
  predicate IsHalfTurnOrIdentity(r: Rotations3D)
  {
    r.None? || r.AxisX_180? || r.AxisY_180? || r.AxisZ_180?
    || r.EdgesXa? || r.EdgesXb? || r.EdgesYa? || r.EdgesYb? || r.EdgesZa? || r.EdgesZb?
  }

  /** The rotation table is an involution that keeps the identity, the
      half turns and the edge rotations, moves every other rotation, swaps
      90 with 270 degrees about the same axis and 120 with 240 degrees
      about the same corner. */
  lemma InverseRotFacts(r: Rotations3D)
    ensures InverseRot(InverseRot(r)) == r
    ensures InverseRot(r) == r <==> IsHalfTurnOrIdentity(r)
    ensures IsAxisQuarterTurn(InverseRot(r)) == IsAxisQuarterTurn(r)
    ensures r.AxisX_90? <==> InverseRot(r).AxisX_270?
    ensures r.AxisY_90? <==> InverseRot(r).AxisY_270?
    ensures r.AxisZ_90? <==> InverseRot(r).AxisZ_270?
    ensures r.CornerAAA_120? <==> InverseRot(r).CornerAAA_240?
    ensures r.CornerABA_120? <==> InverseRot(r).CornerABA_240?
    ensures r.CornerBAA_120? <==> InverseRot(r).CornerBAA_240?
    ensures r.CornerBBA_120? <==> InverseRot(r).CornerBBA_240?
  {
  }

  lemma InverseIsInvolution(t: Transform3D)
    ensures Inverse(Inverse(t)) == t
    ensures IsIdentity(Inverse(t)) == IsIdentity(t)
  {
    InverseRotFacts(t.Rot);
  }

  /** Transform3D::GetID: the rotation's value in the low five bits and
      the inversion flag in bit 5. */
  function GetID(t: Transform3D): bv8
  {
    RotBits(t.Rot) | ((if t.Invert then 1 else 0) << 5)
  }

  /** `static_cast<HashType>(Rot)`: the enum value as a byte. */
  function RotBits(r: Rotations3D): (b: bv8)
    ensures b as nat == RotOrdinal(r)
  {
    match r
    case None => 0
    case AxisX_90 => 1
    case AxisX_180 => 2
    case AxisX_270 => 3
    case AxisY_90 => 4
    case AxisY_180 => 5
    case AxisY_270 => 6
    case AxisZ_90 => 7
    case AxisZ_180 => 8
    case AxisZ_270 => 9
    case EdgesXa => 10
    case EdgesXb => 11
    case EdgesYa => 12
    case EdgesYb => 13
    case EdgesZa => 14
    case EdgesZb => 15
    case CornerAAA_120 => 16
    case CornerAAA_240 => 17
    case CornerABA_120 => 18
    case CornerABA_240 => 19
    case CornerBAA_120 => 20
    case CornerBAA_240 => 21
    case CornerBBA_120 => 22
    case CornerBBA_240 => 23
  }

  /** GetID is the byte Rot + 32 * Invert (the rotation never reaches
      bit 5), so it is a perfect hash: no two transforms share an ID. */
  lemma GetIDValue(t: Transform3D)
    ensures RotBits(t.Rot) < 32
    ensures GetID(t) == RotBits(t.Rot) + (if t.Invert then 32 else 0)
  {
    var b := RotBits(t.Rot);
    assert b < 32 by {
      assert b as nat < 32;
    }
    if t.Invert {
      assert GetID(t) == b | 32;
    } else {
      assert GetID(t) == b | 0;
    }
  }

  lemma GetIDInjective(a: Transform3D, b: Transform3D)
    ensures GetID(a) == GetID(b) <==> a == b
  {
    GetIDValue(a);
    GetIDValue(b);
    if GetID(a) == GetID(b) {
      assert a.Invert == b.Invert;
      assert RotBits(a.Rot) == RotBits(b.Rot);
      RotOrdinalRoundTrip(a.Rot);
      RotOrdinalRoundTrip(b.Rot);
    }
  }

  /** TransformSet::ToBitIdx: the rotation's enum value, plus 24 when
      inverted; the non-inverted transforms take the first half. */
  function ToBitIdx(t: Transform3D): (i: nat)
    ensures i < N_TRANSFORMS
    ensures i < N_ROTATIONS_3D <==> !t.Invert
  {
    RotOrdinal(t.Rot) + (if t.Invert then N_ROTATIONS_3D else 0)
  }

  /** TransformSet::FromBit: the transform with a given bit index. */
  function FromBit(i: nat): (t: Transform3D)
    requires i < N_TRANSFORMS
    ensures ToBitIdx(t) == i
  {
    if i < N_ROTATIONS_3D then Transform3D(false, RotFromOrdinal(i))
    else Transform3D(true, RotFromOrdinal(i - N_ROTATIONS_3D))
  }

  /** The bit index is a perfect hash of the 48 transforms. */
  lemma BitIdxRoundTrip(t: Transform3D)
    ensures FromBit(ToBitIdx(t)) == t
  {
    RotOrdinalRoundTrip(t.Rot);
  }

  lemma ToBitIdxInjective(a: Transform3D, b: Transform3D)
    requires ToBitIdx(a) == ToBitIdx(b)
    ensures a == b
  {
    BitIdxRoundTrip(a);
    BitIdxRoundTrip(b);
  }

  // ---------------------------------------------------------------------
  // Positions

  /** Transform3D::ApplyToPos: the transform acts on the box from the
      origin to `max` inclusive. The inversion mirrors p first; then each
      case of the rotation's switch reads every output component from a
      component of p or of its mirror image i. */
  function ApplyToPos(t: Transform3D, pos: Vector3i, max: Vector3i): Vector3i
  {
    var p := if t.Invert then max.Minus(pos) else pos;
    var i := max.Minus(p);
    match t.Rot
    case None => p
    case AxisX_90 => Vector3i(p.x, i.z, p.y)
    case AxisX_180 => Vector3i(p.x, i.y, i.z)
    case AxisX_270 => Vector3i(p.x, p.z, i.y)
    case AxisY_90 => Vector3i(p.z, p.y, i.x)
    case AxisY_180 => Vector3i(i.x, p.y, i.z)
    case AxisY_270 => Vector3i(i.z, p.y, p.x)
    case AxisZ_90 => Vector3i(i.y, p.x, p.z)
    case AxisZ_180 => Vector3i(i.x, i.y, p.z)
    case AxisZ_270 => Vector3i(p.y, i.x, p.z)
    case EdgesXa => Vector3i(i.x, p.z, p.y)
    case EdgesYa => Vector3i(p.z, i.y, p.x)
    case EdgesZa => Vector3i(p.y, p.x, i.z)
    case EdgesXb => Vector3i(i.x, i.z, i.y)
    case EdgesYb => Vector3i(i.z, i.y, i.x)
    case EdgesZb => Vector3i(i.y, i.x, i.z)
    case CornerAAA_120 => Vector3i(p.y, p.z, p.x)
    case CornerAAA_240 => Vector3i(p.z, p.x, p.y)
    case CornerABA_120 => Vector3i(p.z, i.x, i.y)
    case CornerABA_240 => Vector3i(i.y, i.z, p.x)
    case CornerBAA_120 => Vector3i(i.z, i.x, p.y)
    case CornerBAA_240 => Vector3i(i.y, p.z, i.x)
    case CornerBBA_120 => Vector3i(p.y, i.z, i.x)
    case CornerBBA_240 => Vector3i(i.z, p.x, i.y)
  }

  /** An axis permutation with a mirror flag per output axis. */
  datatype SignedPerm = SignedPerm(s0: nat, s1: nat, s2: nat, f0: bool, f1: bool, f2: bool)
  {
    /** The input axis that output axis k reads. */
    function Src(k: nat): nat
      requires k < 3
    {
      if k == 0 then s0 else if k == 1 then s1 else s2
    }

    predicate Flip(k: nat)
      requires k < 3
    {
      if k == 0 then f0 else if k == 1 then f1 else f2
    }

    /** Src is a permutation of the three axes. */
    predicate Valid()
    {
      s0 < 3 && s1 < 3 && s2 < 3 && s0 != s1 && s1 != s2 && s0 != s2
    }

    /** +1 for a rotation, -1 for a mirror image: the determinant of the
        signed permutation matrix. */
    function Orientation(): int
      requires Valid()
    {
      var sign := PermutationSign(s0, s1, s2);
      if f0 != (f1 != f2) then -sign else sign
    }
  }

  /** The signed permutation applied in the box from the origin to max. */
  function ApplySigned(sp: SignedPerm, p: Vector3i, max: Vector3i): (q: Vector3i)
    requires sp.Valid()
    ensures forall k :: 0 <= k < 3 ==>
              q.Get(k) == if sp.Flip(k) then max.Get(sp.Src(k)) - p.Get(sp.Src(k)) else p.Get(sp.Src(k))
  {
    Vector3i(
      if sp.f0 then max.Get(sp.s0) - p.Get(sp.s0) else p.Get(sp.s0),
      if sp.f1 then max.Get(sp.s1) - p.Get(sp.s1) else p.Get(sp.s1),
      if sp.f2 then max.Get(sp.s2) - p.Get(sp.s2) else p.Get(sp.s2))
  }

  /** Each rotation as a signed permutation, read off the geometry of the
      rotation named by the enum value. */
  function RotSigned(r: Rotations3D): (sp: SignedPerm)
    ensures sp.Valid()
  {
    match r
    case None => SignedPerm(0, 1, 2, false, false, false)
    case AxisX_90 => SignedPerm(0, 2, 1, false, true, false)
    case AxisX_180 => SignedPerm(0, 1, 2, false, true, true)
    case AxisX_270 => SignedPerm(0, 2, 1, false, false, true)
    case AxisY_90 => SignedPerm(2, 1, 0, false, false, true)
    case AxisY_180 => SignedPerm(0, 1, 2, true, false, true)
    case AxisY_270 => SignedPerm(2, 1, 0, true, false, false)
    case AxisZ_90 => SignedPerm(1, 0, 2, true, false, false)
    case AxisZ_180 => SignedPerm(0, 1, 2, true, true, false)
    case AxisZ_270 => SignedPerm(1, 0, 2, false, true, false)
    case EdgesXa => SignedPerm(0, 2, 1, true, false, false)
    case EdgesXb => SignedPerm(0, 2, 1, true, true, true)
    case EdgesYa => SignedPerm(2, 1, 0, false, true, false)
    case EdgesYb => SignedPerm(2, 1, 0, true, true, true)
    case EdgesZa => SignedPerm(1, 0, 2, false, false, true)
    case EdgesZb => SignedPerm(1, 0, 2, true, true, true)
    case CornerAAA_120 => SignedPerm(1, 2, 0, false, false, false)
    case CornerAAA_240 => SignedPerm(2, 0, 1, false, false, false)
    case CornerABA_120 => SignedPerm(2, 0, 1, false, true, true)
    case CornerABA_240 => SignedPerm(1, 2, 0, true, true, false)
    case CornerBAA_120 => SignedPerm(2, 0, 1, true, true, false)
    case CornerBAA_240 => SignedPerm(1, 2, 0, true, false, true)
    case CornerBBA_120 => SignedPerm(1, 2, 0, false, true, true)
    case CornerBBA_240 => SignedPerm(2, 0, 1, true, false, true)
  }

  /** A transform as a signed permutation: the inversion mirrors every
      axis, which toggles every flag. */
  function TransformSigned(t: Transform3D): (sp: SignedPerm)
    ensures sp.Valid()
  {
    var r := RotSigned(t.Rot);
    if t.Invert then SignedPerm(r.s0, r.s1, r.s2, !r.f0, !r.f1, !r.f2) else r
  }

  /** Every Rotations3D value is a proper rotation (orientation +1), and
      every inverted transform is a mirror image (orientation -1). */
  lemma RotationsAreProper(t: Transform3D)
    ensures TransformSigned(t).Orientation() == if t.Invert then -1 else 1
  {
    match t.Rot
    case None =>
    case AxisX_90 =>
    case AxisX_180 =>
    case AxisX_270 =>
    case AxisY_90 =>
    case AxisY_180 =>
    case AxisY_270 =>
    case AxisZ_90 =>
    case AxisZ_180 =>
    case AxisZ_270 =>
    case EdgesXa =>
    case EdgesXb =>
    case EdgesYa =>
    case EdgesYb =>
    case EdgesZa =>
    case EdgesZb =>
    case CornerAAA_120 =>
    case CornerAAA_240 =>
    case CornerABA_120 =>
    case CornerABA_240 =>
    case CornerBAA_120 =>
    case CornerBAA_240 =>
    case CornerBBA_120 =>
    case CornerBBA_240 =>
  }

  /** The source's switch is the signed permutation of its transform, for
      every position and every box. */
  lemma ApplyToPosIsSigned(t: Transform3D, p: Vector3i, max: Vector3i)
    ensures ApplyToPos(t, p, max) == ApplySigned(TransformSigned(t), p, max)
  {
    match t.Rot
    case None =>
    case AxisX_90 =>
    case AxisX_180 =>
    case AxisX_270 =>
    case AxisY_90 =>
    case AxisY_180 =>
    case AxisY_270 =>
    case AxisZ_90 =>
    case AxisZ_180 =>
    case AxisZ_270 =>
    case EdgesXa =>
    case EdgesXb =>
    case EdgesYa =>
    case EdgesYb =>
    case EdgesZa =>
    case EdgesZb =>
    case CornerAAA_120 =>
    case CornerAAA_240 =>
    case CornerABA_120 =>
    case CornerABA_240 =>
    case CornerBAA_120 =>
    case CornerBAA_240 =>
    case CornerBBA_120 =>
    case CornerBBA_240 =>
  }


  /** Every component of a signed permutation's image is read from one
      input axis, and every input axis is read by some output axis, so
      two positions with the same image are equal. */
  lemma SignedInjective(sp: SignedPerm, p: Vector3i, q: Vector3i, max: Vector3i)
    requires sp.Valid()
    requires ApplySigned(sp, p, max) == ApplySigned(sp, q, max)
    ensures p == q
  {
    var a, b := ApplySigned(sp, p, max), ApplySigned(sp, q, max);
    forall j | 0 <= j < 3
      ensures p.Get(j) == q.Get(j)
    {
      var k := if sp.s0 == j then 0 else if sp.s1 == j then 1 else 2;
      assert sp.Src(k) == j;
      assert a.Get(k) == b.Get(k);
    }
    assert p.Get(0) == q.Get(0) && p.Get(1) == q.Get(1) && p.Get(2) == q.Get(2);
  }

  /** A signed permutation commutes with the mirror image of the box
      (the inversion), whatever the box. */
  lemma SignedCommutesWithMirror(sp: SignedPerm, p: Vector3i, max: Vector3i)
    requires sp.Valid()
    ensures ApplySigned(sp, max.Minus(p), max) == PermutedMax(sp, max).Minus(ApplySigned(sp, p, max))
  {
  }

  /** The far corner of the image box: output axis k has the extent of
      input axis Src(k). */
  function PermutedMax(sp: SignedPerm, max: Vector3i): (m: Vector3i)
    requires sp.Valid()
    ensures forall k :: 0 <= k < 3 ==> m.Get(k) == max.Get(sp.Src(k))
  {
    Vector3i(max.Get(sp.s0), max.Get(sp.s1), max.Get(sp.s2))
  }

  predicate InBox(p: Vector3i, max: Vector3i)
  {
    0 <= p.x <= max.x && 0 <= p.y <= max.y && 0 <= p.z <= max.z
  }

  /** ApplyToPos maps the box from the origin to max onto the box whose
      sides are those of max, permuted by the rotation. */
  lemma ApplyToPosInBox(t: Transform3D, p: Vector3i, max: Vector3i)
    requires InBox(p, max)
    ensures InBox(ApplyToPos(t, p, max), PermutedMax(TransformSigned(t), max))
  {
    ApplyToPosIsSigned(t, p, max);
    var sp := TransformSigned(t);
    var q := ApplySigned(sp, p, max);
    var m := PermutedMax(sp, max);
    forall k | 0 <= k < 3
      ensures 0 <= q.Get(k) <= m.Get(k)
    {
      var j := sp.Src(k);
      assert 0 <= p.Get(j) <= max.Get(j) by {
        assert j == 0 || j == 1 || j == 2;
      }
    }
    assert 0 <= q.Get(0) <= m.Get(0) && 0 <= q.Get(1) <= m.Get(1) && 0 <= q.Get(2) <= m.Get(2);
  }

  /** The cube from the origin to (m, m, m). */
  function Cube(m: int): Vector3i
  {
    Vector3i(m, m, m)
  }

  lemma CubeIsFixed(sp: SignedPerm, m: int)
    requires sp.Valid()
    ensures PermutedMax(sp, Cube(m)) == Cube(m)
  {
  }

  /** Inverse undoes the transform on a cube: the rotation table undoes
      the rotation, and the inversion undoes itself because it commutes
      with every rotation. */
  lemma InverseUndoes(t: Transform3D, p: Vector3i, m: int)
    ensures ApplyToPos(Inverse(t), ApplyToPos(t, p, Cube(m)), Cube(m)) == p
  {
    match t.Rot
    case None =>
    case AxisX_90 =>
    case AxisX_180 =>
    case AxisX_270 =>
    case AxisY_90 =>
    case AxisY_180 =>
    case AxisY_270 =>
    case AxisZ_90 =>
    case AxisZ_180 =>
    case AxisZ_270 =>
    case EdgesXa =>
    case EdgesXb =>
    case EdgesYa =>
    case EdgesYb =>
    case EdgesZa =>
    case EdgesZb =>
    case CornerAAA_120 =>
    case CornerAAA_240 =>
    case CornerABA_120 =>
    case CornerABA_240 =>
    case CornerBAA_120 =>
    case CornerBAA_240 =>
    case CornerBBA_120 =>
    case CornerBBA_240 =>
  }

  /** A rotation without inversion, on the cube from the origin to (m, m, m). */
  function Turn(r: Rotations3D, p: Vector3i, m: int): Vector3i
  {
    ApplyToPos(Transform3D(false, r), p, Cube(m))
  }

  /** On a cube, two quarter turns about an axis are the half turn, and
      four are the identity. */
  lemma QuarterTurns(p: Vector3i, m: int)
    ensures Turn(AxisX_90, Turn(AxisX_90, p, m), m) == Turn(AxisX_180, p, m)
    ensures Turn(AxisY_90, Turn(AxisY_90, p, m), m) == Turn(AxisY_180, p, m)
    ensures Turn(AxisZ_90, Turn(AxisZ_90, p, m), m) == Turn(AxisZ_180, p, m)
    ensures Turn(AxisX_90, Turn(AxisX_90, Turn(AxisX_90, Turn(AxisX_90, p, m), m), m), m) == p
    ensures Turn(AxisY_90, Turn(AxisY_90, Turn(AxisY_90, Turn(AxisY_90, p, m), m), m), m) == p
    ensures Turn(AxisZ_90, Turn(AxisZ_90, Turn(AxisZ_90, Turn(AxisZ_90, p, m), m), m), m) == p
  {
  }

  /** On a cube, three turns of 120 degrees about a corner are the
      identity. */
  lemma CornerTurnsCycle(p: Vector3i, m: int)
    ensures Turn(CornerAAA_120, Turn(CornerAAA_120, Turn(CornerAAA_120, p, m), m), m) == p
    ensures Turn(CornerABA_120, Turn(CornerABA_120, Turn(CornerABA_120, p, m), m), m) == p
    ensures Turn(CornerBAA_120, Turn(CornerBAA_120, Turn(CornerBAA_120, p, m), m), m) == p
    ensures Turn(CornerBBA_120, Turn(CornerBBA_120, Turn(CornerBBA_120, p, m), m), m) == p
  {
  }

  /** On a cube, the turn of 240 degrees about the corner AAA or ABA is two
      turns of 120 degrees. */
  lemma CornerTurnsDoubleA(p: Vector3i, m: int)
    ensures Turn(CornerAAA_120, Turn(CornerAAA_120, p, m), m) == Turn(CornerAAA_240, p, m)
    ensures Turn(CornerABA_120, Turn(CornerABA_120, p, m), m) == Turn(CornerABA_240, p, m)
  {
  }

  /** On a cube, the turn of 240 degrees about the corner BAA or BBA is two
      turns of 120 degrees. */
  lemma CornerTurnsDoubleB(p: Vector3i, m: int)
    ensures Turn(CornerBAA_120, Turn(CornerBAA_120, p, m), m) == Turn(CornerBAA_240, p, m)
    ensures Turn(CornerBBA_120, Turn(CornerBBA_120, p, m), m) == Turn(CornerBBA_240, p, m)
  {
  }

  /** On a cube, every edge rotation is a half turn. */
  lemma EdgeTurns(p: Vector3i, m: int)
    ensures Turn(EdgesXa, Turn(EdgesXa, p, m), m) == p
    ensures Turn(EdgesXb, Turn(EdgesXb, p, m), m) == p
    ensures Turn(EdgesYa, Turn(EdgesYa, p, m), m) == p
    ensures Turn(EdgesYb, Turn(EdgesYb, p, m), m) == p
    ensures Turn(EdgesZa, Turn(EdgesZa, p, m), m) == p
    ensures Turn(EdgesZb, Turn(EdgesZb, p, m), m) == p
  {
  }

  // ---------------------------------------------------------------------
  // Sides

  /** Lookup_DirTransforms[side][rot]: the side a face on `side` lands on
      under the rotation `rot`, one row per side as in the source's table. */
  function Lookup_DirTransforms(side: Direction3D, rot: Rotations3D): Direction3D
  {
    match side
    case MinX =>
      (match rot
      case None => MinX case AxisX_90 => MinX case AxisX_180 => MinX case AxisX_270 => MinX
      case AxisY_90 => MaxZ case AxisY_180 => MaxX case AxisY_270 => MinZ case AxisZ_90 => MinY
      case AxisZ_180 => MaxX case AxisZ_270 => MaxY case EdgesXa => MaxX case EdgesXb => MaxX
      case EdgesYa => MinZ case EdgesYb => MaxZ case EdgesZa => MinY case EdgesZb => MaxY
      case CornerAAA_120 => MinZ case CornerAAA_240 => MinY case CornerABA_120 => MaxY case CornerABA_240 => MinZ
      case CornerBAA_120 => MaxY case CornerBAA_240 => MaxZ case CornerBBA_120 => MaxZ case CornerBBA_240 => MinY)
    case MaxX =>
      (match rot
      case None => MaxX case AxisX_90 => MaxX case AxisX_180 => MaxX case AxisX_270 => MaxX
      case AxisY_90 => MinZ case AxisY_180 => MinX case AxisY_270 => MaxZ case AxisZ_90 => MaxY
      case AxisZ_180 => MinX case AxisZ_270 => MinY case EdgesXa => MinX case EdgesXb => MinX
      case EdgesYa => MaxZ case EdgesYb => MinZ case EdgesZa => MaxY case EdgesZb => MinY
      case CornerAAA_120 => MaxZ case CornerAAA_240 => MaxY case CornerABA_120 => MinY case CornerABA_240 => MaxZ
      case CornerBAA_120 => MinY case CornerBAA_240 => MinZ case CornerBBA_120 => MinZ case CornerBBA_240 => MaxY)
    case MinY =>
      (match rot
      case None => MinY case AxisX_90 => MinZ case AxisX_180 => MaxY case AxisX_270 => MaxZ
      case AxisY_90 => MinY case AxisY_180 => MinY case AxisY_270 => MinY case AxisZ_90 => MaxX
      case AxisZ_180 => MaxY case AxisZ_270 => MinX case EdgesXa => MinZ case EdgesXb => MaxZ
      case EdgesYa => MaxY case EdgesYb => MaxY case EdgesZa => MinX case EdgesZb => MaxX
      case CornerAAA_120 => MinX case CornerAAA_240 => MinZ case CornerABA_120 => MaxZ case CornerABA_240 => MaxX
      case CornerBAA_120 => MinZ case CornerBAA_240 => MaxX case CornerBBA_120 => MinX case CornerBBA_240 => MaxZ)
    case MaxY =>
      (match rot
      case None => MaxY case AxisX_90 => MaxZ case AxisX_180 => MinY case AxisX_270 => MinZ
      case AxisY_90 => MaxY case AxisY_180 => MaxY case AxisY_270 => MaxY case AxisZ_90 => MinX
      case AxisZ_180 => MinY case AxisZ_270 => MaxX case EdgesXa => MaxZ case EdgesXb => MinZ
      case EdgesYa => MinY case EdgesYb => MinY case EdgesZa => MaxX case EdgesZb => MinX
      case CornerAAA_120 => MaxX case CornerAAA_240 => MaxZ case CornerABA_120 => MinZ case CornerABA_240 => MinX
      case CornerBAA_120 => MaxZ case CornerBAA_240 => MinX case CornerBBA_120 => MaxX case CornerBBA_240 => MinZ)
    case MinZ =>
      (match rot
      case None => MinZ case AxisX_90 => MaxY case AxisX_180 => MaxZ case AxisX_270 => MinY
      case AxisY_90 => MinX case AxisY_180 => MaxZ case AxisY_270 => MaxX case AxisZ_90 => MinZ
      case AxisZ_180 => MinZ case AxisZ_270 => MinZ case EdgesXa => MinY case EdgesXb => MaxY
      case EdgesYa => MinX case EdgesYb => MaxX case EdgesZa => MaxZ case EdgesZb => MaxZ
      case CornerAAA_120 => MinY case CornerAAA_240 => MinX case CornerABA_120 => MinX case CornerABA_240 => MaxY
      case CornerBAA_120 => MaxX case CornerBAA_240 => MinY case CornerBBA_120 => MaxY case CornerBBA_240 => MaxX)
    case MaxZ =>
      (match rot
      case None => MaxZ case AxisX_90 => MinY case AxisX_180 => MinZ case AxisX_270 => MaxY
      case AxisY_90 => MaxX case AxisY_180 => MinZ case AxisY_270 => MinX case AxisZ_90 => MaxZ
      case AxisZ_180 => MaxZ case AxisZ_270 => MaxZ case EdgesXa => MaxY case EdgesXb => MinY
      case EdgesYa => MaxX case EdgesYb => MinX case EdgesZa => MinZ case EdgesZb => MinZ
      case CornerAAA_120 => MaxY case CornerAAA_240 => MaxX case CornerABA_120 => MaxX case CornerABA_240 => MinY
      case CornerBAA_120 => MinX case CornerBAA_240 => MaxY case CornerBBA_120 => MinY case CornerBBA_240 => MinX)
  }

  /** Transform3D::ApplyToSide: the inversion moves every side to its
      opposite, then the table gives the rotated side. */
  function ApplyToSide(t: Transform3D, side: Direction3D): Direction3D
  {
    var s := if t.Invert then GetOpposite(side) else side;
    Lookup_DirTransforms(s, t.Rot)
  }

  /** The centre of a side's face on the cube from the origin to (2, 2, 2):
      0 or 2 along the side's axis, 1 along the other two. */
  function FaceCentre(d: Direction3D): Vector3i
  {
    Vector3i(if d == MinX then 0 else if d == MaxX then 2 else 1,
             if d == MinY then 0 else if d == MaxY then 2 else 1,
             if d == MinZ then 0 else if d == MaxZ then 2 else 1)
  }

  /** The side whose face centre is c (MinX when c is no face centre). */
  function CentreSide(c: Vector3i): Direction3D
  {
    if c.x == 2 then MaxX else if c.y == 0 then MinY else if c.y == 2 then MaxY
    else if c.z == 0 then MinZ else if c.z == 2 then MaxZ else MinX
  }

  /** Each face has its own centre. */
  lemma FaceCentreSide(d: Direction3D)
    ensures CentreSide(FaceCentre(d)) == d
  {
  }

  /** A face centre lies on the face's plane: 0 or 2 along its axis. */
  lemma FaceCentreOnAxis(d: Direction3D)
    ensures FaceCentre(d).Get(GetAxisIndex(d)) == if IsMin(d) then 0 else 2
  {
  }

  lemma OppositeOfMinX()
    ensures FaceCentre(GetOpposite(MinX)) == Cube(2).Minus(FaceCentre(MinX))
  {
    assert GetOpposite(MinX) == MaxX;
  }

  lemma OppositeOfMaxX()
    ensures FaceCentre(GetOpposite(MaxX)) == Cube(2).Minus(FaceCentre(MaxX))
  {
    assert GetOpposite(MaxX) == MinX;
  }

  lemma OppositeOfMinY()
    ensures FaceCentre(GetOpposite(MinY)) == Cube(2).Minus(FaceCentre(MinY))
  {
    assert GetOpposite(MinY) == MaxY;
  }

  lemma OppositeOfMaxY()
    ensures FaceCentre(GetOpposite(MaxY)) == Cube(2).Minus(FaceCentre(MaxY))
  {
    assert GetOpposite(MaxY) == MinY;
  }

  lemma OppositeOfMinZ()
    ensures FaceCentre(GetOpposite(MinZ)) == Cube(2).Minus(FaceCentre(MinZ))
  {
    assert GetOpposite(MinZ) == MaxZ;
  }

  lemma OppositeOfMaxZ()
    ensures FaceCentre(GetOpposite(MaxZ)) == Cube(2).Minus(FaceCentre(MaxZ))
  {
    assert GetOpposite(MaxZ) == MinZ;
  }

  /** The opposite face's centre is the mirror image. */
  lemma FaceCentreOpposite(d: Direction3D)
    ensures FaceCentre(GetOpposite(d)) == Cube(2).Minus(FaceCentre(d))
  {
    match d
    case MinX => OppositeOfMinX();
    case MaxX => OppositeOfMaxX();
    case MinY => OppositeOfMinY();
    case MaxY => OppositeOfMaxY();
    case MinZ => OppositeOfMinZ();
    case MaxZ => OppositeOfMaxZ();
  }

  /** Off its own axis, a face centre is at 1. */
  lemma FaceCentreOffAxis(d: Direction3D, k: nat)
    requires k < 3 && k != GetAxisIndex(d)
    ensures FaceCentre(d).Get(k) == 1
  {
  }

  /** The table keeps every side for the identity. */
  lemma IdentitySidesAreGeometric(d: Direction3D)
    ensures FaceCentre(Lookup_DirTransforms(d, None)) == ApplyToPos(Identity, FaceCentre(d), Cube(2))
  {
    match d {
      case MinX => case MaxX => case MinY => case MaxY => case MinZ => case MaxZ =>
    }
  }

  /** The table column of one rotation against the geometry, one face at
      a time: each face's case is its own small proof, because the six
      vector equations proved together overwhelm the solver. */
  lemma FaceMinXUnderAxisX90()
    ensures FaceCentre(Lookup_DirTransforms(MinX, AxisX_90)) == ApplyToPos(Transform3D(false, AxisX_90), FaceCentre(MinX), Cube(2))
  {
  }

  lemma FaceMaxXUnderAxisX90()
    ensures FaceCentre(Lookup_DirTransforms(MaxX, AxisX_90)) == ApplyToPos(Transform3D(false, AxisX_90), FaceCentre(MaxX), Cube(2))
  {
  }

  lemma FaceMinYUnderAxisX90()
    ensures FaceCentre(Lookup_DirTransforms(MinY, AxisX_90)) == ApplyToPos(Transform3D(false, AxisX_90), FaceCentre(MinY), Cube(2))
  {
  }

  lemma FaceMaxYUnderAxisX90()
    ensures FaceCentre(Lookup_DirTransforms(MaxY, AxisX_90)) == ApplyToPos(Transform3D(false, AxisX_90), FaceCentre(MaxY), Cube(2))
  {
  }

  lemma FaceMinZUnderAxisX90()
    ensures FaceCentre(Lookup_DirTransforms(MinZ, AxisX_90)) == ApplyToPos(Transform3D(false, AxisX_90), FaceCentre(MinZ), Cube(2))
  {
  }

  lemma FaceMaxZUnderAxisX90()
    ensures FaceCentre(Lookup_DirTransforms(MaxZ, AxisX_90)) == ApplyToPos(Transform3D(false, AxisX_90), FaceCentre(MaxZ), Cube(2))
  {
  }

  lemma SidesAxisX90(d: Direction3D)
    ensures FaceCentre(Lookup_DirTransforms(d, AxisX_90)) == ApplyToPos(Transform3D(false, AxisX_90), FaceCentre(d), Cube(2))
  {
    match d
    case MinX => FaceMinXUnderAxisX90();
    case MaxX => FaceMaxXUnderAxisX90();
    case MinY => FaceMinYUnderAxisX90();
    case MaxY => FaceMaxYUnderAxisX90();
    case MinZ => FaceMinZUnderAxisX90();
    case MaxZ => FaceMaxZUnderAxisX90();
  }

  lemma FaceMinXUnderAxisX180()
    ensures FaceCentre(Lookup_DirTransforms(MinX, AxisX_180)) == ApplyToPos(Transform3D(false, AxisX_180), FaceCentre(MinX), Cube(2))
  {
  }

  lemma FaceMaxXUnderAxisX180()
    ensures FaceCentre(Lookup_DirTransforms(MaxX, AxisX_180)) == ApplyToPos(Transform3D(false, AxisX_180), FaceCentre(MaxX), Cube(2))
  {
  }

  lemma FaceMinYUnderAxisX180()
    ensures FaceCentre(Lookup_DirTransforms(MinY, AxisX_180)) == ApplyToPos(Transform3D(false, AxisX_180), FaceCentre(MinY), Cube(2))
  {
  }

  lemma FaceMaxYUnderAxisX180()
    ensures FaceCentre(Lookup_DirTransforms(MaxY, AxisX_180)) == ApplyToPos(Transform3D(false, AxisX_180), FaceCentre(MaxY), Cube(2))
  {
  }

  lemma FaceMinZUnderAxisX180()
    ensures FaceCentre(Lookup_DirTransforms(MinZ, AxisX_180)) == ApplyToPos(Transform3D(false, AxisX_180), FaceCentre(MinZ), Cube(2))
  {
  }

  lemma FaceMaxZUnderAxisX180()
    ensures FaceCentre(Lookup_DirTransforms(MaxZ, AxisX_180)) == ApplyToPos(Transform3D(false, AxisX_180), FaceCentre(MaxZ), Cube(2))
  {
  }

  lemma SidesAxisX180(d: Direction3D)
    ensures FaceCentre(Lookup_DirTransforms(d, AxisX_180)) == ApplyToPos(Transform3D(false, AxisX_180), FaceCentre(d), Cube(2))
  {
    match d
    case MinX => FaceMinXUnderAxisX180();
    case MaxX => FaceMaxXUnderAxisX180();
    case MinY => FaceMinYUnderAxisX180();
    case MaxY => FaceMaxYUnderAxisX180();
    case MinZ => FaceMinZUnderAxisX180();
    case MaxZ => FaceMaxZUnderAxisX180();
  }

  lemma FaceMinXUnderAxisX270()
    ensures FaceCentre(Lookup_DirTransforms(MinX, AxisX_270)) == ApplyToPos(Transform3D(false, AxisX_270), FaceCentre(MinX), Cube(2))
  {
  }

  lemma FaceMaxXUnderAxisX270()
    ensures FaceCentre(Lookup_DirTransforms(MaxX, AxisX_270)) == ApplyToPos(Transform3D(false, AxisX_270), FaceCentre(MaxX), Cube(2))
  {
  }

  lemma FaceMinYUnderAxisX270()
    ensures FaceCentre(Lookup_DirTransforms(MinY, AxisX_270)) == ApplyToPos(Transform3D(false, AxisX_270), FaceCentre(MinY), Cube(2))
  {
  }

  lemma FaceMaxYUnderAxisX270()
    ensures FaceCentre(Lookup_DirTransforms(MaxY, AxisX_270)) == ApplyToPos(Transform3D(false, AxisX_270), FaceCentre(MaxY), Cube(2))
  {
  }

  lemma FaceMinZUnderAxisX270()
    ensures FaceCentre(Lookup_DirTransforms(MinZ, AxisX_270)) == ApplyToPos(Transform3D(false, AxisX_270), FaceCentre(MinZ), Cube(2))
  {
  }

  lemma FaceMaxZUnderAxisX270()
    ensures FaceCentre(Lookup_DirTransforms(MaxZ, AxisX_270)) == ApplyToPos(Transform3D(false, AxisX_270), FaceCentre(MaxZ), Cube(2))
  {
  }

  lemma SidesAxisX270(d: Direction3D)
    ensures FaceCentre(Lookup_DirTransforms(d, AxisX_270)) == ApplyToPos(Transform3D(false, AxisX_270), FaceCentre(d), Cube(2))
  {
    match d
    case MinX => FaceMinXUnderAxisX270();
    case MaxX => FaceMaxXUnderAxisX270();
    case MinY => FaceMinYUnderAxisX270();
    case MaxY => FaceMaxYUnderAxisX270();
    case MinZ => FaceMinZUnderAxisX270();
    case MaxZ => FaceMaxZUnderAxisX270();
  }

  lemma AxisXSidesAreGeometric(r: Rotations3D, d: Direction3D)
    requires r.AxisX_90? || r.AxisX_180? || r.AxisX_270?
    ensures FaceCentre(Lookup_DirTransforms(d, r)) == ApplyToPos(Transform3D(false, r), FaceCentre(d), Cube(2))
  {
    match r
    case AxisX_90 => SidesAxisX90(d);
    case AxisX_180 => SidesAxisX180(d);
    case AxisX_270 => SidesAxisX270(d);
  }

  /** The table agrees with the geometry for the turns about the Y axis. */
  lemma FaceMinXUnderAxisY90()
    ensures FaceCentre(Lookup_DirTransforms(MinX, AxisY_90)) == ApplyToPos(Transform3D(false, AxisY_90), FaceCentre(MinX), Cube(2))
  {
  }

  lemma FaceMaxXUnderAxisY90()
    ensures FaceCentre(Lookup_DirTransforms(MaxX, AxisY_90)) == ApplyToPos(Transform3D(false, AxisY_90), FaceCentre(MaxX), Cube(2))
  {
  }

  lemma FaceMinYUnderAxisY90()
    ensures FaceCentre(Lookup_DirTransforms(MinY, AxisY_90)) == ApplyToPos(Transform3D(false, AxisY_90), FaceCentre(MinY), Cube(2))
  {
  }

  lemma FaceMaxYUnderAxisY90()
    ensures FaceCentre(Lookup_DirTransforms(MaxY, AxisY_90)) == ApplyToPos(Transform3D(false, AxisY_90), FaceCentre(MaxY), Cube(2))
  {
  }

  lemma FaceMinZUnderAxisY90()
    ensures FaceCentre(Lookup_DirTransforms(MinZ, AxisY_90)) == ApplyToPos(Transform3D(false, AxisY_90), FaceCentre(MinZ), Cube(2))
  {
  }

  lemma FaceMaxZUnderAxisY90()
    ensures FaceCentre(Lookup_DirTransforms(MaxZ, AxisY_90)) == ApplyToPos(Transform3D(false, AxisY_90), FaceCentre(MaxZ), Cube(2))
  {
  }

  lemma SidesAxisY90(d: Direction3D)
    ensures FaceCentre(Lookup_DirTransforms(d, AxisY_90)) == ApplyToPos(Transform3D(false, AxisY_90), FaceCentre(d), Cube(2))
  {
    match d
    case MinX => FaceMinXUnderAxisY90();
    case MaxX => FaceMaxXUnderAxisY90();
    case MinY => FaceMinYUnderAxisY90();
    case MaxY => FaceMaxYUnderAxisY90();
    case MinZ => FaceMinZUnderAxisY90();
    case MaxZ => FaceMaxZUnderAxisY90();
  }

  lemma FaceMinXUnderAxisY180()
    ensures FaceCentre(Lookup_DirTransforms(MinX, AxisY_180)) == ApplyToPos(Transform3D(false, AxisY_180), FaceCentre(MinX), Cube(2))
  {
  }

  lemma FaceMaxXUnderAxisY180()
    ensures FaceCentre(Lookup_DirTransforms(MaxX, AxisY_180)) == ApplyToPos(Transform3D(false, AxisY_180), FaceCentre(MaxX), Cube(2))
  {
  }

  lemma FaceMinYUnderAxisY180()
    ensures FaceCentre(Lookup_DirTransforms(MinY, AxisY_180)) == ApplyToPos(Transform3D(false, AxisY_180), FaceCentre(MinY), Cube(2))
  {
  }

  lemma FaceMaxYUnderAxisY180()
    ensures FaceCentre(Lookup_DirTransforms(MaxY, AxisY_180)) == ApplyToPos(Transform3D(false, AxisY_180), FaceCentre(MaxY), Cube(2))
  {
  }

  lemma FaceMinZUnderAxisY180()
    ensures FaceCentre(Lookup_DirTransforms(MinZ, AxisY_180)) == ApplyToPos(Transform3D(false, AxisY_180), FaceCentre(MinZ), Cube(2))
  {
  }

  lemma FaceMaxZUnderAxisY180()
    ensures FaceCentre(Lookup_DirTransforms(MaxZ, AxisY_180)) == ApplyToPos(Transform3D(false, AxisY_180), FaceCentre(MaxZ), Cube(2))
  {
  }

  lemma SidesAxisY180(d: Direction3D)
    ensures FaceCentre(Lookup_DirTransforms(d, AxisY_180)) == ApplyToPos(Transform3D(false, AxisY_180), FaceCentre(d), Cube(2))
  {
    match d
    case MinX => FaceMinXUnderAxisY180();
    case MaxX => FaceMaxXUnderAxisY180();
    case MinY => FaceMinYUnderAxisY180();
    case MaxY => FaceMaxYUnderAxisY180();
    case MinZ => FaceMinZUnderAxisY180();
    case MaxZ => FaceMaxZUnderAxisY180();
  }

  lemma FaceMinXUnderAxisY270()
    ensures FaceCentre(Lookup_DirTransforms(MinX, AxisY_270)) == ApplyToPos(Transform3D(false, AxisY_270), FaceCentre(MinX), Cube(2))
  {
  }

  lemma FaceMaxXUnderAxisY270()
    ensures FaceCentre(Lookup_DirTransforms(MaxX, AxisY_270)) == ApplyToPos(Transform3D(false, AxisY_270), FaceCentre(MaxX), Cube(2))
  {
  }

  lemma FaceMinYUnderAxisY270()
    ensures FaceCentre(Lookup_DirTransforms(MinY, AxisY_270)) == ApplyToPos(Transform3D(false, AxisY_270), FaceCentre(MinY), Cube(2))
  {
  }

  lemma FaceMaxYUnderAxisY270()
    ensures FaceCentre(Lookup_DirTransforms(MaxY, AxisY_270)) == ApplyToPos(Transform3D(false, AxisY_270), FaceCentre(MaxY), Cube(2))
  {
  }

  lemma FaceMinZUnderAxisY270()
    ensures FaceCentre(Lookup_DirTransforms(MinZ, AxisY_270)) == ApplyToPos(Transform3D(false, AxisY_270), FaceCentre(MinZ), Cube(2))
  {
  }

  lemma FaceMaxZUnderAxisY270()
    ensures FaceCentre(Lookup_DirTransforms(MaxZ, AxisY_270)) == ApplyToPos(Transform3D(false, AxisY_270), FaceCentre(MaxZ), Cube(2))
  {
  }

  lemma SidesAxisY270(d: Direction3D)
    ensures FaceCentre(Lookup_DirTransforms(d, AxisY_270)) == ApplyToPos(Transform3D(false, AxisY_270), FaceCentre(d), Cube(2))
  {
    match d
    case MinX => FaceMinXUnderAxisY270();
    case MaxX => FaceMaxXUnderAxisY270();
    case MinY => FaceMinYUnderAxisY270();
    case MaxY => FaceMaxYUnderAxisY270();
    case MinZ => FaceMinZUnderAxisY270();
    case MaxZ => FaceMaxZUnderAxisY270();
  }

  lemma AxisYSidesAreGeometric(r: Rotations3D, d: Direction3D)
    requires r.AxisY_90? || r.AxisY_180? || r.AxisY_270?
    ensures FaceCentre(Lookup_DirTransforms(d, r)) == ApplyToPos(Transform3D(false, r), FaceCentre(d), Cube(2))
  {
    match r
    case AxisY_90 => SidesAxisY90(d);
    case AxisY_180 => SidesAxisY180(d);
    case AxisY_270 => SidesAxisY270(d);
  }

  /** The table agrees with the geometry for the turns about the Z axis. */
  lemma FaceMinXUnderAxisZ90()
    ensures FaceCentre(Lookup_DirTransforms(MinX, AxisZ_90)) == ApplyToPos(Transform3D(false, AxisZ_90), FaceCentre(MinX), Cube(2))
  {
  }

  lemma FaceMaxXUnderAxisZ90()
    ensures FaceCentre(Lookup_DirTransforms(MaxX, AxisZ_90)) == ApplyToPos(Transform3D(false, AxisZ_90), FaceCentre(MaxX), Cube(2))
  {
  }

  lemma FaceMinYUnderAxisZ90()
    ensures FaceCentre(Lookup_DirTransforms(MinY, AxisZ_90)) == ApplyToPos(Transform3D(false, AxisZ_90), FaceCentre(MinY), Cube(2))
  {
  }

  lemma FaceMaxYUnderAxisZ90()
    ensures FaceCentre(Lookup_DirTransforms(MaxY, AxisZ_90)) == ApplyToPos(Transform3D(false, AxisZ_90), FaceCentre(MaxY), Cube(2))
  {
  }

  lemma FaceMinZUnderAxisZ90()
    ensures FaceCentre(Lookup_DirTransforms(MinZ, AxisZ_90)) == ApplyToPos(Transform3D(false, AxisZ_90), FaceCentre(MinZ), Cube(2))
  {
  }

  lemma FaceMaxZUnderAxisZ90()
    ensures FaceCentre(Lookup_DirTransforms(MaxZ, AxisZ_90)) == ApplyToPos(Transform3D(false, AxisZ_90), FaceCentre(MaxZ), Cube(2))
  {
  }

  lemma SidesAxisZ90(d: Direction3D)
    ensures FaceCentre(Lookup_DirTransforms(d, AxisZ_90)) == ApplyToPos(Transform3D(false, AxisZ_90), FaceCentre(d), Cube(2))
  {
    match d
    case MinX => FaceMinXUnderAxisZ90();
    case MaxX => FaceMaxXUnderAxisZ90();
    case MinY => FaceMinYUnderAxisZ90();
    case MaxY => FaceMaxYUnderAxisZ90();
    case MinZ => FaceMinZUnderAxisZ90();
    case MaxZ => FaceMaxZUnderAxisZ90();
  }

  lemma FaceMinXUnderAxisZ180()
    ensures FaceCentre(Lookup_DirTransforms(MinX, AxisZ_180)) == ApplyToPos(Transform3D(false, AxisZ_180), FaceCentre(MinX), Cube(2))
  {
  }

  lemma FaceMaxXUnderAxisZ180()
    ensures FaceCentre(Lookup_DirTransforms(MaxX, AxisZ_180)) == ApplyToPos(Transform3D(false, AxisZ_180), FaceCentre(MaxX), Cube(2))
  {
  }

  lemma FaceMinYUnderAxisZ180()
    ensures FaceCentre(Lookup_DirTransforms(MinY, AxisZ_180)) == ApplyToPos(Transform3D(false, AxisZ_180), FaceCentre(MinY), Cube(2))
  {
  }

  lemma FaceMaxYUnderAxisZ180()
    ensures FaceCentre(Lookup_DirTransforms(MaxY, AxisZ_180)) == ApplyToPos(Transform3D(false, AxisZ_180), FaceCentre(MaxY), Cube(2))
  {
  }

  lemma FaceMinZUnderAxisZ180()
    ensures FaceCentre(Lookup_DirTransforms(MinZ, AxisZ_180)) == ApplyToPos(Transform3D(false, AxisZ_180), FaceCentre(MinZ), Cube(2))
  {
  }

  lemma FaceMaxZUnderAxisZ180()
    ensures FaceCentre(Lookup_DirTransforms(MaxZ, AxisZ_180)) == ApplyToPos(Transform3D(false, AxisZ_180), FaceCentre(MaxZ), Cube(2))
  {
  }

  lemma SidesAxisZ180(d: Direction3D)
    ensures FaceCentre(Lookup_DirTransforms(d, AxisZ_180)) == ApplyToPos(Transform3D(false, AxisZ_180), FaceCentre(d), Cube(2))
  {
    match d
    case MinX => FaceMinXUnderAxisZ180();
    case MaxX => FaceMaxXUnderAxisZ180();
    case MinY => FaceMinYUnderAxisZ180();
    case MaxY => FaceMaxYUnderAxisZ180();
    case MinZ => FaceMinZUnderAxisZ180();
    case MaxZ => FaceMaxZUnderAxisZ180();
  }

  lemma FaceMinXUnderAxisZ270()
    ensures FaceCentre(Lookup_DirTransforms(MinX, AxisZ_270)) == ApplyToPos(Transform3D(false, AxisZ_270), FaceCentre(MinX), Cube(2))
  {
  }

  lemma FaceMaxXUnderAxisZ270()
    ensures FaceCentre(Lookup_DirTransforms(MaxX, AxisZ_270)) == ApplyToPos(Transform3D(false, AxisZ_270), FaceCentre(MaxX), Cube(2))
  {
  }

  lemma FaceMinYUnderAxisZ270()
    ensures FaceCentre(Lookup_DirTransforms(MinY, AxisZ_270)) == ApplyToPos(Transform3D(false, AxisZ_270), FaceCentre(MinY), Cube(2))
  {
  }

  lemma FaceMaxYUnderAxisZ270()
    ensures FaceCentre(Lookup_DirTransforms(MaxY, AxisZ_270)) == ApplyToPos(Transform3D(false, AxisZ_270), FaceCentre(MaxY), Cube(2))
  {
  }

  lemma FaceMinZUnderAxisZ270()
    ensures FaceCentre(Lookup_DirTransforms(MinZ, AxisZ_270)) == ApplyToPos(Transform3D(false, AxisZ_270), FaceCentre(MinZ), Cube(2))
  {
  }

  lemma FaceMaxZUnderAxisZ270()
    ensures FaceCentre(Lookup_DirTransforms(MaxZ, AxisZ_270)) == ApplyToPos(Transform3D(false, AxisZ_270), FaceCentre(MaxZ), Cube(2))
  {
  }

  lemma SidesAxisZ270(d: Direction3D)
    ensures FaceCentre(Lookup_DirTransforms(d, AxisZ_270)) == ApplyToPos(Transform3D(false, AxisZ_270), FaceCentre(d), Cube(2))
  {
    match d
    case MinX => FaceMinXUnderAxisZ270();
    case MaxX => FaceMaxXUnderAxisZ270();
    case MinY => FaceMinYUnderAxisZ270();
    case MaxY => FaceMaxYUnderAxisZ270();
    case MinZ => FaceMinZUnderAxisZ270();
    case MaxZ => FaceMaxZUnderAxisZ270();
  }

  lemma AxisZSidesAreGeometric(r: Rotations3D, d: Direction3D)
    requires r.AxisZ_90? || r.AxisZ_180? || r.AxisZ_270?
    ensures FaceCentre(Lookup_DirTransforms(d, r)) == ApplyToPos(Transform3D(false, r), FaceCentre(d), Cube(2))
  {
    match r
    case AxisZ_90 => SidesAxisZ90(d);
    case AxisZ_180 => SidesAxisZ180(d);
    case AxisZ_270 => SidesAxisZ270(d);
  }

  /** The table agrees with the geometry for the edge rotations. */
  lemma FaceMinXUnderEdgesXa()
    ensures FaceCentre(Lookup_DirTransforms(MinX, EdgesXa)) == ApplyToPos(Transform3D(false, EdgesXa), FaceCentre(MinX), Cube(2))
  {
  }

  lemma FaceMaxXUnderEdgesXa()
    ensures FaceCentre(Lookup_DirTransforms(MaxX, EdgesXa)) == ApplyToPos(Transform3D(false, EdgesXa), FaceCentre(MaxX), Cube(2))
  {
  }

  lemma FaceMinYUnderEdgesXa()
    ensures FaceCentre(Lookup_DirTransforms(MinY, EdgesXa)) == ApplyToPos(Transform3D(false, EdgesXa), FaceCentre(MinY), Cube(2))
  {
  }

  lemma FaceMaxYUnderEdgesXa()
    ensures FaceCentre(Lookup_DirTransforms(MaxY, EdgesXa)) == ApplyToPos(Transform3D(false, EdgesXa), FaceCentre(MaxY), Cube(2))
  {
  }

  lemma FaceMinZUnderEdgesXa()
    ensures FaceCentre(Lookup_DirTransforms(MinZ, EdgesXa)) == ApplyToPos(Transform3D(false, EdgesXa), FaceCentre(MinZ), Cube(2))
  {
  }

  lemma FaceMaxZUnderEdgesXa()
    ensures FaceCentre(Lookup_DirTransforms(MaxZ, EdgesXa)) == ApplyToPos(Transform3D(false, EdgesXa), FaceCentre(MaxZ), Cube(2))
  {
  }

  lemma SidesEdgesXa(d: Direction3D)
    ensures FaceCentre(Lookup_DirTransforms(d, EdgesXa)) == ApplyToPos(Transform3D(false, EdgesXa), FaceCentre(d), Cube(2))
  {
    match d
    case MinX => FaceMinXUnderEdgesXa();
    case MaxX => FaceMaxXUnderEdgesXa();
    case MinY => FaceMinYUnderEdgesXa();
    case MaxY => FaceMaxYUnderEdgesXa();
    case MinZ => FaceMinZUnderEdgesXa();
    case MaxZ => FaceMaxZUnderEdgesXa();
  }

  lemma FaceMinXUnderEdgesXb()
    ensures FaceCentre(Lookup_DirTransforms(MinX, EdgesXb)) == ApplyToPos(Transform3D(false, EdgesXb), FaceCentre(MinX), Cube(2))
  {
  }

  lemma FaceMaxXUnderEdgesXb()
    ensures FaceCentre(Lookup_DirTransforms(MaxX, EdgesXb)) == ApplyToPos(Transform3D(false, EdgesXb), FaceCentre(MaxX), Cube(2))
  {
  }

  lemma FaceMinYUnderEdgesXb()
    ensures FaceCentre(Lookup_DirTransforms(MinY, EdgesXb)) == ApplyToPos(Transform3D(false, EdgesXb), FaceCentre(MinY), Cube(2))
  {
  }

  lemma FaceMaxYUnderEdgesXb()
    ensures FaceCentre(Lookup_DirTransforms(MaxY, EdgesXb)) == ApplyToPos(Transform3D(false, EdgesXb), FaceCentre(MaxY), Cube(2))
  {
  }

  lemma FaceMinZUnderEdgesXb()
    ensures FaceCentre(Lookup_DirTransforms(MinZ, EdgesXb)) == ApplyToPos(Transform3D(false, EdgesXb), FaceCentre(MinZ), Cube(2))
  {
  }

  lemma FaceMaxZUnderEdgesXb()
    ensures FaceCentre(Lookup_DirTransforms(MaxZ, EdgesXb)) == ApplyToPos(Transform3D(false, EdgesXb), FaceCentre(MaxZ), Cube(2))
  {
  }

  lemma SidesEdgesXb(d: Direction3D)
    ensures FaceCentre(Lookup_DirTransforms(d, EdgesXb)) == ApplyToPos(Transform3D(false, EdgesXb), FaceCentre(d), Cube(2))
  {
    match d
    case MinX => FaceMinXUnderEdgesXb();
    case MaxX => FaceMaxXUnderEdgesXb();
    case MinY => FaceMinYUnderEdgesXb();
    case MaxY => FaceMaxYUnderEdgesXb();
    case MinZ => FaceMinZUnderEdgesXb();
    case MaxZ => FaceMaxZUnderEdgesXb();
  }

  lemma FaceMinXUnderEdgesYa()
    ensures FaceCentre(Lookup_DirTransforms(MinX, EdgesYa)) == ApplyToPos(Transform3D(false, EdgesYa), FaceCentre(MinX), Cube(2))
  {
  }

  lemma FaceMaxXUnderEdgesYa()
    ensures FaceCentre(Lookup_DirTransforms(MaxX, EdgesYa)) == ApplyToPos(Transform3D(false, EdgesYa), FaceCentre(MaxX), Cube(2))
  {
  }

  lemma FaceMinYUnderEdgesYa()
    ensures FaceCentre(Lookup_DirTransforms(MinY, EdgesYa)) == ApplyToPos(Transform3D(false, EdgesYa), FaceCentre(MinY), Cube(2))
  {
  }

  lemma FaceMaxYUnderEdgesYa()
    ensures FaceCentre(Lookup_DirTransforms(MaxY, EdgesYa)) == ApplyToPos(Transform3D(false, EdgesYa), FaceCentre(MaxY), Cube(2))
  {
  }

  lemma FaceMinZUnderEdgesYa()
    ensures FaceCentre(Lookup_DirTransforms(MinZ, EdgesYa)) == ApplyToPos(Transform3D(false, EdgesYa), FaceCentre(MinZ), Cube(2))
  {
  }

  lemma FaceMaxZUnderEdgesYa()
    ensures FaceCentre(Lookup_DirTransforms(MaxZ, EdgesYa)) == ApplyToPos(Transform3D(false, EdgesYa), FaceCentre(MaxZ), Cube(2))
  {
  }

  lemma SidesEdgesYa(d: Direction3D)
    ensures FaceCentre(Lookup_DirTransforms(d, EdgesYa)) == ApplyToPos(Transform3D(false, EdgesYa), FaceCentre(d), Cube(2))
  {
    match d
    case MinX => FaceMinXUnderEdgesYa();
    case MaxX => FaceMaxXUnderEdgesYa();
    case MinY => FaceMinYUnderEdgesYa();
    case MaxY => FaceMaxYUnderEdgesYa();
    case MinZ => FaceMinZUnderEdgesYa();
    case MaxZ => FaceMaxZUnderEdgesYa();
  }

  lemma FaceMinXUnderEdgesYb()
    ensures FaceCentre(Lookup_DirTransforms(MinX, EdgesYb)) == ApplyToPos(Transform3D(false, EdgesYb), FaceCentre(MinX), Cube(2))
  {
  }

  lemma FaceMaxXUnderEdgesYb()
    ensures FaceCentre(Lookup_DirTransforms(MaxX, EdgesYb)) == ApplyToPos(Transform3D(false, EdgesYb), FaceCentre(MaxX), Cube(2))
  {
  }

  lemma FaceMinYUnderEdgesYb()
    ensures FaceCentre(Lookup_DirTransforms(MinY, EdgesYb)) == ApplyToPos(Transform3D(false, EdgesYb), FaceCentre(MinY), Cube(2))
  {
  }

  lemma FaceMaxYUnderEdgesYb()
    ensures FaceCentre(Lookup_DirTransforms(MaxY, EdgesYb)) == ApplyToPos(Transform3D(false, EdgesYb), FaceCentre(MaxY), Cube(2))
  {
  }

  lemma FaceMinZUnderEdgesYb()
    ensures FaceCentre(Lookup_DirTransforms(MinZ, EdgesYb)) == ApplyToPos(Transform3D(false, EdgesYb), FaceCentre(MinZ), Cube(2))
  {
  }

  lemma FaceMaxZUnderEdgesYb()
    ensures FaceCentre(Lookup_DirTransforms(MaxZ, EdgesYb)) == ApplyToPos(Transform3D(false, EdgesYb), FaceCentre(MaxZ), Cube(2))
  {
  }

  lemma SidesEdgesYb(d: Direction3D)
    ensures FaceCentre(Lookup_DirTransforms(d, EdgesYb)) == ApplyToPos(Transform3D(false, EdgesYb), FaceCentre(d), Cube(2))
  {
    match d
    case MinX => FaceMinXUnderEdgesYb();
    case MaxX => FaceMaxXUnderEdgesYb();
    case MinY => FaceMinYUnderEdgesYb();
    case MaxY => FaceMaxYUnderEdgesYb();
    case MinZ => FaceMinZUnderEdgesYb();
    case MaxZ => FaceMaxZUnderEdgesYb();
  }

  lemma FaceMinXUnderEdgesZa()
    ensures FaceCentre(Lookup_DirTransforms(MinX, EdgesZa)) == ApplyToPos(Transform3D(false, EdgesZa), FaceCentre(MinX), Cube(2))
  {
  }

  lemma FaceMaxXUnderEdgesZa()
    ensures FaceCentre(Lookup_DirTransforms(MaxX, EdgesZa)) == ApplyToPos(Transform3D(false, EdgesZa), FaceCentre(MaxX), Cube(2))
  {
  }

  lemma FaceMinYUnderEdgesZa()
    ensures FaceCentre(Lookup_DirTransforms(MinY, EdgesZa)) == ApplyToPos(Transform3D(false, EdgesZa), FaceCentre(MinY), Cube(2))
  {
  }

  lemma FaceMaxYUnderEdgesZa()
    ensures FaceCentre(Lookup_DirTransforms(MaxY, EdgesZa)) == ApplyToPos(Transform3D(false, EdgesZa), FaceCentre(MaxY), Cube(2))
  {
  }

  lemma FaceMinZUnderEdgesZa()
    ensures FaceCentre(Lookup_DirTransforms(MinZ, EdgesZa)) == ApplyToPos(Transform3D(false, EdgesZa), FaceCentre(MinZ), Cube(2))
  {
  }

  lemma FaceMaxZUnderEdgesZa()
    ensures FaceCentre(Lookup_DirTransforms(MaxZ, EdgesZa)) == ApplyToPos(Transform3D(false, EdgesZa), FaceCentre(MaxZ), Cube(2))
  {
  }

  lemma SidesEdgesZa(d: Direction3D)
    ensures FaceCentre(Lookup_DirTransforms(d, EdgesZa)) == ApplyToPos(Transform3D(false, EdgesZa), FaceCentre(d), Cube(2))
  {
    match d
    case MinX => FaceMinXUnderEdgesZa();
    case MaxX => FaceMaxXUnderEdgesZa();
    case MinY => FaceMinYUnderEdgesZa();
    case MaxY => FaceMaxYUnderEdgesZa();
    case MinZ => FaceMinZUnderEdgesZa();
    case MaxZ => FaceMaxZUnderEdgesZa();
  }

  lemma FaceMinXUnderEdgesZb()
    ensures FaceCentre(Lookup_DirTransforms(MinX, EdgesZb)) == ApplyToPos(Transform3D(false, EdgesZb), FaceCentre(MinX), Cube(2))
  {
  }

  lemma FaceMaxXUnderEdgesZb()
    ensures FaceCentre(Lookup_DirTransforms(MaxX, EdgesZb)) == ApplyToPos(Transform3D(false, EdgesZb), FaceCentre(MaxX), Cube(2))
  {
  }

  lemma FaceMinYUnderEdgesZb()
    ensures FaceCentre(Lookup_DirTransforms(MinY, EdgesZb)) == ApplyToPos(Transform3D(false, EdgesZb), FaceCentre(MinY), Cube(2))
  {
  }

  lemma FaceMaxYUnderEdgesZb()
    ensures FaceCentre(Lookup_DirTransforms(MaxY, EdgesZb)) == ApplyToPos(Transform3D(false, EdgesZb), FaceCentre(MaxY), Cube(2))
  {
  }

  lemma FaceMinZUnderEdgesZb()
    ensures FaceCentre(Lookup_DirTransforms(MinZ, EdgesZb)) == ApplyToPos(Transform3D(false, EdgesZb), FaceCentre(MinZ), Cube(2))
  {
  }

  lemma FaceMaxZUnderEdgesZb()
    ensures FaceCentre(Lookup_DirTransforms(MaxZ, EdgesZb)) == ApplyToPos(Transform3D(false, EdgesZb), FaceCentre(MaxZ), Cube(2))
  {
  }

  lemma SidesEdgesZb(d: Direction3D)
    ensures FaceCentre(Lookup_DirTransforms(d, EdgesZb)) == ApplyToPos(Transform3D(false, EdgesZb), FaceCentre(d), Cube(2))
  {
    match d
    case MinX => FaceMinXUnderEdgesZb();
    case MaxX => FaceMaxXUnderEdgesZb();
    case MinY => FaceMinYUnderEdgesZb();
    case MaxY => FaceMaxYUnderEdgesZb();
    case MinZ => FaceMinZUnderEdgesZb();
    case MaxZ => FaceMaxZUnderEdgesZb();
  }

  lemma EdgesSidesAreGeometric(r: Rotations3D, d: Direction3D)
    requires r.EdgesXa? || r.EdgesXb? || r.EdgesYa? || r.EdgesYb? || r.EdgesZa? || r.EdgesZb?
    ensures FaceCentre(Lookup_DirTransforms(d, r)) == ApplyToPos(Transform3D(false, r), FaceCentre(d), Cube(2))
  {
    match r
    case EdgesXa => SidesEdgesXa(d);
    case EdgesXb => SidesEdgesXb(d);
    case EdgesYa => SidesEdgesYa(d);
    case EdgesYb => SidesEdgesYb(d);
    case EdgesZa => SidesEdgesZa(d);
    case EdgesZb => SidesEdgesZb(d);
  }

  /** The table agrees with the geometry for the rotations about the corners AAA and ABA. */
  lemma FaceMinXUnderCornerAAA120()
    ensures FaceCentre(Lookup_DirTransforms(MinX, CornerAAA_120)) == ApplyToPos(Transform3D(false, CornerAAA_120), FaceCentre(MinX), Cube(2))
  {
  }

  lemma FaceMaxXUnderCornerAAA120()
    ensures FaceCentre(Lookup_DirTransforms(MaxX, CornerAAA_120)) == ApplyToPos(Transform3D(false, CornerAAA_120), FaceCentre(MaxX), Cube(2))
  {
  }

  lemma FaceMinYUnderCornerAAA120()
    ensures FaceCentre(Lookup_DirTransforms(MinY, CornerAAA_120)) == ApplyToPos(Transform3D(false, CornerAAA_120), FaceCentre(MinY), Cube(2))
  {
  }

  lemma FaceMaxYUnderCornerAAA120()
    ensures FaceCentre(Lookup_DirTransforms(MaxY, CornerAAA_120)) == ApplyToPos(Transform3D(false, CornerAAA_120), FaceCentre(MaxY), Cube(2))
  {
  }

  lemma FaceMinZUnderCornerAAA120()
    ensures FaceCentre(Lookup_DirTransforms(MinZ, CornerAAA_120)) == ApplyToPos(Transform3D(false, CornerAAA_120), FaceCentre(MinZ), Cube(2))
  {
  }

  lemma FaceMaxZUnderCornerAAA120()
    ensures FaceCentre(Lookup_DirTransforms(MaxZ, CornerAAA_120)) == ApplyToPos(Transform3D(false, CornerAAA_120), FaceCentre(MaxZ), Cube(2))
  {
  }

  lemma SidesCornerAAA120(d: Direction3D)
    ensures FaceCentre(Lookup_DirTransforms(d, CornerAAA_120)) == ApplyToPos(Transform3D(false, CornerAAA_120), FaceCentre(d), Cube(2))
  {
    match d
    case MinX => FaceMinXUnderCornerAAA120();
    case MaxX => FaceMaxXUnderCornerAAA120();
    case MinY => FaceMinYUnderCornerAAA120();
    case MaxY => FaceMaxYUnderCornerAAA120();
    case MinZ => FaceMinZUnderCornerAAA120();
    case MaxZ => FaceMaxZUnderCornerAAA120();
  }

  lemma FaceMinXUnderCornerAAA240()
    ensures FaceCentre(Lookup_DirTransforms(MinX, CornerAAA_240)) == ApplyToPos(Transform3D(false, CornerAAA_240), FaceCentre(MinX), Cube(2))
  {
  }

  lemma FaceMaxXUnderCornerAAA240()
    ensures FaceCentre(Lookup_DirTransforms(MaxX, CornerAAA_240)) == ApplyToPos(Transform3D(false, CornerAAA_240), FaceCentre(MaxX), Cube(2))
  {
  }

  lemma FaceMinYUnderCornerAAA240()
    ensures FaceCentre(Lookup_DirTransforms(MinY, CornerAAA_240)) == ApplyToPos(Transform3D(false, CornerAAA_240), FaceCentre(MinY), Cube(2))
  {
  }

  lemma FaceMaxYUnderCornerAAA240()
    ensures FaceCentre(Lookup_DirTransforms(MaxY, CornerAAA_240)) == ApplyToPos(Transform3D(false, CornerAAA_240), FaceCentre(MaxY), Cube(2))
  {
  }

  lemma FaceMinZUnderCornerAAA240()
    ensures FaceCentre(Lookup_DirTransforms(MinZ, CornerAAA_240)) == ApplyToPos(Transform3D(false, CornerAAA_240), FaceCentre(MinZ), Cube(2))
  {
  }

  lemma FaceMaxZUnderCornerAAA240()
    ensures FaceCentre(Lookup_DirTransforms(MaxZ, CornerAAA_240)) == ApplyToPos(Transform3D(false, CornerAAA_240), FaceCentre(MaxZ), Cube(2))
  {
  }

  lemma SidesCornerAAA240(d: Direction3D)
    ensures FaceCentre(Lookup_DirTransforms(d, CornerAAA_240)) == ApplyToPos(Transform3D(false, CornerAAA_240), FaceCentre(d), Cube(2))
  {
    match d
    case MinX => FaceMinXUnderCornerAAA240();
    case MaxX => FaceMaxXUnderCornerAAA240();
    case MinY => FaceMinYUnderCornerAAA240();
    case MaxY => FaceMaxYUnderCornerAAA240();
    case MinZ => FaceMinZUnderCornerAAA240();
    case MaxZ => FaceMaxZUnderCornerAAA240();
  }

  lemma FaceMinXUnderCornerABA120()
    ensures FaceCentre(Lookup_DirTransforms(MinX, CornerABA_120)) == ApplyToPos(Transform3D(false, CornerABA_120), FaceCentre(MinX), Cube(2))
  {
  }

  lemma FaceMaxXUnderCornerABA120()
    ensures FaceCentre(Lookup_DirTransforms(MaxX, CornerABA_120)) == ApplyToPos(Transform3D(false, CornerABA_120), FaceCentre(MaxX), Cube(2))
  {
  }

  lemma FaceMinYUnderCornerABA120()
    ensures FaceCentre(Lookup_DirTransforms(MinY, CornerABA_120)) == ApplyToPos(Transform3D(false, CornerABA_120), FaceCentre(MinY), Cube(2))
  {
  }

  lemma FaceMaxYUnderCornerABA120()
    ensures FaceCentre(Lookup_DirTransforms(MaxY, CornerABA_120)) == ApplyToPos(Transform3D(false, CornerABA_120), FaceCentre(MaxY), Cube(2))
  {
  }

  lemma FaceMinZUnderCornerABA120()
    ensures FaceCentre(Lookup_DirTransforms(MinZ, CornerABA_120)) == ApplyToPos(Transform3D(false, CornerABA_120), FaceCentre(MinZ), Cube(2))
  {
  }

  lemma FaceMaxZUnderCornerABA120()
    ensures FaceCentre(Lookup_DirTransforms(MaxZ, CornerABA_120)) == ApplyToPos(Transform3D(false, CornerABA_120), FaceCentre(MaxZ), Cube(2))
  {
  }

  lemma SidesCornerABA120(d: Direction3D)
    ensures FaceCentre(Lookup_DirTransforms(d, CornerABA_120)) == ApplyToPos(Transform3D(false, CornerABA_120), FaceCentre(d), Cube(2))
  {
    match d
    case MinX => FaceMinXUnderCornerABA120();
    case MaxX => FaceMaxXUnderCornerABA120();
    case MinY => FaceMinYUnderCornerABA120();
    case MaxY => FaceMaxYUnderCornerABA120();
    case MinZ => FaceMinZUnderCornerABA120();
    case MaxZ => FaceMaxZUnderCornerABA120();
  }

  lemma FaceMinXUnderCornerABA240()
    ensures FaceCentre(Lookup_DirTransforms(MinX, CornerABA_240)) == ApplyToPos(Transform3D(false, CornerABA_240), FaceCentre(MinX), Cube(2))
  {
  }

  lemma FaceMaxXUnderCornerABA240()
    ensures FaceCentre(Lookup_DirTransforms(MaxX, CornerABA_240)) == ApplyToPos(Transform3D(false, CornerABA_240), FaceCentre(MaxX), Cube(2))
  {
  }

  lemma FaceMinYUnderCornerABA240()
    ensures FaceCentre(Lookup_DirTransforms(MinY, CornerABA_240)) == ApplyToPos(Transform3D(false, CornerABA_240), FaceCentre(MinY), Cube(2))
  {
  }

  lemma FaceMaxYUnderCornerABA240()
    ensures FaceCentre(Lookup_DirTransforms(MaxY, CornerABA_240)) == ApplyToPos(Transform3D(false, CornerABA_240), FaceCentre(MaxY), Cube(2))
  {
  }

  lemma FaceMinZUnderCornerABA240()
    ensures FaceCentre(Lookup_DirTransforms(MinZ, CornerABA_240)) == ApplyToPos(Transform3D(false, CornerABA_240), FaceCentre(MinZ), Cube(2))
  {
  }

  lemma FaceMaxZUnderCornerABA240()
    ensures FaceCentre(Lookup_DirTransforms(MaxZ, CornerABA_240)) == ApplyToPos(Transform3D(false, CornerABA_240), FaceCentre(MaxZ), Cube(2))
  {
  }

  lemma SidesCornerABA240(d: Direction3D)
    ensures FaceCentre(Lookup_DirTransforms(d, CornerABA_240)) == ApplyToPos(Transform3D(false, CornerABA_240), FaceCentre(d), Cube(2))
  {
    match d
    case MinX => FaceMinXUnderCornerABA240();
    case MaxX => FaceMaxXUnderCornerABA240();
    case MinY => FaceMinYUnderCornerABA240();
    case MaxY => FaceMaxYUnderCornerABA240();
    case MinZ => FaceMinZUnderCornerABA240();
    case MaxZ => FaceMaxZUnderCornerABA240();
  }

  lemma CornersASidesAreGeometric(r: Rotations3D, d: Direction3D)
    requires r.CornerAAA_120? || r.CornerAAA_240? || r.CornerABA_120? || r.CornerABA_240?
    ensures FaceCentre(Lookup_DirTransforms(d, r)) == ApplyToPos(Transform3D(false, r), FaceCentre(d), Cube(2))
  {
    match r
    case CornerAAA_120 => SidesCornerAAA120(d);
    case CornerAAA_240 => SidesCornerAAA240(d);
    case CornerABA_120 => SidesCornerABA120(d);
    case CornerABA_240 => SidesCornerABA240(d);
  }

  /** The table agrees with the geometry for the rotations about the corners BAA and BBA. */
  lemma FaceMinXUnderCornerBAA120()
    ensures FaceCentre(Lookup_DirTransforms(MinX, CornerBAA_120)) == ApplyToPos(Transform3D(false, CornerBAA_120), FaceCentre(MinX), Cube(2))
  {
  }

  lemma FaceMaxXUnderCornerBAA120()
    ensures FaceCentre(Lookup_DirTransforms(MaxX, CornerBAA_120)) == ApplyToPos(Transform3D(false, CornerBAA_120), FaceCentre(MaxX), Cube(2))
  {
  }

  lemma FaceMinYUnderCornerBAA120()
    ensures FaceCentre(Lookup_DirTransforms(MinY, CornerBAA_120)) == ApplyToPos(Transform3D(false, CornerBAA_120), FaceCentre(MinY), Cube(2))
  {
  }

  lemma FaceMaxYUnderCornerBAA120()
    ensures FaceCentre(Lookup_DirTransforms(MaxY, CornerBAA_120)) == ApplyToPos(Transform3D(false, CornerBAA_120), FaceCentre(MaxY), Cube(2))
  {
  }

  lemma FaceMinZUnderCornerBAA120()
    ensures FaceCentre(Lookup_DirTransforms(MinZ, CornerBAA_120)) == ApplyToPos(Transform3D(false, CornerBAA_120), FaceCentre(MinZ), Cube(2))
  {
  }

  lemma FaceMaxZUnderCornerBAA120()
    ensures FaceCentre(Lookup_DirTransforms(MaxZ, CornerBAA_120)) == ApplyToPos(Transform3D(false, CornerBAA_120), FaceCentre(MaxZ), Cube(2))
  {
  }

  lemma SidesCornerBAA120(d: Direction3D)
    ensures FaceCentre(Lookup_DirTransforms(d, CornerBAA_120)) == ApplyToPos(Transform3D(false, CornerBAA_120), FaceCentre(d), Cube(2))
  {
    match d
    case MinX => FaceMinXUnderCornerBAA120();
    case MaxX => FaceMaxXUnderCornerBAA120();
    case MinY => FaceMinYUnderCornerBAA120();
    case MaxY => FaceMaxYUnderCornerBAA120();
    case MinZ => FaceMinZUnderCornerBAA120();
    case MaxZ => FaceMaxZUnderCornerBAA120();
  }

  lemma FaceMinXUnderCornerBAA240()
    ensures FaceCentre(Lookup_DirTransforms(MinX, CornerBAA_240)) == ApplyToPos(Transform3D(false, CornerBAA_240), FaceCentre(MinX), Cube(2))
  {
  }

  lemma FaceMaxXUnderCornerBAA240()
    ensures FaceCentre(Lookup_DirTransforms(MaxX, CornerBAA_240)) == ApplyToPos(Transform3D(false, CornerBAA_240), FaceCentre(MaxX), Cube(2))
  {
  }

  lemma FaceMinYUnderCornerBAA240()
    ensures FaceCentre(Lookup_DirTransforms(MinY, CornerBAA_240)) == ApplyToPos(Transform3D(false, CornerBAA_240), FaceCentre(MinY), Cube(2))
  {
  }

  lemma FaceMaxYUnderCornerBAA240()
    ensures FaceCentre(Lookup_DirTransforms(MaxY, CornerBAA_240)) == ApplyToPos(Transform3D(false, CornerBAA_240), FaceCentre(MaxY), Cube(2))
  {
  }

  lemma FaceMinZUnderCornerBAA240()
    ensures FaceCentre(Lookup_DirTransforms(MinZ, CornerBAA_240)) == ApplyToPos(Transform3D(false, CornerBAA_240), FaceCentre(MinZ), Cube(2))
  {
  }

  lemma FaceMaxZUnderCornerBAA240()
    ensures FaceCentre(Lookup_DirTransforms(MaxZ, CornerBAA_240)) == ApplyToPos(Transform3D(false, CornerBAA_240), FaceCentre(MaxZ), Cube(2))
  {
  }

  lemma SidesCornerBAA240(d: Direction3D)
    ensures FaceCentre(Lookup_DirTransforms(d, CornerBAA_240)) == ApplyToPos(Transform3D(false, CornerBAA_240), FaceCentre(d), Cube(2))
  {
    match d
    case MinX => FaceMinXUnderCornerBAA240();
    case MaxX => FaceMaxXUnderCornerBAA240();
    case MinY => FaceMinYUnderCornerBAA240();
    case MaxY => FaceMaxYUnderCornerBAA240();
    case MinZ => FaceMinZUnderCornerBAA240();
    case MaxZ => FaceMaxZUnderCornerBAA240();
  }

  lemma FaceMinXUnderCornerBBA120()
    ensures FaceCentre(Lookup_DirTransforms(MinX, CornerBBA_120)) == ApplyToPos(Transform3D(false, CornerBBA_120), FaceCentre(MinX), Cube(2))
  {
  }

  lemma FaceMaxXUnderCornerBBA120()
    ensures FaceCentre(Lookup_DirTransforms(MaxX, CornerBBA_120)) == ApplyToPos(Transform3D(false, CornerBBA_120), FaceCentre(MaxX), Cube(2))
  {
  }

  lemma FaceMinYUnderCornerBBA120()
    ensures FaceCentre(Lookup_DirTransforms(MinY, CornerBBA_120)) == ApplyToPos(Transform3D(false, CornerBBA_120), FaceCentre(MinY), Cube(2))
  {
  }

  lemma FaceMaxYUnderCornerBBA120()
    ensures FaceCentre(Lookup_DirTransforms(MaxY, CornerBBA_120)) == ApplyToPos(Transform3D(false, CornerBBA_120), FaceCentre(MaxY), Cube(2))
  {
  }

  lemma FaceMinZUnderCornerBBA120()
    ensures FaceCentre(Lookup_DirTransforms(MinZ, CornerBBA_120)) == ApplyToPos(Transform3D(false, CornerBBA_120), FaceCentre(MinZ), Cube(2))
  {
  }

  lemma FaceMaxZUnderCornerBBA120()
    ensures FaceCentre(Lookup_DirTransforms(MaxZ, CornerBBA_120)) == ApplyToPos(Transform3D(false, CornerBBA_120), FaceCentre(MaxZ), Cube(2))
  {
  }

  lemma SidesCornerBBA120(d: Direction3D)
    ensures FaceCentre(Lookup_DirTransforms(d, CornerBBA_120)) == ApplyToPos(Transform3D(false, CornerBBA_120), FaceCentre(d), Cube(2))
  {
    match d
    case MinX => FaceMinXUnderCornerBBA120();
    case MaxX => FaceMaxXUnderCornerBBA120();
    case MinY => FaceMinYUnderCornerBBA120();
    case MaxY => FaceMaxYUnderCornerBBA120();
    case MinZ => FaceMinZUnderCornerBBA120();
    case MaxZ => FaceMaxZUnderCornerBBA120();
  }

  lemma FaceMinXUnderCornerBBA240()
    ensures FaceCentre(Lookup_DirTransforms(MinX, CornerBBA_240)) == ApplyToPos(Transform3D(false, CornerBBA_240), FaceCentre(MinX), Cube(2))
  {
  }

  lemma FaceMaxXUnderCornerBBA240()
    ensures FaceCentre(Lookup_DirTransforms(MaxX, CornerBBA_240)) == ApplyToPos(Transform3D(false, CornerBBA_240), FaceCentre(MaxX), Cube(2))
  {
  }

  lemma FaceMinYUnderCornerBBA240()
    ensures FaceCentre(Lookup_DirTransforms(MinY, CornerBBA_240)) == ApplyToPos(Transform3D(false, CornerBBA_240), FaceCentre(MinY), Cube(2))
  {
  }

  lemma FaceMaxYUnderCornerBBA240()
    ensures FaceCentre(Lookup_DirTransforms(MaxY, CornerBBA_240)) == ApplyToPos(Transform3D(false, CornerBBA_240), FaceCentre(MaxY), Cube(2))
  {
  }

  lemma FaceMinZUnderCornerBBA240()
    ensures FaceCentre(Lookup_DirTransforms(MinZ, CornerBBA_240)) == ApplyToPos(Transform3D(false, CornerBBA_240), FaceCentre(MinZ), Cube(2))
  {
  }

  lemma FaceMaxZUnderCornerBBA240()
    ensures FaceCentre(Lookup_DirTransforms(MaxZ, CornerBBA_240)) == ApplyToPos(Transform3D(false, CornerBBA_240), FaceCentre(MaxZ), Cube(2))
  {
  }

  lemma SidesCornerBBA240(d: Direction3D)
    ensures FaceCentre(Lookup_DirTransforms(d, CornerBBA_240)) == ApplyToPos(Transform3D(false, CornerBBA_240), FaceCentre(d), Cube(2))
  {
    match d
    case MinX => FaceMinXUnderCornerBBA240();
    case MaxX => FaceMaxXUnderCornerBBA240();
    case MinY => FaceMinYUnderCornerBBA240();
    case MaxY => FaceMaxYUnderCornerBBA240();
    case MinZ => FaceMinZUnderCornerBBA240();
    case MaxZ => FaceMaxZUnderCornerBBA240();
  }

  lemma CornersBSidesAreGeometric(r: Rotations3D, d: Direction3D)
    requires r.CornerBAA_120? || r.CornerBAA_240? || r.CornerBBA_120? || r.CornerBBA_240?
    ensures FaceCentre(Lookup_DirTransforms(d, r)) == ApplyToPos(Transform3D(false, r), FaceCentre(d), Cube(2))
  {
    match r
    case CornerBAA_120 => SidesCornerBAA120(d);
    case CornerBAA_240 => SidesCornerBAA240(d);
    case CornerBBA_120 => SidesCornerBBA120(d);
    case CornerBBA_240 => SidesCornerBBA240(d);
  }

  /** The table agrees with the geometry: the side a face lands on is
      where ApplyToPos moves the centre of that face, for all 48
      transforms (an inverted transform moves the centre of the opposite
      face there, which is where the table is read). */
  lemma ApplyToSideIsGeometric(t: Transform3D, d: Direction3D)
    ensures FaceCentre(ApplyToSide(t, d)) == ApplyToPos(t, FaceCentre(d), Cube(2))
  {
    var s := if t.Invert then GetOpposite(d) else d;
    FaceCentreOpposite(d);
    assert ApplyToPos(t, FaceCentre(d), Cube(2)) == ApplyToPos(Transform3D(false, t.Rot), FaceCentre(s), Cube(2));
    var r := t.Rot;
    if r.None? {
      IdentitySidesAreGeometric(s);
    } else if r.AxisX_90? || r.AxisX_180? || r.AxisX_270? {
      AxisXSidesAreGeometric(r, s);
    } else if r.AxisY_90? || r.AxisY_180? || r.AxisY_270? {
      AxisYSidesAreGeometric(r, s);
    } else if r.AxisZ_90? || r.AxisZ_180? || r.AxisZ_270? {
      AxisZSidesAreGeometric(r, s);
    } else if r.EdgesXa? || r.EdgesXb? || r.EdgesYa? || r.EdgesYb? || r.EdgesZa? || r.EdgesZb? {
      EdgesSidesAreGeometric(r, s);
    } else if r.CornerAAA_120? || r.CornerAAA_240? || r.CornerABA_120? || r.CornerABA_240? {
      CornersASidesAreGeometric(r, s);
    } else {
      CornersBSidesAreGeometric(r, s);
    }
  }

  /** Every column of the table is a permutation of the six sides: no two
      sides land on the same one. */
  lemma ApplyToSideInjective(t: Transform3D, a: Direction3D, b: Direction3D)
    requires ApplyToSide(t, a) == ApplyToSide(t, b)
    ensures a == b
  {
    ApplyToSideIsGeometric(t, a);
    ApplyToSideIsGeometric(t, b);
    ApplyToPosIsSigned(t, FaceCentre(a), Cube(2));
    ApplyToPosIsSigned(t, FaceCentre(b), Cube(2));
    SignedInjective(TransformSigned(t), FaceCentre(a), FaceCentre(b), Cube(2));
    FaceCentreSide(a);
    FaceCentreSide(b);
  }

  /** Opposite sides land on opposite sides. */
  lemma ApplyToSideOpposite(t: Transform3D, d: Direction3D)
    ensures ApplyToSide(t, GetOpposite(d)) == GetOpposite(ApplyToSide(t, d))
  {
    var sp := TransformSigned(t);
    var e := ApplyToSide(t, d);
    var f := ApplyToSide(t, GetOpposite(d));
    FaceCentreOpposite(d);
    FaceCentreOpposite(e);
    FaceCentreSide(f);
    FaceCentreSide(GetOpposite(e));
    ApplyToSideIsGeometric(t, d);
    ApplyToSideIsGeometric(t, GetOpposite(d));
    ApplyToPosIsSigned(t, FaceCentre(d), Cube(2));
    ApplyToPosIsSigned(t, FaceCentre(GetOpposite(d)), Cube(2));
    SignedCommutesWithMirror(sp, FaceCentre(d), Cube(2));
    CubeIsFixed(sp, 2);
    assert FaceCentre(f) == FaceCentre(GetOpposite(e));
  }

  /** The identity keeps every side, and the bare inversion sends every
      side to its opposite. */
  lemma ApplyToSideBasics(d: Direction3D)
    ensures ApplyToSide(Identity, d) == d
    ensures ApplyToSide(Transform3D(true, None), d) == GetOpposite(d)
  {
  }
}
