/** The flat heap buffers of Array2D.hpp, Helpers/Array3D.hpp and
    Array4D.hpp: a one-dimensional array indexed x-fastest, with the
    index <-> location maps, Wrap, Reset, Fill and Array2D's RotateInto. */
module Arrays {
  import opened WfcMath
  import opened Vectors
  import Transform2D

  // ---------------------------------------------------------------------
  // Index arithmetic (GetIndex / GetLocation), with C truncating division.

  function Index2(w: int, x: int, y: int): int { x + y * w }

  function Location2(w: int, i: int): Vector2i
    requires w != 0
  {
    Vector2i(CRem(i, w), CDiv(i, w))
  }

  /** A quotient/remainder split of an index below w * n. */
  lemma SplitIndex(i: int, w: int, n: int)
    requires w > 0 && 0 <= i < w * n
    ensures i == i % w + w * (i / w) && 0 <= i % w < w && 0 <= i / w < n
  {
    DivBelow(i, w, n);
  }

  /** GetLocation(GetIndex(x, y)) == (x, y) for an in-range position, and
      the index is a valid buffer index. */
  lemma LocationOfIndex2(w: int, h: int, x: int, y: int)
    requires 0 <= x < w && 0 <= y < h
    ensures 0 <= Index2(w, x, y) < w * h
    ensures Location2(w, Index2(w, x, y)) == Vector2i(x, y)
  {
    IndexBelow(y, x, w, h);
    LemmaDivModUnique(Index2(w, x, y), w, y, x);
    CNonNegative(Index2(w, x, y), w);
  }

  /** GetIndex(GetLocation(i)) == i for every buffer index. */
  lemma IndexOfLocation2(w: int, h: int, i: int)
    requires w > 0 && 0 <= i < w * h
    ensures var p := Location2(w, i); 0 <= p.x < w && 0 <= p.y < h && Index2(w, p.x, p.y) == i
  {
    SplitIndex(i, w, h);
    CNonNegative(i, w);
  }

  function Index3(w: int, h: int, x: int, y: int, z: int): int { x + y * w + z * w * h }

  function Location3(w: int, h: int, i: int): Vector3i
    requires w != 0 && h != 0
  {
    Vector3i(CRem(i, w), CRem(CDiv(i, w), h), CDiv(i, w * h))
  }

  /** i / (w * h) == (i / w) / h on non-negative indices. */
  lemma DivDiv(i: int, w: int, h: int)
    requires i >= 0 && w > 0 && h > 0
    ensures i / (w * h) == (i / w) / h && 0 <= i % w + w * ((i / w) % h) < w * h
  {
    var q := i / w;
    assert i == i % w + w * q;
    assert q == q % h + h * (q / h);
    IndexBelow(q % h, i % w, w, h);
    assert i == (i % w + w * (q % h)) + (w * h) * (q / h);
    LemmaDivModUnique(i, w * h, q / h, i % w + w * (q % h));
  }

  /** The 3D index is a 2D index whose row is itself a 2D index. */
  lemma Index3Nested(w: int, h: int, x: int, y: int, z: int)
    ensures Index3(w, h, x, y, z) == Index2(w, x, Index2(h, y, z))
  {
    assert (y + z * h) * w == y * w + z * w * h;
  }

  lemma PositiveProduct(a: int, b: int)
    requires a > 0 && b > 0
    ensures a * b > 0
  {
    MulNonNeg(a - 1, b);
  }

  lemma LocationOfIndex3(w: int, h: int, d: int, x: int, y: int, z: int)
    requires 0 <= x < w && 0 <= y < h && 0 <= z < d
    ensures 0 <= Index3(w, h, x, y, z) < w * h * d
    ensures Location3(w, h, Index3(w, h, x, y, z)) == Vector3i(x, y, z)
  {
    var j := Index2(h, y, z);
    var i := Index2(w, x, j);
    Index3Nested(w, h, x, y, z);
    LocationOfIndex2(h, d, y, z);
    LocationOfIndex2(w, h * d, x, j);
    assert w * (h * d) == w * h * d;
    CNonNegative(i, w);
    CNonNegative(j, h);
    PositiveProduct(w, h);
    CNonNegative(i, w * h);
    DivDiv(i, w, h);
  }

  lemma IndexOfLocation3(w: int, h: int, d: int, i: int)
    requires w > 0 && h > 0 && 0 <= i < w * h * d
    ensures var p := Location3(w, h, i);
      0 <= p.x < w && 0 <= p.y < h && 0 <= p.z < d && Index3(w, h, p.x, p.y, p.z) == i
  {
    var p := Location3(w, h, i);
    var q := CDiv(i, w);
    assert q == i / w && p.x == i % w by { CNonNegative(i, w); }
    assert 0 <= p.x < w && 0 <= q < h * d && Index2(w, p.x, q) == i by {
      assert w * h * d == w * (h * d);
      IndexOfLocation2(w, h * d, i);
    }
    assert p.y == q % h && p.z == q / h by {
      CNonNegative(q, h);
      PositiveProduct(w, h);
      CNonNegative(i, w * h);
      DivDiv(i, w, h);
    }
    assert 0 <= p.y < h && 0 <= p.z < d && Index2(h, p.y, p.z) == q by {
      IndexOfLocation2(h, d, q);
      CNonNegative(q, h);
    }
    Index3Nested(w, h, p.x, p.y, p.z);
  }

  function Index4(s: Vector4i, x: int, y: int, z: int, t: int): int
  {
    x + (y * s.x) + (z * s.x * s.y) + (t * s.x * s.y * s.z)
  }

  function Location4(s: Vector4i, i: int): Vector4i
    requires s.x != 0 && s.y != 0 && s.z != 0
  {
    Vector4i(CRem(i, s.x), CRem(CDiv(i, s.x), s.y), CRem(CDiv(i, s.x * s.y), s.z),
             CDiv(i, s.x * s.y * s.z))
  }

  /** The 4D index is a 2D index whose row is a 3D index. */
  lemma Index4Nested(s: Vector4i, x: int, y: int, z: int, t: int)
    ensures Index4(s, x, y, z, t) == Index2(s.x, x, Index3(s.y, s.z, y, z, t))
  {
    assert (y + z * s.y + t * s.y * s.z) * s.x == y * s.x + z * s.x * s.y + t * s.x * s.y * s.z;
  }

  /** C division by a product is division by each factor in turn. */
  lemma CDivDiv(i: int, a: int, b: int)
    requires i >= 0 && a > 0 && b > 0
    ensures a * b > 0 && CDiv(i, a * b) == CDiv(CDiv(i, a), b) && CDiv(i, a) >= 0
  {
    PositiveProduct(a, b);
    var ab := a * b;
    CNonNegative(i, a);
    DivNonNegative(i, a);
    CNonNegative(i / a, b);
    CNonNegative(i, ab);
    DivDiv(i, a, b);
  }

  lemma DivNonNegative(i: int, a: int)
    requires i >= 0 && a > 0
    ensures i / a >= 0
  {
    assert i == a * (i / a) + i % a;
    MulNonNeg(-(i / a) - 1, a);
    assert (-(i / a) - 1) * a == -(a * (i / a)) - a;
  }

  /** The upper coordinates of a 4D location are the 3D location of i / s.x. */
  lemma Location4Nested(s: Vector4i, i: int)
    requires s.x > 0 && s.y > 0 && s.z > 0 && i >= 0
    ensures var l := Location3(s.y, s.z, CDiv(i, s.x));
      Location4(s, i) == Vector4i(CRem(i, s.x), l.x, l.y, l.z)
  {
    CDivDiv(i, s.x, s.y);
    var xy := s.x * s.y;
    CDivDiv(i, xy, s.z);
    CDivDiv(CDiv(i, s.x), s.y, s.z);
    assert xy * s.z == s.x * s.y * s.z;
  }

  lemma LocationOfIndex4(s: Vector4i, p: Vector4i)
    requires Region4Contains(s, p)
    ensures 0 <= Index4(s, p.x, p.y, p.z, p.w) < s.x * s.y * s.z * s.w
    ensures Location4(s, Index4(s, p.x, p.y, p.z, p.w)) == p
  {
    var j := Index3(s.y, s.z, p.y, p.z, p.w);
    Index4Nested(s, p.x, p.y, p.z, p.w);
    LocationOfIndex3(s.y, s.z, s.w, p.y, p.z, p.w);
    Index4Below(s, p.x, j);
    var i := Index2(s.x, p.x, j);
    LocationOfIndex2(s.x, s.y * s.z * s.w, p.x, j);
    Location4Nested(s, i);
  }

  lemma Index4Below(s: Vector4i, x: int, j: int)
    requires 0 <= x < s.x && 0 <= j < s.y * s.z * s.w
    ensures 0 <= Index2(s.x, x, j) < s.x * s.y * s.z * s.w
  {
    var n := s.y * s.z * s.w;
    LocationOfIndex2(s.x, n, x, j);
    assert s.x * n == s.x * s.y * s.z * s.w;
  }

  predicate Region4Contains(s: Vector4i, p: Vector4i)
  {
    0 <= p.x < s.x && 0 <= p.y < s.y && 0 <= p.z < s.z && 0 <= p.w < s.w
  }

  // ---------------------------------------------------------------------
  // Wrap.

  function Wrap2(size: Vector2i, p: Vector2i): (r: Vector2i)
    requires size.x != 0 && size.y != 0
    ensures size.x > 0 && size.y > 0 ==> FromSize2(size).Contains(r)
    ensures size.x > 0 && size.y > 0 ==> r.x == p.x % size.x && r.y == p.y % size.y
    ensures FromSize2(size).Contains(p) ==> r == p
  {
    Vector2i(PositiveModulo(p.x, size.x), PositiveModulo(p.y, size.y))
  }

  function Wrap3(size: Vector3i, p: Vector3i): (r: Vector3i)
    requires size.x != 0 && size.y != 0 && size.z != 0
    ensures size.x > 0 && size.y > 0 && size.z > 0 ==> FromSize3(size).Contains(r)
    ensures size.x > 0 && size.y > 0 && size.z > 0 ==>
              r.x == p.x % size.x && r.y == p.y % size.y && r.z == p.z % size.z
    ensures FromSize3(size).Contains(p) ==> r == p
  {
    Vector3i(PositiveModulo(p.x, size.x), PositiveModulo(p.y, size.y), PositiveModulo(p.z, size.z))
  }

  function Wrap4(size: Vector4i, p: Vector4i): (r: Vector4i)
    requires size.x != 0 && size.y != 0 && size.z != 0 && size.w != 0
    ensures size.x > 0 && size.y > 0 && size.z > 0 && size.w > 0 ==> Region4Contains(size, r)
    ensures size.x > 0 && size.y > 0 && size.z > 0 && size.w > 0 ==>
              r.x == p.x % size.x && r.y == p.y % size.y && r.z == p.z % size.z && r.w == p.w % size.w
    ensures Region4Contains(size, p) ==> r == p
  {
    Vector4i(PositiveModulo(p.x, size.x), PositiveModulo(p.y, size.y),
             PositiveModulo(p.z, size.z), PositiveModulo(p.w, size.w))
  }

  // ---------------------------------------------------------------------
  // Array2D's RotateInto: which element of the source each output element
  // copies, for a normalised rotation count n in 0..3.

  /** RotateInto's normalisation: add 1024 until the count is non-negative,
      then take it modulo 4. */
  method NormalizeRotations(clockwiseRots: int) returns (n: int)
    ensures 0 <= n < 4 && n == clockwiseRots % 4
  {
    n := clockwiseRots;
    while n < 0
      invariant n % 4 == clockwiseRots % 4
      decreases -n
    {
      LemmaDivModUnique(n + 1024, 4, n / 4 + 256, n % 4);
      n := n + 1024;
    }
    n := CRem(n, 4);
  }

  /** The size of the output array, as corrected: a quarter turn swaps the
      axes and a half turn keeps them. */
  function OutSize(n: int, w: int, h: int): Vector2i
  {
    if n == 1 || n == 3 then Vector2i(h, w) else Vector2i(w, h)
  }

  /** The source position read for output position loc, as corrected. */
  function SourcePos(n: int, w: int, h: int, loc: Vector2i): Vector2i
  {
    if n == 1 then Vector2i(w - 1 - loc.y, loc.x)
    else if n == 2 then Vector2i(w - 1 - loc.x, h - 1 - loc.y)
    else if n == 3 then Vector2i(loc.y, h - 1 - loc.x)
    else loc
  }

  /** The output size as written: every non-zero count resets to (height, width). */
  function OutSizeAsWritten(n: int, w: int, h: int): Vector2i
  {
    if n == 0 then Vector2i(w, h) else Vector2i(h, w)
  }

  /** The source position as written: cases 1 and 3 use the height where the
      width is meant, and the width where the height is meant. */
  function SourcePosAsWritten(n: int, w: int, h: int, loc: Vector2i): Vector2i
  {
    if n == 1 then Vector2i(h - 1 - loc.y, loc.x)
    else if n == 2 then Vector2i(w - 1 - loc.x, h - 1 - loc.y)
    else if n == 3 then Vector2i(loc.y, w - 1 - loc.x)
    else loc
  }

  /** Every output position reads an element inside the source array. */
  lemma SourcePosInBounds(n: int, w: int, h: int, loc: Vector2i)
    requires 0 <= n < 4 && FromSize2(OutSize(n, w, h)).Contains(loc)
    ensures FromSize2(Vector2i(w, h)).Contains(SourcePos(n, w, h, loc))
  {
  }

  /** On square arrays the code as written is the corrected rotation. */
  lemma AsWrittenAgreesOnSquares(n: int, w: int, loc: Vector2i)
    ensures OutSizeAsWritten(n, w, w) == OutSize(n, w, w)
    ensures SourcePosAsWritten(n, w, w, loc) == SourcePos(n, w, w, loc)
  {
  }

  /** A 2 x 1 array: a quarter turn as written reads position (-1, 0), and a
      half turn produces a 1 x 2 array and reads (1, -1). */
  lemma AsWrittenReadsOutside()
    ensures FromSize2(OutSizeAsWritten(1, 2, 1)).Contains(Vector2i(0, 1))
    ensures !FromSize2(Vector2i(2, 1)).Contains(SourcePosAsWritten(1, 2, 1, Vector2i(0, 1)))
    ensures FromSize2(OutSizeAsWritten(2, 2, 1)).Contains(Vector2i(0, 1))
    ensures !FromSize2(Vector2i(2, 1)).Contains(SourcePosAsWritten(2, 2, 1, Vector2i(0, 1)))
    ensures FromSize2(OutSizeAsWritten(3, 2, 1)).Contains(Vector2i(0, 0))
    ensures !FromSize2(Vector2i(2, 1)).Contains(SourcePosAsWritten(3, 2, 1, Vector2i(0, 0)))
  {
  }

  /** The rotation as a 2D transformation: the element at p lands at its
      transformed position, with Rotate270CW for one step, Rotate180 for two
      and Rotate90CW for three (Vector2i::Transform, with y pointing down). */
  function RotationTransform(n: int): Transform2D.Transformation
  {
    if n == 1 then Transform2D.Rotate270CW
    else if n == 2 then Transform2D.Rotate180
    else if n == 3 then Transform2D.Rotate90CW
    else Transform2D.None
  }

  lemma RotationMatchesTransform(n: int, w: int, h: int, p: Vector2i)
    requires 0 <= n < 4
    ensures OutSize(n, w, h) == Transform2D.SizeAfter(RotationTransform(n), Vector2i(w, h))
    ensures SourcePos(n, w, h, Transform2D.Transform(RotationTransform(n), p, Vector2i(w, h))) == p
  {
  }

  /** Rotating by one step and then by three steps reads every element back
      from where it started, on arrays of any shape. */
  lemma RotateOneThenThree(w: int, h: int, loc: Vector2i)
    ensures OutSize(3, h, w) == Vector2i(w, h) && OutSize(1, w, h) == Vector2i(h, w)
    ensures SourcePos(1, w, h, SourcePos(3, h, w, loc)) == loc
    ensures SourcePos(3, h, w, SourcePos(1, w, h, loc)) == loc
  {
  }

  /** The element of a row-major buffer src of a w x h array that output
      position loc of a rotation by n copies. */
  function RotatedValue<T>(src: seq<T>, n: int, w: int, h: int, loc: Vector2i): T
    requires 0 <= n < 4 && |src| == w * h && FromSize2(OutSize(n, w, h)).Contains(loc)
  {
    var p := SourcePos(n, w, h, loc);
    SourcePosInBounds(n, w, h, loc);
    LocationOfIndex2(w, h, p.x, p.y);
    src[Index2(w, p.x, p.y)]
  }

  // ---------------------------------------------------------------------
  // Array2D.

  class Array2D<T(0)> {
    var width: int
    var height: int
    var vals: array<T>

    ghost predicate Valid()
      reads this
    {
      0 <= width && 0 <= height && vals.Length == width * height
    }

    function GetDimensions(): Vector2i
      reads this
    {
      Vector2i(width, height)
    }

    function GetNumbElements(): int
      reads this
    {
      width * height
    }

    /** The buffer index of an in-range position. */
    function ElementIndex(l: Vector2i): (i: int)
      requires Valid() && FromSize2(GetDimensions()).Contains(l)
      reads this
      ensures 0 <= i < vals.Length && i == Index2(width, l.x, l.y)
    {
      LocationOfIndex2(width, height, l.x, l.y);
      Index2(width, l.x, l.y)
    }

    /** operator[]: the element at an in-range position. */
    function At(l: Vector2i): T
      requires Valid() && FromSize2(GetDimensions()).Contains(l)
      reads this, vals
    {
      vals[ElementIndex(l)]
    }

    constructor(w: int, h: int)
      requires 0 <= w && 0 <= h
      ensures Valid() && width == w && height == h && fresh(vals)
    {
      width, height := w, h;
      MulNonNeg(h, w);
      vals := new T[w * h];
    }

    constructor WithValue(w: int, h: int, defaultValue: T)
      requires 0 <= w && 0 <= h
      ensures Valid() && width == w && height == h && fresh(vals)
      ensures forall i :: 0 <= i < vals.Length ==> vals[i] == defaultValue
    {
      width, height := w, h;
      MulNonNeg(h, w);
      var a := new T[w * h];
      var i := 0;
      while i < a.Length
        invariant 0 <= i <= a.Length
        invariant forall k :: 0 <= k < i ==> a[k] == defaultValue
      {
        a[i] := defaultValue;
        i := i + 1;
      }
      vals := a;
    }

    /** The operator[] write. */
    method Set(l: Vector2i, v: T)
      requires Valid() && FromSize2(GetDimensions()).Contains(l)
      modifies vals
      ensures Valid() && At(l) == v
      ensures forall p :: FromSize2(GetDimensions()).Contains(p) && p != l ==> At(p) == old(At(p))
    {
      LocationOfIndex2(width, height, l.x, l.y);
      vals[Index2(width, l.x, l.y)] := v;
      forall p | FromSize2(GetDimensions()).Contains(p) && p != l
        ensures At(p) == old(At(p))
      {
        LocationOfIndex2(width, height, p.x, p.y);
      }
    }

    function GetIndex(x: int, y: int): (i: int)
      reads this
      ensures 0 <= x < width && 0 <= y < height ==>
                0 <= i < width * height && GetLocation(i) == Vector2i(x, y)
    {
      if 0 <= x < width && 0 <= y < height then
        LocationOfIndex2(width, height, x, y); Index2(width, x, y)
      else Index2(width, x, y)
    }

    function GetLocation(index: int): (p: Vector2i)
      requires width != 0
      reads this
      ensures width > 0 && 0 <= index < width * height ==>
                0 <= p.x < width && 0 <= p.y < height && Index2(width, p.x, p.y) == index
    {
      if width > 0 && 0 <= index < width * height then
        IndexOfLocation2(width, height, index); Location2(width, index)
      else Location2(width, index)
    }

    function Wrap(p: Vector2i): (r: Vector2i)
      requires width != 0 && height != 0
      reads this
      ensures width > 0 && height > 0 ==> FromSize2(GetDimensions()).Contains(r)
      ensures FromSize2(GetDimensions()).Contains(p) ==> r == p
    {
      Wrap2(GetDimensions(), p)
    }

    /** Reset(w, h): the buffer is kept, with its values, when the element
        count does not change, and replaced otherwise. */
    method Reset(w: int, h: int)
      requires Valid() && 0 <= w && 0 <= h
      modifies this
      ensures Valid() && width == w && height == h
      ensures old(vals.Length) == w * h ==> vals == old(vals) && vals[..] == old(vals[..])
      ensures old(vals.Length) != w * h ==> fresh(vals)
    {
      MulNonNeg(h, w);
      if vals.Length != w * h {
        vals := new T[w * h];
      }
      width, height := w, h;
    }

    method Fill(value: T)
      requires Valid()
      modifies vals
      ensures Valid() && forall i :: 0 <= i < vals.Length ==> vals[i] == value
    {
      var i := 0;
      while i < vals.Length
        invariant 0 <= i <= vals.Length
        invariant forall k :: 0 <= k < i ==> vals[k] == value
      {
        vals[i] := value;
        i := i + 1;
      }
    }

    /** Fill(values, useMemcpy): both copies write the first
        GetNumbElements() values into the buffer. */
    method FillFrom(values: seq<T>)
      requires Valid() && |values| >= vals.Length
      modifies vals
      ensures Valid() && vals[..] == values[..vals.Length]
    {
      var i := 0;
      while i < vals.Length
        invariant 0 <= i <= vals.Length
        invariant forall k :: 0 <= k < i ==> vals[k] == values[k]
      {
        vals[i] := values[i];
        i := i + 1;
      }
    }

    /** FillFunc: visits rows, then columns, writing getValue(loc) at loc. */
    method FillFunc(getValue: Vector2i --> T)
      requires Valid()
      requires forall loc :: FromSize2(GetDimensions()).Contains(loc) ==> getValue.requires(loc)
      modifies vals
      ensures Valid()
      ensures forall loc :: FromSize2(GetDimensions()).Contains(loc) ==> At(loc) == getValue(loc)
    {
      var y := 0;
      while y < height
        invariant 0 <= y <= height
        invariant forall p :: FromSize2(GetDimensions()).Contains(p) && p.y < y ==>
                    vals[ElementIndex(p)] == getValue(p)
      {
        var x := 0;
        while x < width
          invariant 0 <= x <= width
          invariant forall p :: FromSize2(GetDimensions()).Contains(p) && (p.y < y || (p.y == y && p.x < x)) ==>
                      vals[ElementIndex(p)] == getValue(p)
        {
          var here := Vector2i(x, y);
          ghost var before := vals[..];
          vals[ElementIndex(here)] := getValue(here);
          forall p | FromSize2(GetDimensions()).Contains(p) && p != here
            ensures vals[ElementIndex(p)] == before[ElementIndex(p)]
          {
            LocationOfIndex2(width, height, p.x, p.y);
            LocationOfIndex2(width, height, x, y);
          }
          x := x + 1;
        }
        y := y + 1;
      }
    }

    /** RotateInto, as corrected: the output takes the rotated size and each
        of its elements copies the source element SourcePos names. */
    method RotateInto(clockwiseRots: int, outArray: Array2D<T>)
      requires Valid() && outArray.Valid() && outArray != this && outArray.vals != vals
      modifies outArray, outArray.vals
      ensures outArray.Valid() && unchanged(this) && vals[..] == old(vals[..])
      ensures outArray.GetDimensions() == OutSize(clockwiseRots % 4, width, height)
      ensures forall loc :: FromSize2(outArray.GetDimensions()).Contains(loc) ==>
                outArray.At(loc) == At(SourcePos(clockwiseRots % 4, width, height, loc))
    {
      var n := NormalizeRotations(clockwiseRots);
      var src := vals[..];
      var w, h := width, height;
      var size := OutSize(n, w, h);
      outArray.Reset(size.x, size.y);
      assert outArray.vals != vals;
      outArray.FillFunc((loc: Vector2i) requires FromSize2(OutSize(n, w, h)).Contains(loc) =>
                          RotatedValue(src, n, w, h, loc));
      forall loc | FromSize2(outArray.GetDimensions()).Contains(loc)
        ensures outArray.At(loc) == At(SourcePos(n, width, height, loc))
      {
        SourcePosInBounds(n, w, h, loc);
      }
    }
  }

  // ---------------------------------------------------------------------
  // Array3D.

  class Array3D<T(0)> {
    var width: int
    var height: int
    var depth: int
    var vals: array<T>

    ghost predicate Valid()
      reads this
    {
      0 <= width && 0 <= height && 0 <= depth && vals.Length == width * height * depth
    }

    function GetDimensions(): Vector3i
      reads this
    {
      Vector3i(width, height, depth)
    }

    /** IsIndexValid: the position lies in Region3i(GetDimensions()). */
    predicate IsIndexValid(l: Vector3i)
      reads this
    {
      FromSize3(GetDimensions()).Contains(l)
    }

    function GetNumbElements(): int
      reads this
    {
      width * height * depth
    }

    function At(l: Vector3i): T
      requires Valid() && IsIndexValid(l)
      reads this, vals
    {
      LocationOfIndex3(width, height, depth, l.x, l.y, l.z);
      vals[Index3(width, height, l.x, l.y, l.z)]
    }

    constructor(w: int, h: int, d: int)
      requires 0 <= w && 0 <= h && 0 <= d
      ensures Valid() && GetDimensions() == Vector3i(w, h, d) && fresh(vals)
    {
      width, height, depth := w, h, d;
      MulNonNeg(h, w);
      MulNonNeg(d, w * h);
      vals := new T[w * h * d];
    }

    method Set(l: Vector3i, v: T)
      requires Valid() && IsIndexValid(l)
      modifies vals
      ensures Valid() && At(l) == v
      ensures forall p :: IsIndexValid(p) && p != l ==> At(p) == old(At(p))
    {
      LocationOfIndex3(width, height, depth, l.x, l.y, l.z);
      vals[Index3(width, height, l.x, l.y, l.z)] := v;
      forall p | IsIndexValid(p) && p != l
        ensures At(p) == old(At(p))
      {
        LocationOfIndex3(width, height, depth, p.x, p.y, p.z);
      }
    }

    function GetIndex(x: int, y: int, z: int): (i: int)
      reads this
      ensures IsIndexValid(Vector3i(x, y, z)) ==>
                0 <= i < GetNumbElements() && GetLocation(i) == Vector3i(x, y, z)
    {
      if IsIndexValid(Vector3i(x, y, z)) then
        LocationOfIndex3(width, height, depth, x, y, z); Index3(width, height, x, y, z)
      else Index3(width, height, x, y, z)
    }

    function GetLocation(index: int): (p: Vector3i)
      requires width != 0 && height != 0
      reads this
      ensures width > 0 && height > 0 && 0 <= index < GetNumbElements() ==>
                IsIndexValid(p) && Index3(width, height, p.x, p.y, p.z) == index
    {
      if width > 0 && height > 0 && 0 <= index < GetNumbElements() then
        IndexOfLocation3(width, height, depth, index); Location3(width, height, index)
      else Location3(width, height, index)
    }

    function Wrap(p: Vector3i): (r: Vector3i)
      requires width != 0 && height != 0 && depth != 0
      reads this
      ensures width > 0 && height > 0 && depth > 0 ==> IsIndexValid(r)
      ensures IsIndexValid(p) ==> r == p
    {
      Wrap3(GetDimensions(), p)
    }

    method Reset(w: int, h: int, d: int)
      requires Valid() && 0 <= w && 0 <= h && 0 <= d
      modifies this
      ensures Valid() && GetDimensions() == Vector3i(w, h, d)
      ensures old(vals.Length) == w * h * d ==> vals == old(vals) && vals[..] == old(vals[..])
      ensures old(vals.Length) != w * h * d ==> fresh(vals)
    {
      MulNonNeg(h, w);
      MulNonNeg(d, w * h);
      if vals.Length != w * h * d {
        vals := new T[w * h * d];
      }
      width, height, depth := w, h, d;
    }

    method Fill(value: T)
      requires Valid()
      modifies vals
      ensures Valid() && forall i :: 0 <= i < vals.Length ==> vals[i] == value
      ensures forall l :: IsIndexValid(l) ==> At(l) == value
    {
      var i := 0;
      while i < vals.Length
        invariant 0 <= i <= vals.Length
        invariant forall k :: 0 <= k < i ==> vals[k] == value
      {
        vals[i] := value;
        i := i + 1;
      }
      forall l | IsIndexValid(l) ensures At(l) == value {
        LocationOfIndex3(width, height, depth, l.x, l.y, l.z);
      }
    }

    method FillFrom(values: seq<T>)
      requires Valid() && |values| >= vals.Length
      modifies vals
      ensures Valid() && vals[..] == values[..vals.Length]
    {
      var i := 0;
      while i < vals.Length
        invariant 0 <= i <= vals.Length
        invariant forall k :: 0 <= k < i ==> vals[k] == values[k]
      {
        vals[i] := values[i];
        i := i + 1;
      }
    }
  }

  // ---------------------------------------------------------------------
  // Array4D.

  class Array4D<T(0)> {
    var size: Vector4i
    var vals: array<T>

    ghost predicate Valid()
      reads this
    {
      0 <= size.x && 0 <= size.y && 0 <= size.z && 0 <= size.w &&
      vals.Length == size.x * size.y * size.z * size.w
    }

    /** GetNumbElements: the product of the four sizes. */
    function GetNumbElements(): (n: int)
      reads this
      ensures Valid() ==> n == vals.Length
    {
      size.x * size.y * size.z * size.w
    }

    function At(l: Vector4i): T
      requires Valid() && Region4Contains(size, l)
      reads this, vals
    {
      LocationOfIndex4(size, l);
      vals[Index4(size, l.x, l.y, l.z, l.w)]
    }

    constructor(s: Vector4i)
      requires 0 <= s.x && 0 <= s.y && 0 <= s.z && 0 <= s.w
      ensures Valid() && size == s && fresh(vals)
    {
      size := s;
      MulNonNeg(s.y, s.x);
      MulNonNeg(s.z, s.x * s.y);
      MulNonNeg(s.w, s.x * s.y * s.z);
      vals := new T[s.x * s.y * s.z * s.w];
    }

    function GetIndex(x: int, y: int, z: int, w: int): (i: int)
      reads this
      ensures Region4Contains(size, Vector4i(x, y, z, w)) ==>
                0 <= i < GetNumbElements() && GetLocation(i) == Vector4i(x, y, z, w)
    {
      if Region4Contains(size, Vector4i(x, y, z, w)) then
        LocationOfIndex4(size, Vector4i(x, y, z, w)); Index4(size, x, y, z, w)
      else Index4(size, x, y, z, w)
    }

    function GetLocation(index: int): Vector4i
      requires size.x != 0 && size.y != 0 && size.z != 0
      reads this
    {
      Location4(size, index)
    }

    function Wrap(p: Vector4i): (r: Vector4i)
      requires size.x != 0 && size.y != 0 && size.z != 0 && size.w != 0
      reads this
      ensures size.x > 0 && size.y > 0 && size.z > 0 && size.w > 0 ==> Region4Contains(size, r)
      ensures Region4Contains(size, p) ==> r == p
    {
      Wrap4(size, p)
    }

    method Reset(newSize: Vector4i)
      requires Valid() && 0 <= newSize.x && 0 <= newSize.y && 0 <= newSize.z && 0 <= newSize.w
      modifies this
      ensures Valid() && size == newSize
      ensures old(vals.Length) == newSize.x * newSize.y * newSize.z * newSize.w ==>
                vals == old(vals) && vals[..] == old(vals[..])
    {
      var s := newSize;
      MulNonNeg(s.y, s.x);
      MulNonNeg(s.z, s.x * s.y);
      MulNonNeg(s.w, s.x * s.y * s.z);
      if vals.Length != s.x * s.y * s.z * s.w {
        vals := new T[s.x * s.y * s.z * s.w];
      }
      size := newSize;
    }

    method Fill(value: T)
      requires Valid()
      modifies vals
      ensures Valid() && forall i :: 0 <= i < vals.Length ==> vals[i] == value
      ensures forall l :: Region4Contains(size, l) ==> At(l) == value
    {
      var i := 0;
      while i < vals.Length
        invariant 0 <= i <= vals.Length
        invariant forall k :: 0 <= k < i ==> vals[k] == value
      {
        vals[i] := value;
        i := i + 1;
      }
      forall l | Region4Contains(size, l) ensures At(l) == value {
        LocationOfIndex4(size, l);
      }
    }
  }
}
