/** Integer vectors and axis-aligned regions (Helpers/Vector2i.h and
    Helpers/Vector3i.h): membership, size, componentwise Min/Max and the
    x-fastest iteration order of the range-based `for` loops. */
module Vectors {
  import WfcMath

  datatype Vector2i = Vector2i(x: int, y: int)
  {
    function Plus(b: Vector2i): Vector2i { Vector2i(x + b.x, y + b.y) }
    function Minus(b: Vector2i): Vector2i { Vector2i(x - b.x, y - b.y) }
  }

  /** Vector4i, the position type of Array4D. */
  datatype Vector4i = Vector4i(x: int, y: int, z: int, w: int)

  datatype Vector3i = Vector3i(x: int, y: int, z: int)
  {
    function Plus(b: Vector3i): Vector3i { Vector3i(x + b.x, y + b.y, z + b.z) }
    function Minus(b: Vector3i): Vector3i { Vector3i(x - b.x, y - b.y, z - b.z) }

    /** Component `axis` (0 = x, 1 = y, 2 = z), the `operator[]` of Vector3i. */
    function Get(axis: nat): int
      requires axis < 3
    {
      if axis == 0 then x else if axis == 1 then y else z
    }

    /** The vector with component `axis` replaced, `v[axis] = value`. */
    function With(axis: nat, value: int): (r: Vector3i)
      requires axis < 3
      ensures r.Get(axis) == value
      ensures forall k :: 0 <= k < 3 && k != axis ==> r.Get(k) == Get(k)
    {
      if axis == 0 then Vector3i(value, y, z)
      else if axis == 1 then Vector3i(x, value, z)
      else Vector3i(x, y, value)
    }
  }

  /** Math::Max specialised to Vector2i: the componentwise maximum. */
  function Max2(a: Vector2i, b: Vector2i): (r: Vector2i)
    ensures r.x >= a.x && r.x >= b.x && (r.x == a.x || r.x == b.x)
    ensures r.y >= a.y && r.y >= b.y && (r.y == a.y || r.y == b.y)
  {
    Vector2i(WfcMath.Max(a.x, b.x), WfcMath.Max(a.y, b.y))
  }

  /** Math::Min specialised to Vector2i: the componentwise minimum. */
  function Min2(a: Vector2i, b: Vector2i): (r: Vector2i)
    ensures r.x <= a.x && r.x <= b.x && (r.x == a.x || r.x == b.x)
    ensures r.y <= a.y && r.y <= b.y && (r.y == a.y || r.y == b.y)
  {
    Vector2i(WfcMath.Min(a.x, b.x), WfcMath.Min(a.y, b.y))
  }

  /** Vector3i::Max (and Math::Max specialised to Vector3i). */
  function Max3(a: Vector3i, b: Vector3i): (r: Vector3i)
    ensures forall i :: 0 <= i < 3 ==> r.Get(i) >= a.Get(i) && r.Get(i) >= b.Get(i)
    ensures forall i :: 0 <= i < 3 ==> r.Get(i) == a.Get(i) || r.Get(i) == b.Get(i)
  {
    Vector3i(WfcMath.Max(a.x, b.x), WfcMath.Max(a.y, b.y), WfcMath.Max(a.z, b.z))
  }

  /** Vector3i::Min (and Math::Min specialised to Vector3i). */
  function Min3(a: Vector3i, b: Vector3i): (r: Vector3i)
    ensures forall i :: 0 <= i < 3 ==> r.Get(i) <= a.Get(i) && r.Get(i) <= b.Get(i)
    ensures forall i :: 0 <= i < 3 ==> r.Get(i) == a.Get(i) || r.Get(i) == b.Get(i)
  {
    Vector3i(WfcMath.Min(a.x, b.x), WfcMath.Min(a.y, b.y), WfcMath.Min(a.z, b.z))
  }

  // ---------------------------------------------------------------------
  // Region2i

  datatype Region2i = Region2i(MinInclusive: Vector2i, MaxExclusive: Vector2i)
  {
    predicate Contains(p: Vector2i)
    {
      MinInclusive.x <= p.x < MaxExclusive.x && MinInclusive.y <= p.y < MaxExclusive.y
    }

    function GetSize(): Vector2i { MaxExclusive.Minus(MinInclusive) }
  }

  /** `Region2i(maxExclusive)`: the region from the origin. */
  function FromSize2(size: Vector2i): Region2i
  {
    Region2i(Vector2i(0, 0), size)
  }

  /** One step of the iterator: x advances, wrapping to the next row. */
  function AdvancePos2(r: Region2i, pos: Vector2i): (next: Vector2i)
  {
    if pos.x + 1 >= r.MaxExclusive.x then Vector2i(r.MinInclusive.x, pos.y + 1)
    else Vector2i(pos.x + 1, pos.y)
  }

  /** The end iterator's position. */
  function End2(r: Region2i): Vector2i
  {
    Vector2i(r.MinInclusive.x, r.MaxExclusive.y)
  }

  /** The i-th point of the row-major (x-fastest) enumeration. */
  function RowMajorAt2(r: Region2i, i: nat): Vector2i
    requires r.GetSize().x > 0
  {
    var w := r.GetSize().x;
    Vector2i(r.MinInclusive.x + i % w, r.MinInclusive.y + i / w)
  }

  /** The contents of a region, row by row, x fastest: the order in which
      every range-based loop over a region visits positions. Empty when
      the region is empty along either axis. */
  function Points2(r: Region2i): (ps: seq<Vector2i>)
  {
    var s := r.GetSize();
    if s.x <= 0 || s.y <= 0 then [] else seq(s.x * s.y, i requires 0 <= i < s.x * s.y => RowMajorAt2(r, i))
  }

  /** Index of a contained point in the row-major enumeration. */
  function IndexOf2(r: Region2i, p: Vector2i): int
  {
    (p.y - r.MinInclusive.y) * r.GetSize().x + (p.x - r.MinInclusive.x)
  }

  lemma RowMajorIndex2(r: Region2i, p: Vector2i)
    requires r.Contains(p)
    ensures 0 <= IndexOf2(r, p) < |Points2(r)| && Points2(r)[IndexOf2(r, p)] == p
  {
    var s := r.GetSize();
    var i := IndexOf2(r, p);
    var dy := p.y - r.MinInclusive.y;
    WfcMath.IndexBelow(dy, p.x - r.MinInclusive.x, s.x, s.y);
    WfcMath.LemmaDivModUnique(i, s.x, dy, p.x - r.MinInclusive.x);
  }

  lemma RowMajorInside2(r: Region2i, i: nat)
    requires i < |Points2(r)|
    ensures r.Contains(Points2(r)[i]) && IndexOf2(r, Points2(r)[i]) == i
  {
    var s := r.GetSize();
    WfcMath.DivBelow(i, s.x, s.y);
    assert i == (i / s.x) * s.x + i % s.x;
  }

  /** The enumeration lists exactly the contained points, each once. */
  lemma Points2Exactly(r: Region2i)
    ensures forall p :: p in Points2(r) <==> r.Contains(p)
    ensures forall i, j :: 0 <= i < j < |Points2(r)| ==> Points2(r)[i] != Points2(r)[j]
  {
    forall p ensures p in Points2(r) <==> r.Contains(p) {
      if r.Contains(p) { RowMajorIndex2(r, p); }
      if p in Points2(r) {
        var i :| 0 <= i < |Points2(r)| && Points2(r)[i] == p;
        RowMajorInside2(r, i);
      }
    }
    forall i, j | 0 <= i < j < |Points2(r)| ensures Points2(r)[i] != Points2(r)[j] {
      RowMajorInside2(r, i);
      RowMajorInside2(r, j);
    }
  }

  /** What the iterator visits, as written: with a positive width the row-major
      enumeration; with no width but a positive height it still stops once
      per row, at the column x = MinInclusive.x, which lies outside the
      region. */
  function VisitAt2(r: Region2i, i: nat): Vector2i
  {
    if r.GetSize().x > 0 then RowMajorAt2(r, i)
    else Vector2i(r.MinInclusive.x, r.MinInclusive.y + i)
  }

  function VisitCount2(r: Region2i): nat
  {
    var s := r.GetSize();
    if s.y <= 0 then 0 else if s.x > 0 then s.x * s.y else s.y
  }

  function Visits2(r: Region2i): seq<Vector2i>
  {
    seq(VisitCount2(r), i requires 0 <= i < VisitCount2(r) => VisitAt2(r, i))
  }

  /** A region with no width but a positive height is empty, yet its
      iteration stops once per row at a point outside it. */
  lemma ZeroWidthIterationLeavesRegion(r: Region2i)
    requires r.GetSize().x <= 0 && r.GetSize().y > 0
    ensures |Visits2(r)| == r.GetSize().y && Points2(r) == []
    ensures forall k :: 0 <= k < |Visits2(r)| ==> !r.Contains(Visits2(r)[k])
  {
  }

  /** The smallest such input: a 0 x 1 region yields the position (0, 0). */
  lemma ZeroWidthIterationExample()
    ensures Visits2(FromSize2(Vector2i(0, 1))) == [Vector2i(0, 0)]
    ensures !FromSize2(Vector2i(0, 1)).Contains(Vector2i(0, 0))
  {
    var r := FromSize2(Vector2i(0, 1));
    assert VisitCount2(r) == 1;
    assert Visits2(r)[0] == Vector2i(0, 0);
  }

  lemma IndexStep(i: nat, w: int)
    requires w > 0
    ensures (i + 1) % w == (if i % w + 1 < w then i % w + 1 else 0)
    ensures (i + 1) / w == (if i % w + 1 < w then i / w else i / w + 1)
  {
    assert i == (i / w) * w + i % w;
    if i % w + 1 < w {
      WfcMath.LemmaDivModUnique(i + 1, w, i / w, i % w + 1);
    } else {
      WfcMath.LemmaDivModUnique(i + 1, w, i / w + 1, 0);
    }
  }

  lemma VisitStep2(r: Region2i, i: nat)
    ensures AdvancePos2(r, VisitAt2(r, i)) == VisitAt2(r, i + 1)
  {
    var w := r.GetSize().x;
    if w > 0 {
      IndexStep(i, w);
    }
  }

  lemma VisitEnd2(r: Region2i, i: nat)
    requires r.GetSize().y >= 0 && i <= VisitCount2(r)
    ensures VisitAt2(r, i) == End2(r) <==> i == VisitCount2(r)
  {
    var s := r.GetSize();
    if s.x > 0 && s.y > 0 {
      if i == VisitCount2(r) {
        WfcMath.LemmaDivModUnique(i, s.x, s.y, 0);
      } else {
        WfcMath.DivBelow(i, s.x, s.y);
      }
    }
  }

  /** The range-based `for` over a Region2i: start at MinInclusive, advance
      until the position equals the end iterator's. A region whose height is
      negative never reaches the end position, so the source would loop
      forever; that input is excluded. */
  method Iterate2(r: Region2i) returns (visited: seq<Vector2i>)
    requires r.MinInclusive.y <= r.MaxExclusive.y
    ensures visited == Visits2(r)
    ensures r.GetSize().x > 0 ==> visited == Points2(r)
  {
    var pos := r.MinInclusive;
    visited := [];
    assert pos == VisitAt2(r, 0);
    while pos != End2(r)
      invariant |visited| <= VisitCount2(r)
      invariant pos == VisitAt2(r, |visited|)
      invariant forall k :: 0 <= k < |visited| ==> visited[k] == VisitAt2(r, k)
      decreases VisitCount2(r) - |visited|
    {
      VisitEnd2(r, |visited|);
      VisitStep2(r, |visited|);
      visited := visited + [pos];
      pos := AdvancePos2(r, pos);
    }
    VisitEnd2(r, |visited|);
  }

  // ---------------------------------------------------------------------
  // Region3i

  datatype Region3i = Region3i(MinInclusive: Vector3i, MaxExclusive: Vector3i)
  {
    predicate Contains(p: Vector3i)
    {
      MinInclusive.x <= p.x < MaxExclusive.x &&
      MinInclusive.y <= p.y < MaxExclusive.y &&
      MinInclusive.z <= p.z < MaxExclusive.z
    }

    function GetSize(): Vector3i { MaxExclusive.Minus(MinInclusive) }

    function GetNumbElements(): int
    {
      var s := GetSize();
      s.x * s.y * s.z
    }
  }

  function FromSize3(size: Vector3i): Region3i
  {
    Region3i(Vector3i(0, 0, 0), size)
  }

  function AdvancePos3(r: Region3i, pos: Vector3i): Vector3i
  {
    if pos.x + 1 < r.MaxExclusive.x then Vector3i(pos.x + 1, pos.y, pos.z)
    else if pos.y + 1 < r.MaxExclusive.y then Vector3i(r.MinInclusive.x, pos.y + 1, pos.z)
    else Vector3i(r.MinInclusive.x, r.MinInclusive.y, pos.z + 1)
  }

  function End3(r: Region3i): Vector3i
  {
    Vector3i(r.MinInclusive.x, r.MinInclusive.y, r.MaxExclusive.z)
  }

  /** The i-th point of the x-fastest, then y, then z enumeration. */
  function RowMajorAt3(r: Region3i, i: nat): Vector3i
    requires r.GetSize().x > 0 && r.GetSize().y > 0
  {
    var s := r.GetSize();
    var row := i / s.x;
    Vector3i(r.MinInclusive.x + i % s.x, r.MinInclusive.y + row % s.y, r.MinInclusive.z + row / s.y)
  }

  function Points3(r: Region3i): seq<Vector3i>
  {
    var s := r.GetSize();
    if s.x <= 0 || s.y <= 0 || s.z <= 0 then []
    else seq(s.x * s.y * s.z, i requires 0 <= i < s.x * s.y * s.z => RowMajorAt3(r, i))
  }

  function IndexOf3(r: Region3i, p: Vector3i): int
  {
    var s := r.GetSize();
    ((p.z - r.MinInclusive.z) * s.y + (p.y - r.MinInclusive.y)) * s.x + (p.x - r.MinInclusive.x)
  }

  lemma RowMajorIndex3(r: Region3i, p: Vector3i)
    requires r.Contains(p)
    ensures 0 <= IndexOf3(r, p) < |Points3(r)| && Points3(r)[IndexOf3(r, p)] == p
  {
    var s := r.GetSize();
    var dx, dy, dz := p.x - r.MinInclusive.x, p.y - r.MinInclusive.y, p.z - r.MinInclusive.z;
    var row := dz * s.y + dy;
    WfcMath.IndexBelow(dz, dy, s.y, s.z);
    var i := row * s.x + dx;
    WfcMath.IndexBelow(row, dx, s.x, s.y * s.z);
    assert s.x * s.y * s.z == s.x * (s.y * s.z);
    assert i == IndexOf3(r, p);
    WfcMath.LemmaDivModUnique(i, s.x, row, dx);
    WfcMath.LemmaDivModUnique(row, s.y, dz, dy);
  }

  lemma RowMajorInside3(r: Region3i, i: nat)
    requires i < |Points3(r)|
    ensures r.Contains(Points3(r)[i]) && IndexOf3(r, Points3(r)[i]) == i
  {
    var s := r.GetSize();
    assert s.x > 0 && s.y > 0 && s.z > 0;
    SplitIndex3(i, s.x, s.y, s.z);
    var p := Points3(r)[i];
    assert p == RowMajorAt3(r, i);
  }

  /** The three coordinates of an index below sx * sy * sz, and the index
      rebuilt from them. */
  lemma SplitIndex3(i: int, sx: int, sy: int, sz: int)
    requires sx > 0 && sy > 0 && 0 <= i < sx * sy * sz
    ensures var row := i / sx;
      0 <= i % sx < sx && 0 <= row % sy < sy && 0 <= row / sy < sz &&
      ((row / sy) * sy + row % sy) * sx + i % sx == i
  {
    var row, x := i / sx, i % sx;
    var y, z := row % sy, row / sy;
    assert 0 <= row < sy * sz && i == row * sx + x by {
      assert sx * sy * sz == sx * (sy * sz);
      WfcMath.DivBelow(i, sx, sy * sz);
    }
    assert 0 <= z < sz && row == z * sy + y by {
      WfcMath.DivBelow(row, sy, sz);
    }
  }

  /** Iteration lists exactly the contained points, each once, and there are
      GetNumbElements of them when the region is not empty. */
  lemma Points3Exactly(r: Region3i)
    ensures forall p :: p in Points3(r) <==> r.Contains(p)
    ensures forall i, j :: 0 <= i < j < |Points3(r)| ==> Points3(r)[i] != Points3(r)[j]
    ensures r.GetSize().x > 0 && r.GetSize().y > 0 && r.GetSize().z > 0 ==>
              |Points3(r)| == r.GetNumbElements()
  {
    forall p ensures p in Points3(r) <==> r.Contains(p) {
      if r.Contains(p) { RowMajorIndex3(r, p); }
      if p in Points3(r) {
        var i :| 0 <= i < |Points3(r)| && Points3(r)[i] == p;
        RowMajorInside3(r, i);
      }
    }
    forall i, j | 0 <= i < j < |Points3(r)| ensures Points3(r)[i] != Points3(r)[j] {
      RowMajorInside3(r, i);
      RowMajorInside3(r, j);
    }
  }

  lemma VisitStep3(r: Region3i, i: nat)
    requires r.GetSize().x > 0 && r.GetSize().y > 0
    ensures AdvancePos3(r, RowMajorAt3(r, i)) == RowMajorAt3(r, i + 1)
  {
    var s := r.GetSize();
    IndexStep(i, s.x);
    IndexStep(i / s.x, s.y);
  }

  lemma VisitEnd3(r: Region3i, i: nat)
    requires r.GetSize().x > 0 && r.GetSize().y > 0 && r.GetSize().z >= 0
    requires i <= r.GetSize().x * r.GetSize().y * r.GetSize().z
    ensures RowMajorAt3(r, i) == End3(r) <==> i == r.GetSize().x * r.GetSize().y * r.GetSize().z
  {
    var s := r.GetSize();
    var n := s.x * s.y * s.z;
    var row := i / s.x;
    assert n == s.x * (s.y * s.z);
    if i == n {
      WfcMath.LemmaDivModUnique(i, s.x, s.y * s.z, 0);
      WfcMath.LemmaDivModUnique(row, s.y, s.z, 0);
    } else {
      WfcMath.DivBelow(i, s.x, s.y * s.z);
      WfcMath.DivBelow(row, s.y, s.z);
    }
  }

  /** The range-based `for` over a non-degenerate Region3i visits the points
      x fastest, then y, then z, and ends at (min.x, min.y, max.z). */
  method Iterate3(r: Region3i) returns (visited: seq<Vector3i>)
    requires r.GetSize().x > 0 && r.GetSize().y > 0 && r.GetSize().z >= 0
    ensures visited == Points3(r)
  {
    var s := r.GetSize();
    var n := s.x * s.y * s.z;
    var pos := r.MinInclusive;
    visited := [];
    assert pos == RowMajorAt3(r, 0);
    while pos != End3(r)
      invariant |visited| <= n
      invariant pos == RowMajorAt3(r, |visited|)
      invariant forall k :: 0 <= k < |visited| ==> visited[k] == RowMajorAt3(r, k)
      decreases n - |visited|
    {
      VisitEnd3(r, |visited|);
      VisitStep3(r, |visited|);
      visited := visited + [pos];
      pos := AdvancePos3(r, pos);
    }
    VisitEnd3(r, |visited|);
  }
}
