/** Simple::InputData (Simple/InputData.h, Simple/InputData.cpp): the input
    image of the overlapping solver. The constructor copies the image with a
    wrapped border along each periodic axis, makes rotated and mirrored
    copies of it, cuts every pattern-sized window out of each copy, merges
    windows with the same pixels into one pattern counted by its Frequency,
    and counts how often each colour appears, weighted by those
    frequencies. */
module SimpleInput {
  import opened WfcMath
  import opened Vectors
  import opened Transform2D
  import opened Arrays
  import opened SimplePattern

  // ---------------------------------------------------------------------
  // MaxPatternSize and the transformations in use

  /** usedTransformations: None, then the three rotations, then the two
      axis mirrors, each group when it is enabled. */
  function UsedTransformations(useRotations: bool, useReflections: bool): seq<Transformation>
  {
    [None] + (if useRotations then [Rotate90CW, Rotate180, Rotate270CW] else [])
           + (if useReflections then [FlipX, FlipY] else [])
  }

  /** The size of the windows cut from the copy under t: the two quarter
      turns swap the pattern's axes. */
  function WindowSize(t: Transformation, patternSize: Vector2i): Vector2i
  {
    if t.Rotate90CW? || t.Rotate270CW? then Vector2i(patternSize.y, patternSize.x) else patternSize
  }

  /** The square of the larger axis. */
  function Squared(patternSize: Vector2i): Vector2i
  {
    Vector2i(Max(patternSize.x, patternSize.y), Max(patternSize.x, patternSize.y))
  }

  /** MaxPatternSize as the constructor computes it: squared when
      reflections are used. */
  function MaxPatternSizeAsWritten(patternSize: Vector2i, useReflections: bool): Vector2i
  {
    if useReflections then Squared(patternSize) else patternSize
  }

  /** MaxPatternSize as the header describes it, the largest size a pattern
      can have along each axis: squared when rotations are used. */
  function MaxPatternSize(patternSize: Vector2i, useRotations: bool): Vector2i
  {
    if useRotations then Squared(patternSize) else patternSize
  }

  /** The corrected MaxPatternSize bounds every window size in use along
      each axis, and is reached along each axis. */
  lemma MaxPatternSizeIsLargest(patternSize: Vector2i, useRotations: bool, useReflections: bool)
    ensures forall t :: t in UsedTransformations(useRotations, useReflections) ==>
      WindowSize(t, patternSize).x <= MaxPatternSize(patternSize, useRotations).x &&
      WindowSize(t, patternSize).y <= MaxPatternSize(patternSize, useRotations).y
    ensures exists t :: (t in UsedTransformations(useRotations, useReflections) &&
      WindowSize(t, patternSize).x == MaxPatternSize(patternSize, useRotations).x)
    ensures exists t :: (t in UsedTransformations(useRotations, useReflections) &&
      WindowSize(t, patternSize).y == MaxPatternSize(patternSize, useRotations).y)
  {
    var used := UsedTransformations(useRotations, useReflections);
    var m := MaxPatternSize(patternSize, useRotations);
    assert used[0] == None;
    if useRotations {
      assert used[1] == Rotate90CW;
      if patternSize.x >= patternSize.y {
        assert WindowSize(None, patternSize).x == m.x && WindowSize(Rotate90CW, patternSize).y == m.y;
      } else {
        assert WindowSize(Rotate90CW, patternSize).x == m.x && WindowSize(None, patternSize).y == m.y;
      }
    } else {
      assert WindowSize(None, patternSize) == m;
    }
  }

  /** The two agree when rotations and reflections are both on or both off. */
  lemma MaxPatternSizeAsWrittenAgrees(patternSize: Vector2i, useRotations: bool, useReflections: bool)
    requires useRotations == useReflections
    ensures MaxPatternSizeAsWritten(patternSize, useReflections) == MaxPatternSize(patternSize, useRotations)
  {
  }

  /** With rotations but no reflections a 1 x 2 pattern keeps MaxPatternSize
      at 1 x 2, while its quarter-turned windows are 2 wide. */
  lemma MaxPatternSizeAsWrittenTooSmall()
    ensures Rotate90CW in UsedTransformations(true, false)
    ensures MaxPatternSizeAsWritten(Vector2i(1, 2), false) == Vector2i(1, 2)
    ensures WindowSize(Rotate90CW, Vector2i(1, 2)).x == 2
  {
    assert UsedTransformations(true, false)[1] == Rotate90CW;
  }

  // ---------------------------------------------------------------------
  // The copy with a wrapped border

  /** extraBorder: MaxPatternSize - 1 along each periodic axis. */
  function Border(periodicX: bool, periodicY: bool, maxPatternSize: Vector2i): Vector2i
  {
    Vector2i(if periodicX then maxPatternSize.x - 1 else 0, if periodicY then maxPatternSize.y - 1 else 0)
  }

  /** An image with at least one pixel. */
  ghost predicate NonEmpty(img: Image)
  {
    ImageValid(img) && img.size.x > 0 && img.size.y > 0
  }

  /** copy is img grown by extra, each position holding the pixel at its
      wrapped position in img. */
  ghost predicate BorderedCopy(img: Image, extra: Vector2i, copy: Image)
    requires NonEmpty(img)
  {
    ImageValid(copy) && copy.size == img.size.Plus(extra) &&
    forall p :: p in copy.at ==> copy.at[p] == img.at[Wrap2(img.size, p)]
  }

  /** The copy holds the image at its own positions, and repeats itself
      one image width to the right and one image height down. */
  lemma BorderedCopyMeaning(img: Image, extra: Vector2i, copy: Image, p: Vector2i)
    requires NonEmpty(img) && extra.x >= 0 && extra.y >= 0 && BorderedCopy(img, extra, copy)
    ensures FromSize2(img.size).Contains(p) ==> p in copy.at && copy.at[p] == img.at[p]
    ensures p in copy.at && Vector2i(p.x + img.size.x, p.y) in copy.at ==>
      copy.at[Vector2i(p.x + img.size.x, p.y)] == copy.at[p]
    ensures p in copy.at && Vector2i(p.x, p.y + img.size.y) in copy.at ==>
      copy.at[Vector2i(p.x, p.y + img.size.y)] == copy.at[p]
  {
    var w, h := img.size.x, img.size.y;
    LemmaDivModUnique(p.x + w, w, p.x / w + 1, p.x % w);
    LemmaDivModUnique(p.y + h, h, p.y / h + 1, p.y % h);
  }

  /** The loop filling dataCopy: every position of the grown image takes
      the pixel at its wrapped position. */
  method CopyWithBorder(img: Image, extra: Vector2i) returns (copy: Image)
    requires NonEmpty(img) && extra.x >= 0 && extra.y >= 0
    ensures BorderedCopy(img, extra, copy) && NonEmpty(copy)
  {
    var size := img.size.Plus(extra);
    var pts := Iterate2(FromSize2(size));
    Points2Exactly(FromSize2(size));
    var m: map<Vector2i, Pixel> := map[];
    var i := 0;
    while i < |pts|
      invariant 0 <= i <= |pts|
      invariant forall q :: q in m <==> q in pts[..i]
      invariant forall q :: q in m ==> m[q] == img.at[Wrap2(img.size, q)]
    {
      var originalPos := Wrap2(img.size, pts[i]);
      assert pts[..i + 1] == pts[..i] + [pts[i]];
      m := m[pts[i] := img.at[originalPos]];
      i := i + 1;
    }
    assert pts[..i] == pts;
    copy := Image(size, m);
  }

  // ---------------------------------------------------------------------
  // The rotated and mirrored copies

  /** Where position q of the copy transformed by t came from. */
  function Back(t: Transformation, size: Vector2i, q: Vector2i): Vector2i
  {
    Transform(Invert(t), q, SizeAfter(t, size))
  }

  /** r is img transformed by t: the transformed size, and the pixel of
      every position of img at the position Transform sends it to. */
  ghost predicate TransformOf(img: Image, t: Transformation, r: Image)
  {
    ImageValid(img) && ImageValid(r) && r.size == SizeAfter(t, img.size) &&
    forall p {:trigger img.at[p]} :: FromSize2(img.size).Contains(p) ==>
      Transform(t, p, img.size) in r.at && r.at[Transform(t, p, img.size)] == img.at[p]
  }

  /** Transform by t and Back undo each other. */
  lemma BackUndoes(t: Transformation, size: Vector2i, p: Vector2i, q: Vector2i)
    ensures Back(t, size, Transform(t, p, size)) == p
    ensures Transform(t, Back(t, size, q), size) == q
  {
    InvertUndoes(t, p, size);
    InvertIsInvolution(t);
    InvertUndoes(Invert(t), q, SizeAfter(t, size));
  }

  /** The part of the transformed copy written so far: exactly the
      positions sent to by the visited points, holding their pixels. */
  ghost predicate PlacedFrom(img: Image, t: Transformation, pts: seq<Vector2i>, m: map<Vector2i, Pixel>)
    requires ImageValid(img) && forall p :: p in pts ==> FromSize2(img.size).Contains(p)
  {
    forall q :: (q in m <==> Back(t, img.size, q) in pts) &&
      (q in m ==> m[q] == img.at[Back(t, img.size, q)])
  }

  lemma PlacedStep(img: Image, t: Transformation, pts: seq<Vector2i>, m: map<Vector2i, Pixel>, p: Vector2i)
    requires ImageValid(img) && forall p :: p in pts ==> FromSize2(img.size).Contains(p)
    requires FromSize2(img.size).Contains(p) && PlacedFrom(img, t, pts, m)
    ensures PlacedFrom(img, t, pts + [p], m[Transform(t, p, img.size) := img.at[p]])
  {
    var m' := m[Transform(t, p, img.size) := img.at[p]];
    forall q ensures (q in m' <==> Back(t, img.size, q) in pts + [p]) &&
                     (q in m' ==> m'[q] == img.at[Back(t, img.size, q)])
    {
      BackUndoes(t, img.size, p, q);
    }
  }

  /** A point of the transformed grid is written once every point of the
      original grid has been visited, and only then. */
  lemma PlacedDomain(img: Image, t: Transformation, q: Vector2i)
    requires ImageValid(img)
    ensures Back(t, img.size, q) in Points2(FromSize2(img.size)) <==> FromSize2(SizeAfter(t, img.size)).Contains(q)
  {
    Points2Exactly(FromSize2(img.size));
    BackUndoes(t, img.size, q, q);
    InvertUndoes(t, q, img.size);
    if FromSize2(img.size).Contains(Back(t, img.size, q)) {
      TransformInBounds(t, Back(t, img.size, q), img.size);
    }
    if FromSize2(SizeAfter(t, img.size)).Contains(q) {
      TransformInBounds(Invert(t), q, SizeAfter(t, img.size));
    }
  }

  lemma SizeAfterNonNegative(t: Transformation, size: Vector2i)
    requires size.x >= 0 && size.y >= 0
    ensures SizeAfter(t, size).x >= 0 && SizeAfter(t, size).y >= 0
  {
  }

  lemma PlacedValid(img: Image, t: Transformation, m: map<Vector2i, Pixel>)
    requires ImageValid(img)
    requires forall p :: p in Points2(FromSize2(img.size)) ==> FromSize2(img.size).Contains(p)
    requires PlacedFrom(img, t, Points2(FromSize2(img.size)), m)
    ensures ImageValid(Image(SizeAfter(t, img.size), m))
  {
    forall q ensures q in m <==> FromSize2(SizeAfter(t, img.size)).Contains(q) {
      PlacedDomain(img, t, q);
    }
    SizeAfterNonNegative(t, img.size);
  }

  lemma PlacedValues(img: Image, t: Transformation, m: map<Vector2i, Pixel>)
    requires ImageValid(img)
    requires forall p :: p in Points2(FromSize2(img.size)) ==> FromSize2(img.size).Contains(p)
    requires PlacedFrom(img, t, Points2(FromSize2(img.size)), m)
    ensures forall p {:trigger img.at[p]} :: FromSize2(img.size).Contains(p) ==>
      Transform(t, p, img.size) in m && m[Transform(t, p, img.size)] == img.at[p]
  {
    forall p | FromSize2(img.size).Contains(p)
      ensures Transform(t, p, img.size) in m && m[Transform(t, p, img.size)] == img.at[p]
    {
      BackUndoes(t, img.size, p, p);
      RowMajorIndex2(FromSize2(img.size), p);
    }
  }

  lemma PlacedComplete(img: Image, t: Transformation, m: map<Vector2i, Pixel>)
    requires ImageValid(img)
    requires forall p :: p in Points2(FromSize2(img.size)) ==> FromSize2(img.size).Contains(p)
    requires PlacedFrom(img, t, Points2(FromSize2(img.size)), m)
    ensures TransformOf(img, t, Image(SizeAfter(t, img.size), m))
  {
    PlacedValid(img, t, m);
    PlacedValues(img, t, m);
  }

  /** The loop making the three rotated copies of the bordered original. */
  method RotatedCopies(img: Image) returns (r90: Image, r180: Image, r270: Image)
    requires NonEmpty(img)
    ensures TransformOf(img, Rotate90CW, r90) && TransformOf(img, Rotate180, r180)
    ensures TransformOf(img, Rotate270CW, r270)
  {
    var pts := Iterate2(FromSize2(img.size));
    Points2Exactly(FromSize2(img.size));
    var m90: map<Vector2i, Pixel> := map[];
    var m180: map<Vector2i, Pixel> := map[];
    var m270: map<Vector2i, Pixel> := map[];
    var i := 0;
    while i < |pts|
      invariant 0 <= i <= |pts|
      invariant forall p :: p in pts[..i] ==> FromSize2(img.size).Contains(p)
      invariant PlacedFrom(img, Rotate90CW, pts[..i], m90)
      invariant PlacedFrom(img, Rotate180, pts[..i], m180)
      invariant PlacedFrom(img, Rotate270CW, pts[..i], m270)
    {
      var originalPos := pts[i];
      var pixel := img.at[originalPos];
      assert pts[..i + 1] == pts[..i] + [originalPos];
      PlacedStep(img, Rotate90CW, pts[..i], m90, originalPos);
      PlacedStep(img, Rotate180, pts[..i], m180, originalPos);
      PlacedStep(img, Rotate270CW, pts[..i], m270, originalPos);
      m90 := m90[Transform(Rotate90CW, originalPos, img.size) := pixel];
      m180 := m180[Transform(Rotate180, originalPos, img.size) := pixel];
      m270 := m270[Transform(Rotate270CW, originalPos, img.size) := pixel];
      i := i + 1;
    }
    assert pts[..i] == pts;
    PlacedComplete(img, Rotate90CW, m90);
    PlacedComplete(img, Rotate180, m180);
    PlacedComplete(img, Rotate270CW, m270);
    r90 := Image(SizeAfter(Rotate90CW, img.size), m90);
    r180 := Image(SizeAfter(Rotate180, img.size), m180);
    r270 := Image(SizeAfter(Rotate270CW, img.size), m270);
  }

  /** The loop making the two mirrored copies of the bordered original. */
  method MirroredCopies(img: Image) returns (rx: Image, ry: Image)
    requires NonEmpty(img)
    ensures TransformOf(img, FlipX, rx) && TransformOf(img, FlipY, ry)
  {
    var pts := Iterate2(FromSize2(img.size));
    Points2Exactly(FromSize2(img.size));
    var mx: map<Vector2i, Pixel> := map[];
    var my: map<Vector2i, Pixel> := map[];
    var i := 0;
    while i < |pts|
      invariant 0 <= i <= |pts|
      invariant forall p :: p in pts[..i] ==> FromSize2(img.size).Contains(p)
      invariant PlacedFrom(img, FlipX, pts[..i], mx)
      invariant PlacedFrom(img, FlipY, pts[..i], my)
    {
      var originalPos := pts[i];
      var pixel := img.at[originalPos];
      assert pts[..i + 1] == pts[..i] + [originalPos];
      PlacedStep(img, FlipX, pts[..i], mx, originalPos);
      PlacedStep(img, FlipY, pts[..i], my, originalPos);
      mx := mx[Transform(FlipX, originalPos, img.size) := pixel];
      my := my[Transform(FlipY, originalPos, img.size) := pixel];
      i := i + 1;
    }
    assert pts[..i] == pts;
    PlacedComplete(img, FlipX, mx);
    PlacedComplete(img, FlipY, my);
    rx := Image(SizeAfter(FlipX, img.size), mx);
    ry := Image(SizeAfter(FlipY, img.size), my);
  }

  // ---------------------------------------------------------------------
  // Cutting out the windows

  /** The corners of the windows of size tps in a copy of size dims:
      Region2i(dims - tps + 1). */
  function Corners(dims: Vector2i, tps: Vector2i): Region2i
  {
    FromSize2(dims.Minus(tps).Plus(Vector2i(1, 1)))
  }

  /** The iteration over the corners ends, and it visits only corners of
      windows inside the copy: the corner region has no negative height,
      and no zero width unless it is empty. */
  predicate CornersIterable(dims: Vector2i, tps: Vector2i)
  {
    var c := Corners(dims, tps).GetSize();
    c.y >= 0 && (c.y > 0 ==> c.x > 0)
  }

  /** Every window of size tps in the copy under t, corner by corner in
      row-major order, each with Frequency 1. */
  function Windows(t: Transformation, dims: Vector2i, tps: Vector2i): (ws: seq<Pattern>)
  {
    var pts := Points2(Corners(dims, tps));
    seq(|pts|, k requires 0 <= k < |pts| => Pattern(1, t, Region2i(pts[k], pts[k].Plus(tps))))
  }

  /** The windows of every transformation in ts, in that order. */
  function AllWindows(images: Images, ts: seq<Transformation>, patternSize: Vector2i): seq<Pattern>
    requires forall t :: t in ts ==> t in images
  {
    if |ts| == 0 then [] else
    var t := ts[|ts| - 1];
    AllWindows(images, ts[..|ts| - 1], patternSize) + Windows(t, images[t].size, WindowSize(t, patternSize))
  }

  /** The windows are exactly the tps-sized regions that lie inside the
      copy. */
  lemma WindowsExactly(t: Transformation, dims: Vector2i, tps: Vector2i, pos: Vector2i)
    requires tps.x >= 1 && tps.y >= 1
    ensures Pattern(1, t, Region2i(pos, pos.Plus(tps))) in Windows(t, dims, tps) <==>
      0 <= pos.x && pos.x + tps.x <= dims.x && 0 <= pos.y && pos.y + tps.y <= dims.y
  {
    var c := Corners(dims, tps);
    var ws := Windows(t, dims, tps);
    var w := Pattern(1, t, Region2i(pos, pos.Plus(tps)));
    if w in ws {
      var k :| 0 <= k < |ws| && ws[k] == w;
      RowMajorInside2(c, k);
    }
    if c.Contains(pos) {
      RowMajorIndex2(c, pos);
      assert ws[IndexOf2(c, pos)] == w;
    }
  }

  /** Each window is listed once. */
  lemma WindowsDistinct(t: Transformation, dims: Vector2i, tps: Vector2i)
    ensures forall i, j :: 0 <= i < j < |Windows(t, dims, tps)| ==>
      Windows(t, dims, tps)[i] != Windows(t, dims, tps)[j]
  {
    var c := Corners(dims, tps);
    forall i, j | 0 <= i < j < |Windows(t, dims, tps)|
      ensures Windows(t, dims, tps)[i] != Windows(t, dims, tps)[j]
    {
      RowMajorInside2(c, i);
      RowMajorInside2(c, j);
    }
  }

  /** Every pattern of a list reads inside its image. */
  ghost predicate AllReadable(images: Images, ps: seq<Pattern>)
  {
    forall k :: 0 <= k < |ps| ==> Readable(images, ps[k])
  }

  /** Every window has Frequency 1 and reads inside its copy. */
  lemma WindowsReadable(images: Images, t: Transformation, tps: Vector2i)
    requires t in images && ImageValid(images[t]) && tps.x >= 1 && tps.y >= 1
    ensures AllReadable(images, Windows(t, images[t].size, tps))
    ensures forall k :: 0 <= k < |Windows(t, images[t].size, tps)| ==> Windows(t, images[t].size, tps)[k].Frequency == 1
  {
    var c := Corners(images[t].size, tps);
    forall k | 0 <= k < |Points2(c)| ensures Readable(images, Windows(t, images[t].size, tps)[k]) {
      RowMajorInside2(c, k);
    }
  }

  /** The inner loop: one window per corner. */
  method WindowsOf(t: Transformation, dims: Vector2i, tps: Vector2i) returns (ws: seq<Pattern>)
    requires CornersIterable(dims, tps)
    ensures ws == Windows(t, dims, tps)
  {
    var pts := Iterate2(Corners(dims, tps));
    ws := [];
    var i := 0;
    while i < |pts|
      invariant 0 <= i <= |pts|
      invariant ws == Windows(t, dims, tps)[..i]
    {
      var patternRange := Region2i(pts[i], pts[i].Plus(tps));
      ws := ws + [Pattern(1, t, patternRange)];
      i := i + 1;
    }
  }

  /** The loop over the transformations in use, appending each one's
      windows. */
  method ExtractWindows(images: Images, ts: seq<Transformation>, patternSize: Vector2i) returns (patterns: seq<Pattern>)
    requires forall t :: t in ts ==> t in images && CornersIterable(images[t].size, WindowSize(t, patternSize))
    ensures patterns == AllWindows(images, ts, patternSize)
  {
    patterns := [];
    var i := 0;
    while i < |ts|
      invariant 0 <= i <= |ts|
      invariant patterns == AllWindows(images, ts[..i], patternSize)
    {
      var transf := ts[i];
      assert ts[..i + 1][..i] == ts[..i];
      var ws := WindowsOf(transf, images[transf].size, WindowSize(transf, patternSize));
      patterns := patterns + ws;
      i := i + 1;
    }
    assert ts[..i] == ts;
  }

  /** With images valid and a pattern size of at least one along each axis,
      every window of every transformation reads inside its copy and has
      Frequency 1. */
  lemma {:induction false} AllWindowsReadable(images: Images, ts: seq<Transformation>, patternSize: Vector2i)
    requires forall t :: t in ts ==> t in images && ImageValid(images[t])
    requires patternSize.x >= 1 && patternSize.y >= 1
    ensures AllReadable(images, AllWindows(images, ts, patternSize))
    ensures Ones(AllWindows(images, ts, patternSize))
  {
    if |ts| > 0 {
      var t := ts[|ts| - 1];
      AllWindowsReadable(images, ts[..|ts| - 1], patternSize);
      WindowsReadable(images, t, WindowSize(t, patternSize));
    }
  }

  // ---------------------------------------------------------------------
  // Removing duplicates

  /** Every pattern has Frequency 1, as every window does. */
  ghost predicate Ones(ps: seq<Pattern>)
  {
    forall k :: 0 <= k < |ps| ==> ps[k].Frequency == 1
  }

  /** The patterns of s that do not have the same data as a, in order. */
  ghost function Remove(images: Images, s: seq<Pattern>, a: Pattern): (r: seq<Pattern>)
    requires Readable(images, a) && AllReadable(images, s)
    ensures |r| <= |s| && AllReadable(images, r)
    ensures forall x :: x in r ==> x in s && !SameData(images, a, x)
    ensures Ones(s) ==> Ones(r)
  {
    if |s| == 0 then [] else
    var init := Remove(images, s[..|s| - 1], a);
    if SameData(images, a, s[|s| - 1]) then init else init + [s[|s| - 1]]
  }

  /** The patterns of s with the same data as a are the ones Remove drops. */
  lemma {:induction false} RemoveKeepsOthers(images: Images, s: seq<Pattern>, a: Pattern, x: Pattern)
    requires Readable(images, a) && AllReadable(images, s)
    requires x in s && !SameData(images, a, x)
    ensures x in Remove(images, s, a)
  {
    if x != s[|s| - 1] {
      RemoveKeepsOthers(images, s[..|s| - 1], a, x);
    }
  }

  /** The functional form of the duplicate removal: the first pattern
      absorbs every later pattern with the same data, one Frequency unit
      each, and the removal goes on over what is left. */
  ghost function Dedup(images: Images, s: seq<Pattern>): (r: seq<Pattern>)
    requires AllReadable(images, s)
    ensures AllReadable(images, r)
    decreases |s|
  {
    if |s| == 0 then [] else
    var rest := Remove(images, s[1..], s[0]);
    [s[0].(Frequency := s[0].Frequency + (|s| - 1 - |rest|))] + Dedup(images, rest)
  }

  /** Two patterns with the same transformation and region. */
  predicate SameWindow(a: Pattern, b: Pattern)
  {
    a.InputDataTransform == b.InputDataTransform && a.InputDataRegion == b.InputDataRegion
  }

  /** Every pattern of the result is, up to its Frequency, one of the
      input's. */
  lemma {:induction false} DedupFrom(images: Images, s: seq<Pattern>, x: Pattern)
    requires AllReadable(images, s) && x in Dedup(images, s)
    ensures exists y :: y in s && SameWindow(x, y)
    decreases |s|
  {
    var rest := Remove(images, s[1..], s[0]);
    if x != Dedup(images, s)[0] {
      DedupFrom(images, rest, x);
      var y :| y in rest && SameWindow(x, y);
      assert y in s[1..];
    } else {
      assert s[0] in s && SameWindow(x, s[0]);
    }
  }

  /** After the removal no two patterns have the same data. */
  lemma {:induction false} DedupDistinct(images: Images, s: seq<Pattern>)
    requires AllReadable(images, s)
    ensures forall i, j :: 0 <= i < j < |Dedup(images, s)| ==>
      !SameData(images, Dedup(images, s)[i], Dedup(images, s)[j])
    decreases |s|
  {
    if |s| > 0 {
      var r := Dedup(images, s);
      var rest := Remove(images, s[1..], s[0]);
      DedupDistinct(images, rest);
      forall j | 0 < j < |r| ensures !SameData(images, r[0], r[j]) {
        assert r[j] in Dedup(images, rest);
        DedupFrom(images, rest, r[j]);
        var y :| y in rest && SameWindow(r[j], y);
        assert !SameData(images, s[0], y);
      }
      forall i, j | 0 < i < j < |r| ensures !SameData(images, r[i], r[j]) {
        assert r[i] == Dedup(images, rest)[i - 1] && r[j] == Dedup(images, rest)[j - 1];
      }
    }
  }

  /** Every window has the same data as some pattern of the result. */
  lemma {:induction false} DedupCovers(images: Images, s: seq<Pattern>, x: Pattern)
    requires AllReadable(images, s) && x in s
    ensures exists y :: y in Dedup(images, s) && SameData(images, x, y)
    decreases |s|
  {
    var r := Dedup(images, s);
    var rest := Remove(images, s[1..], s[0]);
    if SameData(images, s[0], x) {
      SameDataEquivalence(images, s[0], x, s[0]);
      assert SameData(images, x, r[0]);
    } else {
      assert x in s[1..];
      RemoveKeepsOthers(images, s[1..], s[0], x);
      DedupCovers(images, rest, x);
      var y :| y in Dedup(images, rest) && SameData(images, x, y);
      assert y in r;
    }
  }

  /** The sum of the patterns' frequencies. */
  function TotalFrequency(ps: seq<Pattern>): nat
  {
    if |ps| == 0 then 0 else TotalFrequency(ps[..|ps| - 1]) + ps[|ps| - 1].Frequency
  }

  lemma {:induction false} OnesTotal(ps: seq<Pattern>)
    requires Ones(ps)
    ensures TotalFrequency(ps) == |ps|
  {
    if |ps| > 0 {
      OnesTotal(ps[..|ps| - 1]);
    }
  }

  /** The frequencies after the removal add up to the number of windows. */
  lemma {:induction false} DedupTotal(images: Images, s: seq<Pattern>)
    requires AllReadable(images, s) && Ones(s)
    ensures TotalFrequency(Dedup(images, s)) == |s|
    decreases |s|
  {
    if |s| > 0 {
      var rest := Remove(images, s[1..], s[0]);
      DedupTotal(images, rest);
      var r := Dedup(images, s);
      TotalFront(r);
      assert r[1..] == Dedup(images, rest);
    }
  }

  /** The total splits off the first pattern. */
  lemma {:induction false} TotalFront(ps: seq<Pattern>)
    requires |ps| > 0
    ensures TotalFrequency(ps) == ps[0].Frequency + TotalFrequency(ps[1..])
  {
    if |ps| > 1 {
      TotalFront(ps[..|ps| - 1]);
      assert ps[..|ps| - 1][1..] == ps[1..][..|ps| - 2];
    } else {
      assert ps[1..] == [];
    }
  }

  // ---------------------------------------------------------------------
  // The removal loops

  /** A pattern's Frequency plays no part in what it reads. */
  lemma FrequencyIrrelevant(images: Images, a: Pattern, f: nat, b: Pattern)
    requires Readable(images, a) && Readable(images, b)
    ensures Readable(images, a.(Frequency := f))
    ensures Pixels(images, a.(Frequency := f)) == Pixels(images, a)
    ensures SameData(images, a.(Frequency := f), b) <==> SameData(images, a, b)
  {
    var a' := a.(Frequency := f);
    assert SizeOf(a') == SizeOf(a);
    assert forall k :: 0 <= k < |Pixels(images, a)| ==> Pixels(images, a')[k] == Pixels(images, a)[k];
  }

  /** patternHashes: the hash of each pattern, position by position. */
  ghost predicate Hashed(images: Images, ps: seq<Pattern>, hs: seq<nat>)
  {
    |hs| == |ps| && AllReadable(images, ps) &&
    forall k :: 0 <= k < |ps| ==> hs[k] == Hash(Pixels(images, ps[k]))
  }

  /** The first loop: every pattern's GetHashcode. */
  method HashAll(images: Images, ps: seq<Pattern>) returns (hs: seq<nat>)
    requires AllReadable(images, ps)
    ensures Hashed(images, ps, hs)
  {
    hs := [];
    var i := 0;
    while i < |ps|
      invariant 0 <= i <= |ps| && |hs| == i
      invariant forall k :: 0 <= k < i ==> hs[k] == Hash(Pixels(images, ps[k]))
    {
      var h := GetHashcode(images, ps[i]);
      hs := hs + [h];
      i := i + 1;
    }
  }

  /** One pass of the inner loop: the pattern at j is compared with the
      one at i, by hash first and then by HasSameData; a duplicate is
      erased, with its hash, and counted into pattern i. */
  method MergeStep(images: Images, ps: seq<Pattern>, hs: seq<nat>, i: nat, j: nat)
    returns (ps': seq<Pattern>, hs': seq<nat>, merged: bool)
    requires i < j < |ps| && Hashed(images, ps, hs)
    ensures Hashed(images, ps', hs')
    ensures merged <==> SameData(images, ps[i], ps[j])
    ensures merged ==> ps' == ps[i := ps[i].(Frequency := ps[i].Frequency + 1)][..j] + ps[j + 1..]
    ensures !merged ==> ps' == ps && hs' == hs
  {
    var same := false;
    if hs[i] == hs[j] {
      same := HasSameData(images, ps[i], ps[j]);
    } else if SameData(images, ps[i], ps[j]) {
      SameDataSameHash(images, ps[i], ps[j]);
      assert false;
    }
    merged := same;
    if same {
      var bumped := ps[i].(Frequency := ps[i].Frequency + 1);
      FrequencyIrrelevant(images, ps[i], bumped.Frequency, ps[i]);
      var withCount := ps[i := bumped];
      ps' := withCount[..j] + withCount[j + 1..];
      hs' := hs[..j] + hs[j + 1..];
      assert withCount[..j] + withCount[j + 1..] == ps[i := bumped][..j] + ps[j + 1..];
      forall k | 0 <= k < |ps'| ensures Readable(images, ps'[k]) && hs'[k] == Hash(Pixels(images, ps'[k])) {
        if k >= j {
          assert ps'[k] == ps[k + 1] && hs'[k] == hs[k + 1];
        }
      }
    } else {
      ps', hs' := ps, hs;
    }
  }

  /** The state of the inner loop for pattern a at index i, after k of
      the later patterns (rest) have been examined: pattern i has absorbed
      the duplicates among them, the others are kept before j, and the
      unexamined ones follow from j. */
  ghost predicate Merging(images: Images, patterns: seq<Pattern>, i: nat, ps: seq<Pattern>, hs: seq<nat>, j: nat, k: nat)
    requires i < |patterns| && AllReadable(images, patterns)
  {
    Hashed(images, ps, hs) && MergeShape(images, patterns, i, ps, j, k)
  }

  ghost predicate MergeShape(images: Images, patterns: seq<Pattern>, i: nat, ps: seq<Pattern>, j: nat, k: nat)
    requires i < |patterns| && AllReadable(images, patterns)
  {
    var a, rest := patterns[i], patterns[i + 1..];
    i + 1 <= j <= |ps| && 0 <= k <= |rest| &&
    Shaped(patterns[..i], a, rest, Remove(images, rest[..k], a), k - |Remove(images, rest[..k], a)|, ps, i, j, k)
  }

  /** The layout of the vector during the inner loop: the finished prefix,
      pattern a with count extra added, the kept patterns, and the
      unexamined rest from j. */
  predicate Shaped(prefix: seq<Pattern>, a: Pattern, rest: seq<Pattern>, kept: seq<Pattern>, extra: nat,
                   ps: seq<Pattern>, i: nat, j: nat, k: nat)
  {
    i < j <= |ps| && k <= |rest| &&
    ps[..i] == prefix && ps[i] == a.(Frequency := a.Frequency + extra) &&
    ps[i + 1..j] == kept && ps[j..] == rest[k..]
  }

  /** Moving past a pattern that stays. */
  lemma ShapedKeep(prefix: seq<Pattern>, a: Pattern, rest: seq<Pattern>, kept: seq<Pattern>, extra: nat,
                   ps: seq<Pattern>, i: nat, j: nat, k: nat)
    requires Shaped(prefix, a, rest, kept, extra, ps, i, j, k) && j < |ps|
    ensures k < |rest| && ps[j] == rest[k]
    ensures Shaped(prefix, a, rest, kept + [ps[j]], extra, ps, i, j + 1, k + 1)
  {
    assert ps[j..][0] == rest[k..][0];
    assert ps[i + 1..j + 1] == ps[i + 1..j] + [ps[j]];
    assert ps[j + 1..] == ps[j..][1..];
  }

  /** Erasing a duplicate at j, counted into pattern i. */
  lemma ShapedErase(prefix: seq<Pattern>, a: Pattern, rest: seq<Pattern>, kept: seq<Pattern>, extra: nat,
                    ps: seq<Pattern>, i: nat, j: nat, k: nat, ps': seq<Pattern>)
    requires Shaped(prefix, a, rest, kept, extra, ps, i, j, k) && j < |ps|
    requires ps' == ps[i := ps[i].(Frequency := ps[i].Frequency + 1)][..j] + ps[j + 1..]
    ensures k < |rest| && ps[j] == rest[k]
    ensures Shaped(prefix, a, rest, kept, extra + 1, ps', i, j, k + 1)
  {
    assert ps[j..][0] == rest[k..][0];
    assert ps'[i + 1..j] == ps[i + 1..j];
    assert ps'[j..] == ps[j + 1..];
    assert ps[j + 1..] == ps[j..][1..];
    assert ps'[..i] == ps[..i];
  }

  lemma MergingStep(images: Images, patterns: seq<Pattern>, i: nat, ps: seq<Pattern>, hs: seq<nat>, j: nat, k: nat,
                    ps': seq<Pattern>, hs': seq<nat>, merged: bool)
    requires i < |patterns| && AllReadable(images, patterns)
    requires Merging(images, patterns, i, ps, hs, j, k) && j < |ps|
    requires Hashed(images, ps', hs')
    requires merged <==> SameData(images, ps[i], ps[j])
    requires merged ==> ps' == ps[i := ps[i].(Frequency := ps[i].Frequency + 1)][..j] + ps[j + 1..]
    requires !merged ==> ps' == ps && hs' == hs
    ensures Merging(images, patterns, i, ps', hs', if merged then j else j + 1, k + 1)
  {
    var a, rest := patterns[i], patterns[i + 1..];
    var kept := Remove(images, rest[..k], a);
    var extra := k - |kept|;
    if merged {
      ShapedErase(patterns[..i], a, rest, kept, extra, ps, i, j, k, ps');
    } else {
      ShapedKeep(patterns[..i], a, rest, kept, extra, ps, i, j, k);
    }
    FrequencyIrrelevant(images, a, ps[i].Frequency, rest[k]);
    RemoveStep(images, rest, a, k);
  }

  lemma RemoveStep(images: Images, rest: seq<Pattern>, a: Pattern, k: nat)
    requires Readable(images, a) && AllReadable(images, rest) && k < |rest|
    ensures Remove(images, rest[..k + 1], a) ==
      if SameData(images, a, rest[k]) then Remove(images, rest[..k], a) else Remove(images, rest[..k], a) + [rest[k]]
  {
    assert rest[..k + 1][..k] == rest[..k];
  }

  /** The body of the inner loop: compare, and either erase the pattern
      at j or move past it. */
  method MergeAt(images: Images, ghost patterns: seq<Pattern>, i: nat, ps: seq<Pattern>, hs: seq<nat>, j: nat, ghost k: nat)
    returns (ps': seq<Pattern>, hs': seq<nat>, j': nat)
    requires i < |patterns| && AllReadable(images, patterns)
    requires Merging(images, patterns, i, ps, hs, j, k) && j < |ps|
    ensures Merging(images, patterns, i, ps', hs', j', k + 1)
    ensures |ps'| - j' < |ps| - j
  {
    var merged;
    ps', hs', merged := MergeStep(images, ps, hs, i, j);
    MergingStep(images, patterns, i, ps, hs, j, k, ps', hs', merged);
    j' := if merged then j else j + 1;
  }

  /** The inner loop over j for a fixed i: pattern i absorbs every later
      pattern with the same data, and the others stay, in order. */
  method MergeDuplicates(images: Images, patterns: seq<Pattern>, hashes: seq<nat>, i: nat)
    returns (ps: seq<Pattern>, hs: seq<nat>)
    requires i < |patterns| && Hashed(images, patterns, hashes)
    ensures Hashed(images, ps, hs) && i < |ps|
    ensures ps[..i] == patterns[..i]
    ensures ps[i + 1..] == Remove(images, patterns[i + 1..], patterns[i])
    ensures ps[i] == patterns[i].(Frequency := patterns[i].Frequency + (|patterns| - |ps|))
  {
    ps, hs := patterns, hashes;
    var j: nat := i + 1;
    ghost var k: nat := 0;
    assert patterns[i + 1..][..0] == [];
    while j < |ps|
      invariant Merging(images, patterns, i, ps, hs, j, k)
      decreases |ps| - j
    {
      ps, hs, j := MergeAt(images, patterns, i, ps, hs, j, k);
      k := k + 1;
    }
    MergingDone(images, patterns, i, ps, hs, j, k);
  }

  lemma MergingDone(images: Images, patterns: seq<Pattern>, i: nat, ps: seq<Pattern>, hs: seq<nat>, j: nat, k: nat)
    requires i < |patterns| && AllReadable(images, patterns)
    requires Merging(images, patterns, i, ps, hs, j, k) && j == |ps|
    ensures ps[i + 1..] == Remove(images, patterns[i + 1..], patterns[i])
    ensures ps[i] == patterns[i].(Frequency := patterns[i].Frequency + (|patterns| - |ps|))
  {
    var rest := patterns[i + 1..];
    assert rest[k..] == [];
    assert rest[..k] == rest;
  }

  /** One round of the outer loop keeps the finished prefix plus the
      removal of the rest equal to the removal of all windows. */
  lemma DedupRound(images: Images, patterns: seq<Pattern>, i: nat, ps: seq<Pattern>)
    requires i < |patterns| && AllReadable(images, patterns) && AllReadable(images, ps) && i < |ps|
    requires ps[..i] == patterns[..i]
    requires ps[i + 1..] == Remove(images, patterns[i + 1..], patterns[i])
    requires ps[i] == patterns[i].(Frequency := patterns[i].Frequency + (|patterns| - |ps|))
    ensures ps[..i + 1] + Dedup(images, ps[i + 1..]) == patterns[..i] + Dedup(images, patterns[i..])
  {
    var s := patterns[i..];
    assert s[0] == patterns[i] && s[1..] == patterns[i + 1..];
    assert AllReadable(images, s);
    var rest := Remove(images, s[1..], s[0]);
    assert rest == ps[i + 1..];
    assert |s| - 1 - |rest| == |patterns| - |ps|;
    var d := Dedup(images, rest);
    assert Dedup(images, s) == [ps[i]] + d;
    assert ps[..i + 1] == patterns[..i] + [ps[i]];
    JoinFront(patterns[..i], ps[i], d);
  }

  lemma JoinFront<T>(front: seq<T>, x: T, d: seq<T>)
    ensures (front + [x]) + d == front + ([x] + d)
  {
  }

  /** The duplicate removal: for each pattern in turn, merge every later
      one with the same data into it. */
  method Deduplicate(images: Images, windows: seq<Pattern>) returns (patterns: seq<Pattern>)
    requires AllReadable(images, windows)
    ensures patterns == Dedup(images, windows)
  {
    var hashes := HashAll(images, windows);
    patterns := windows;
    var i := 0;
    while i < |patterns|
      invariant 0 <= i <= |patterns|
      invariant Hashed(images, patterns, hashes)
      invariant patterns[..i] + Dedup(images, patterns[i..]) == Dedup(images, windows)
    {
      var ps, hs := MergeDuplicates(images, patterns, hashes, i);
      DedupRound(images, patterns, i, ps);
      patterns, hashes := ps, hs;
      i := i + 1;
    }
    assert patterns[i..] == [];
    assert patterns[..i] == patterns;
  }

  // ---------------------------------------------------------------------
  // Pixel frequencies

  /** How often c occurs in s. */
  function Occurrences(s: seq<Pixel>, c: Pixel): nat
  {
    if |s| == 0 then 0 else Occurrences(s[..|s| - 1], c) + (if s[|s| - 1] == c then 1 else 0)
  }

  /** A colour occurs in s exactly when it is one of its pixels. */
  lemma {:induction false} OccurrencesPositive(s: seq<Pixel>, c: Pixel)
    ensures Occurrences(s, c) > 0 <==> c in s
  {
    if |s| > 0 {
      OccurrencesPositive(s[..|s| - 1], c);
      assert s == s[..|s| - 1] + [s[|s| - 1]];
    }
  }

  /** The weight of c in s when each of its pixels counts f. */
  function Tally(s: seq<Pixel>, c: Pixel, f: nat): nat
  {
    if |s| == 0 then 0 else Tally(s[..|s| - 1], c, f) + (if s[|s| - 1] == c then f else 0)
  }

  /** Each pixel counting f, c weighs f times its number of occurrences. */
  lemma {:induction false} TallyIsProduct(s: seq<Pixel>, c: Pixel, f: nat)
    ensures Tally(s, c, f) == f * Occurrences(s, c)
  {
    if |s| > 0 {
      TallyIsProduct(s[..|s| - 1], c, f);
      MulStep(f, Occurrences(s[..|s| - 1], c), if s[|s| - 1] == c then 1 else 0);
    }
  }

  lemma MulStep(f: nat, o: nat, b: nat)
    ensures f * (o + b) == f * o + f * b
  {
  }

  /** The number of times c appears in the input as the patterns see it:
      each pattern's occurrences of c, weighted by its Frequency (see
      TallyIsProduct). */
  ghost function Weighted(images: Images, ps: seq<Pattern>, c: Pixel): nat
    requires AllReadable(images, ps)
  {
    if |ps| == 0 then 0 else
    Weighted(images, ps[..|ps| - 1], c) + Tally(Pixels(images, ps[|ps| - 1]), c, ps[|ps| - 1].Frequency)
  }

  /** c is a pixel of one of the patterns. */
  ghost predicate Appears(images: Images, ps: seq<Pattern>, c: Pixel)
    requires AllReadable(images, ps)
  {
    exists k :: 0 <= k < |ps| && c in Pixels(images, ps[k])
  }

  /** Dictionary lookup through operator[]: a missing colour counts 0. */
  function Count(m: map<Pixel, nat>, c: Pixel): nat
  {
    if c in m then m[c] else 0
  }

  /** freq is freq0 with the pixels of s added, each counting f. */
  ghost predicate Tallied(freq0: map<Pixel, nat>, freq: map<Pixel, nat>, s: seq<Pixel>, f: nat)
  {
    forall c :: Count(freq, c) == Count(freq0, c) + Tally(s, c, f) && (c in freq <==> c in freq0 || c in s)
  }

  lemma TalliedStep(freq0: map<Pixel, nat>, freq: map<Pixel, nat>, s: seq<Pixel>, j: nat, f: nat)
    requires j < |s| && Tallied(freq0, freq, s[..j], f)
    ensures Tallied(freq0, freq[s[j] := Count(freq, s[j]) + f], s[..j + 1], f)
  {
    assert s[..j + 1][..j] == s[..j];
  }

  /** The loop over one pattern's positions, adding its Frequency to the
      count of each pixel. */
  method AddPatternPixels(images: Images, freq: map<Pixel, nat>, pat: Pattern) returns (freq': map<Pixel, nat>)
    requires Readable(images, pat)
    ensures Tallied(freq, freq', Pixels(images, pat), pat.Frequency)
  {
    var pts := Iterate2(FromSize2(SizeOf(pat)));
    ghost var pixels := Pixels(images, pat);
    freq' := freq;
    var j := 0;
    assert pixels[..0] == [];
    while j < |pts|
      invariant 0 <= j <= |pts| == |pixels|
      invariant Tallied(freq, freq', pixels[..j], pat.Frequency)
    {
      PixelsIndex(images, pat, j);
      var color := PixelAt(images, pat, pts[j]);
      TalliedStep(freq, freq', pixels, j, pat.Frequency);
      freq' := freq'[color := Count(freq', color) + pat.Frequency];
      j := j + 1;
    }
    assert pixels[..j] == pixels;
  }

  lemma AppearsStep(images: Images, ps: seq<Pattern>, i: nat, c: Pixel)
    requires AllReadable(images, ps) && i < |ps|
    ensures Appears(images, ps[..i + 1], c) <==> Appears(images, ps[..i], c) || c in Pixels(images, ps[i])
  {
    if Appears(images, ps[..i + 1], c) {
      var k :| 0 <= k < i + 1 && c in Pixels(images, ps[..i + 1][k]);
      if k < i {
        assert ps[..i][k] == ps[..i + 1][k];
      }
    }
    if Appears(images, ps[..i], c) {
      var k :| 0 <= k < i && c in Pixels(images, ps[..i][k]);
      assert ps[..i + 1][k] == ps[..i][k];
    }
    if c in Pixels(images, ps[i]) {
      assert ps[..i + 1][i] == ps[i];
    }
  }

  /** The last loop of the constructor: pixelFrequencies[c] ends up as the
      weighted number of occurrences of c, and holds exactly the colours
      that occur. */
  method CountPixelFrequencies(images: Images, ps: seq<Pattern>) returns (freq: map<Pixel, nat>)
    requires AllReadable(images, ps)
    ensures forall c :: Count(freq, c) == Weighted(images, ps, c)
    ensures forall c :: c in freq <==> Appears(images, ps, c)
  {
    freq := map[];
    var i := 0;
    while i < |ps|
      invariant 0 <= i <= |ps|
      invariant forall c :: Count(freq, c) == Weighted(images, ps[..i], c)
      invariant forall c :: c in freq <==> Appears(images, ps[..i], c)
    {
      var pattern := ps[i];
      assert ps[..i + 1][..i] == ps[..i] && ps[..i + 1][i] == pattern;
      forall c ensures Appears(images, ps[..i + 1], c) <==> Appears(images, ps[..i], c) || c in Pixels(images, ps[i]) {
        AppearsStep(images, ps, i, c);
      }
      freq := AddPatternPixels(images, freq, pattern);
      i := i + 1;
    }
    assert ps[..i] == ps;
  }

  /** A colour weighs something with a positive f exactly when it occurs. */
  lemma {:induction false} TallyPositive(s: seq<Pixel>, c: Pixel, f: nat)
    requires f >= 1
    ensures Tally(s, c, f) > 0 <==> c in s
  {
    if |s| > 0 {
      TallyPositive(s[..|s| - 1], c, f);
      assert s == s[..|s| - 1] + [s[|s| - 1]];
    }
  }

  /** Every counted colour has a positive count when every pattern has a
      positive Frequency. */
  lemma {:induction false} WeightedPositive(images: Images, ps: seq<Pattern>, c: Pixel)
    requires AllReadable(images, ps) && (forall k :: 0 <= k < |ps| ==> ps[k].Frequency >= 1)
    ensures Weighted(images, ps, c) > 0 <==> Appears(images, ps, c)
  {
    if |ps| > 0 {
      var n := |ps| - 1;
      assert ps[..n + 1] == ps;
      WeightedPositive(images, ps[..n], c);
      TallyPositive(Pixels(images, ps[n]), c, ps[n].Frequency);
      AppearsStep(images, ps, n, c);
    }
  }

  /** After the removal every pattern has a Frequency of at least one. */
  lemma {:induction false} DedupPositive(images: Images, s: seq<Pattern>)
    requires AllReadable(images, s) && Ones(s)
    ensures forall k :: 0 <= k < |Dedup(images, s)| ==> Dedup(images, s)[k].Frequency >= 1
    decreases |s|
  {
    if |s| > 0 {
      var rest := Remove(images, s[1..], s[0]);
      DedupPositive(images, rest);
      assert forall k :: 1 <= k < |Dedup(images, s)| ==> Dedup(images, s)[k] == Dedup(images, rest)[k - 1];
    }
  }

  // ---------------------------------------------------------------------
  // The constructor

  /** Simple::InputData. The arrays of pixelDataByTransform that are not in
      use stay empty in the source; here they are absent from images. */
  datatype InputData = InputData(PeriodicX: bool, PeriodicY: bool,
                                 OriginalPatternSize: Vector2i, MaxPatternSize: Vector2i,
                                 images: Images, patterns: seq<Pattern>, pixelFrequencies: map<Pixel, nat>)

  /** What the constructor needs of its arguments: an image with pixels, a
      pattern size of at least one along each axis, and, for the copy and
      for the quarter-turned copies when rotations are used, window corners
      whose iteration ends and stays inside the copy. */
  predicate Extractable(dims: Vector2i, patternSize: Vector2i, periodicX: bool, periodicY: bool, useRotations: bool)
  {
    var c := dims.Plus(Border(periodicX, periodicY, MaxPatternSize(patternSize, useRotations)));
    dims.x >= 1 && dims.y >= 1 && patternSize.x >= 1 && patternSize.y >= 1 &&
    CornersIterable(c, patternSize) &&
    (useRotations ==> CornersIterable(Vector2i(c.y, c.x), Vector2i(patternSize.y, patternSize.x)))
  }

  /** The images the constructor makes: the bordered copy under None and
      each other transformation in use applied to that copy. */
  ghost predicate CopiesOf(pixelData: Image, extra: Vector2i, used: seq<Transformation>, images: Images)
    requires NonEmpty(pixelData)
  {
    (forall t :: t in images <==> t in used) && None in images &&
    BorderedCopy(pixelData, extra, images[None]) && NonEmpty(images[None]) &&
    forall t :: t in images && !t.None? ==> TransformOf(images[None], t, images[t])
  }

  /** The members of usedTransformations. */
  lemma UsedMembers(useRotations: bool, useReflections: bool, t: Transformation)
    ensures t in UsedTransformations(useRotations, useReflections) <==>
      t.None? || (useRotations && (t.Rotate90CW? || t.Rotate180? || t.Rotate270CW?)) ||
      (useReflections && (t.FlipX? || t.FlipY?))
  {
    var used := UsedTransformations(useRotations, useReflections);
    if t in used {
      var k :| 0 <= k < |used| && used[k] == t;
    }
    if t.None? { assert used[0] == t; }
    if useRotations && t.Rotate90CW? { assert used[1] == t; }
    if useRotations && t.Rotate180? { assert used[2] == t; }
    if useRotations && t.Rotate270CW? { assert used[3] == t; }
    var f := if useRotations then 4 else 1;
    if useReflections && t.FlipX? { assert used[f] == t; }
    if useReflections && t.FlipY? { assert used[f + 1] == t; }
  }

  /** The copies present: the transformations of group, when it is
      enabled. */
  ghost predicate GroupKeys(enabled: bool, group: set<Transformation>, copies: Images)
  {
    forall t :: t in copies <==> enabled && t in group
  }

  /** Each copy present is original transformed. */
  ghost predicate GroupContents(original: Image, copies: Images)
  {
    forall t :: t in copies ==> TransformOf(original, t, copies[t])
  }

  method RotatedGroup(original: Image, useRotations: bool) returns (rotated: Images)
    requires NonEmpty(original)
    ensures GroupKeys(useRotations, {Rotate90CW, Rotate180, Rotate270CW}, rotated)
    ensures GroupContents(original, rotated)
  {
    rotated := map[];
    if useRotations {
      var r90, r180, r270 := RotatedCopies(original);
      rotated := map[Rotate90CW := r90, Rotate180 := r180, Rotate270CW := r270];
    }
  }

  method MirroredGroup(original: Image, useReflections: bool) returns (mirrored: Images)
    requires NonEmpty(original)
    ensures GroupKeys(useReflections, {FlipX, FlipY}, mirrored)
    ensures GroupContents(original, mirrored)
  {
    mirrored := map[];
    if useReflections {
      var rx, ry := MirroredCopies(original);
      mirrored := map[FlipX := rx, FlipY := ry];
    }
  }

  lemma CombineKeys(useRotations: bool, useReflections: bool, original: Image, rotated: Images, mirrored: Images)
    requires GroupKeys(useRotations, {Rotate90CW, Rotate180, Rotate270CW}, rotated)
    requires GroupKeys(useReflections, {FlipX, FlipY}, mirrored)
    ensures forall t :: t in map[None := original] + rotated + mirrored <==> t in UsedTransformations(useRotations, useReflections)
    ensures (map[None := original] + rotated + mirrored)[None] == original
    ensures None !in rotated && None !in mirrored
  {
    var images := map[None := original] + rotated + mirrored;
    assert None !in rotated && None !in mirrored;
    forall t ensures t in images <==> t in UsedTransformations(useRotations, useReflections) {
      UsedMembers(useRotations, useReflections, t);
    }
  }

  lemma CombineContents(original: Image, rotated: Images, mirrored: Images)
    requires GroupContents(original, rotated) && GroupContents(original, mirrored)
    requires None !in rotated && None !in mirrored
    ensures forall t :: t in map[None := original] + rotated + mirrored && !t.None? ==>
      TransformOf(original, t, (map[None := original] + rotated + mirrored)[t])
  {
    var images := map[None := original] + rotated + mirrored;
    forall t | t in images && !t.None? ensures TransformOf(original, t, images[t]) {
      if t in mirrored {
        assert images[t] == mirrored[t];
      } else {
        assert images[t] == rotated[t];
      }
    }
  }

  /** The copy with a border, and the transformed copies of it. */
  method MakeCopies(pixelData: Image, extra: Vector2i, useRotations: bool, useReflections: bool) returns (images: Images)
    requires NonEmpty(pixelData) && extra.x >= 0 && extra.y >= 0
    ensures CopiesOf(pixelData, extra, UsedTransformations(useRotations, useReflections), images)
  {
    var original := CopyWithBorder(pixelData, extra);
    var rotated := RotatedGroup(original, useRotations);
    var mirrored := MirroredGroup(original, useReflections);
    CombineKeys(useRotations, useReflections, original, rotated, mirrored);
    CombineContents(original, rotated, mirrored);
    images := map[None := original] + rotated + mirrored;
  }

  /** The copies' windows can all be cut: each copy's size against its
      window size meets CornersIterable, and each copy is valid. */
  lemma CopiesExtractable(pixelData: Image, patternSize: Vector2i, periodicX: bool, periodicY: bool,
                          useRotations: bool, useReflections: bool, images: Images)
    requires NonEmpty(pixelData) && Extractable(pixelData.size, patternSize, periodicX, periodicY, useRotations)
    requires CopiesOf(pixelData, Border(periodicX, periodicY, MaxPatternSize(patternSize, useRotations)),
                      UsedTransformations(useRotations, useReflections), images)
    ensures forall t :: t in UsedTransformations(useRotations, useReflections) ==>
      t in images && ImageValid(images[t]) && CornersIterable(images[t].size, WindowSize(t, patternSize))
  {
  }

  /** The constructor: copies, windows, duplicate removal, pixel counts. */
  method BuildInputData(pixelData: Image, patternSize: Vector2i, periodicX: bool, periodicY: bool,
                        useRotations: bool, useReflections: bool) returns (d: InputData)
    requires NonEmpty(pixelData) && Extractable(pixelData.size, patternSize, periodicX, periodicY, useRotations)
    ensures d.PeriodicX == periodicX && d.PeriodicY == periodicY && d.OriginalPatternSize == patternSize
    ensures d.MaxPatternSize == MaxPatternSize(patternSize, useRotations)
    ensures CopiesOf(pixelData, Border(periodicX, periodicY, d.MaxPatternSize), UsedTransformations(useRotations, useReflections), d.images)
    ensures AllReadable(d.images, AllWindows(d.images, UsedTransformations(useRotations, useReflections), patternSize))
    ensures d.patterns == Dedup(d.images, AllWindows(d.images, UsedTransformations(useRotations, useReflections), patternSize))
    ensures forall c :: Count(d.pixelFrequencies, c) == Weighted(d.images, d.patterns, c)
    ensures forall c :: c in d.pixelFrequencies <==> Appears(d.images, d.patterns, c)
    ensures forall i, j :: 0 <= i < j < |d.patterns| ==> !SameData(d.images, d.patterns[i], d.patterns[j])
    ensures forall w :: w in AllWindows(d.images, UsedTransformations(useRotations, useReflections), patternSize) ==>
      exists p :: p in d.patterns && SameData(d.images, w, p)
    ensures TotalFrequency(d.patterns) == |AllWindows(d.images, UsedTransformations(useRotations, useReflections), patternSize)|
    ensures forall c :: c in d.pixelFrequencies ==> d.pixelFrequencies[c] > 0
    ensures forall k :: 0 <= k < |d.patterns| ==> d.patterns[k].Frequency >= 1
    ensures d.MaxPatternSize.x >= 1 && d.MaxPatternSize.y >= 1
  {
    var mps := MaxPatternSize(patternSize, useRotations);
    var used := UsedTransformations(useRotations, useReflections);
    var images := MakeCopies(pixelData, Border(periodicX, periodicY, mps), useRotations, useReflections);
    CopiesExtractable(pixelData, patternSize, periodicX, periodicY, useRotations, useReflections, images);
    var windows := ExtractWindows(images, used, patternSize);
    AllWindowsReadable(images, used, patternSize);
    var patterns := Deduplicate(images, windows);
    var freq := CountPixelFrequencies(images, patterns);
    DedupProperties(images, windows);
    FrequenciesPositive(images, patterns, freq);
    d := InputData(periodicX, periodicY, patternSize, mps, images, patterns, freq);
  }

  /** What the removal promises: no two patterns have the same data,
      every window has the same data as one of them, their frequencies add
      up to the number of windows and are all positive. */
  lemma DedupProperties(images: Images, windows: seq<Pattern>)
    requires AllReadable(images, windows) && Ones(windows)
    ensures forall i, j :: 0 <= i < j < |Dedup(images, windows)| ==>
      !SameData(images, Dedup(images, windows)[i], Dedup(images, windows)[j])
    ensures forall w :: w in windows ==> exists p :: p in Dedup(images, windows) && SameData(images, w, p)
    ensures TotalFrequency(Dedup(images, windows)) == |windows|
    ensures forall k :: 0 <= k < |Dedup(images, windows)| ==> Dedup(images, windows)[k].Frequency >= 1
  {
    DedupDistinct(images, windows);
    DedupTotal(images, windows);
    DedupPositive(images, windows);
    forall w | w in windows ensures exists p :: p in Dedup(images, windows) && SameData(images, w, p) {
      DedupCovers(images, windows, w);
    }
  }

  /** Every counted colour has a positive count. */
  lemma FrequenciesPositive(images: Images, ps: seq<Pattern>, freq: map<Pixel, nat>)
    requires AllReadable(images, ps) && (forall k :: 0 <= k < |ps| ==> ps[k].Frequency >= 1)
    requires forall c :: Count(freq, c) == Weighted(images, ps, c)
    requires forall c :: c in freq <==> Appears(images, ps, c)
    ensures forall c :: c in freq ==> freq[c] > 0
  {
    forall c | c in freq ensures freq[c] > 0 {
      WeightedPositive(images, ps, c);
    }
  }
}
