/** Simple::Pattern (Simple/Pattern.h, src/Simple/Pattern.cpp): a window of
    one transformed copy of the input image, read through the input's
    pixelDataByTransform table. The input data is passed to each operation
    as that table. DoesFit reads the output state and is modelled with it,
    in SimpleState. */
module SimplePattern {
  import opened Vectors
  import opened Transform2D

  /** Simple::Pixel, a 32-bit colour. */
  type Pixel = p: int | 0 <= p < 0x1_0000_0000

  /** 2^32: unsigned int arithmetic wraps around modulo this. */
  const UINT_RANGE: int := 0x1_0000_0000

  /** An Array2D<Pixel>: its dimensions and the pixel at every position. */
  datatype Image = Image(size: Vector2i, at: map<Vector2i, Pixel>)

  /** The image holds exactly one pixel per position of its dimensions. */
  ghost predicate ImageValid(img: Image)
  {
    img.size.x >= 0 && img.size.y >= 0 && forall p :: p in img.at <==> FromSize2(img.size).Contains(p)
  }

  /** InputData's pixelDataByTransform: the input under each transformation
      in use. */
  type Images = map<Transformation, Image>

  datatype Pattern = Pattern(Frequency: nat, InputDataTransform: Transformation, InputDataRegion: Region2i)

  /** The size of a pattern, InputDataRegion.GetSize(). */
  function SizeOf(pat: Pattern): Vector2i
  {
    pat.InputDataRegion.GetSize()
  }

  /** The pattern's region is a non-empty window of the image it reads. */
  ghost predicate Readable(images: Images, pat: Pattern)
  {
    var r := pat.InputDataRegion;
    pat.InputDataTransform in images && ImageValid(images[pat.InputDataTransform]) &&
    0 <= r.MinInclusive.x < r.MaxExclusive.x <= images[pat.InputDataTransform].size.x &&
    0 <= r.MinInclusive.y < r.MaxExclusive.y <= images[pat.InputDataTransform].size.y
  }

  /** operator[]: the input pixel at the region's corner plus patternPos,
      under the pattern's transformation. */
  function PixelAt(images: Images, pat: Pattern, patternPos: Vector2i): Pixel
    requires Readable(images, pat) && FromSize2(SizeOf(pat)).Contains(patternPos)
  {
    images[pat.InputDataTransform].at[pat.InputDataRegion.MinInclusive.Plus(patternPos)]
  }

  /** The pattern's pixels in row-major order. */
  function Pixels(images: Images, pat: Pattern): (s: seq<Pixel>)
    requires Readable(images, pat)
    ensures |s| == |Points2(FromSize2(SizeOf(pat)))|
  {
    var r := FromSize2(SizeOf(pat));
    seq(|Points2(r)|, k requires 0 <= k < |Points2(r)| =>
      RowMajorInside2(r, k); PixelAt(images, pat, Points2(r)[k]))
  }

  // ---------------------------------------------------------------------
  // GetHashcode

  /** The hash of a pixel sequence: start at 1, then multiply by the prime
      59 and add each pixel, wrapping around at 2^32. */
  function Hash(s: seq<Pixel>): (h: nat)
    ensures h < UINT_RANGE
  {
    if |s| == 0 then 1 else (Hash(s[..|s| - 1]) * 59 + s[|s| - 1]) % UINT_RANGE
  }

  /** The region's row-major points are the pattern-relative ones moved by
      its corner. */
  lemma PointsShift(r: Region2i, k: nat)
    requires k < |Points2(r)|
    ensures |Points2(FromSize2(r.GetSize()))| == |Points2(r)|
    ensures Points2(r)[k] == r.MinInclusive.Plus(Points2(FromSize2(r.GetSize()))[k])
  {
    assert FromSize2(r.GetSize()).GetSize() == r.GetSize();
  }

  /** The k-th pixel is the one at the k-th row-major point of the
      pattern's own window. */
  lemma PixelsIndex(images: Images, pat: Pattern, k: nat)
    requires Readable(images, pat) && k < |Points2(FromSize2(SizeOf(pat)))|
    ensures FromSize2(SizeOf(pat)).Contains(Points2(FromSize2(SizeOf(pat)))[k])
    ensures Pixels(images, pat)[k] == PixelAt(images, pat, Points2(FromSize2(SizeOf(pat)))[k])
  {
    RowMajorInside2(FromSize2(SizeOf(pat)), k);
  }

  /** The k-th pixel is the input pixel at the k-th row-major point of the
      pattern's region. */
  lemma PixelsOfRegion(images: Images, pat: Pattern, k: nat)
    requires Readable(images, pat) && k < |Points2(pat.InputDataRegion)|
    ensures k < |Pixels(images, pat)|
    ensures Points2(pat.InputDataRegion)[k] in images[pat.InputDataTransform].at
    ensures Pixels(images, pat)[k] == images[pat.InputDataTransform].at[Points2(pat.InputDataRegion)[k]]
  {
    PointsShift(pat.InputDataRegion, k);
    PixelsIndex(images, pat, k);
  }

  /** Extending a hashed prefix by one pixel. */
  lemma HashStep(s: seq<Pixel>, i: nat, h: int, pixel: Pixel)
    requires i < |s| && h == Hash(s[..i]) && pixel == s[i]
    ensures Hash(s[..i + 1]) == (h * 59 + pixel) % UINT_RANGE
  {
    assert s[..i + 1][..i] == s[..i];
  }

  /** GetHashcode: the loop over the pattern's region of the input. */
  method GetHashcode(images: Images, pat: Pattern) returns (h: nat)
    requires Readable(images, pat)
    ensures h == Hash(Pixels(images, pat))
  {
    var data := images[pat.InputDataTransform];
    var pts := Iterate2(pat.InputDataRegion);
    ghost var pixels := Pixels(images, pat);
    assert pts == Points2(pat.InputDataRegion);
    var hash := 1;
    var i := 0;
    while i < |pts|
      invariant 0 <= i <= |pts| == |pixels|
      invariant hash == Hash(pixels[..i])
    {
      PixelsOfRegion(images, pat, i);
      var pixel := data.at[pts[i]];
      HashStep(pixels, i, hash, pixel);
      hash := (hash * 59 + pixel) % UINT_RANGE;
      i := i + 1;
    }
    assert pixels[..i] == pixels;
    h := hash;
  }

  // ---------------------------------------------------------------------
  // HasSameData

  /** Two patterns hold the same data: the same size and the same pixel at
      every position. */
  ghost predicate SameData(images: Images, a: Pattern, b: Pattern)
    requires Readable(images, a) && Readable(images, b)
  {
    SizeOf(a) == SizeOf(b) &&
    forall q :: FromSize2(SizeOf(a)).Contains(q) ==> PixelAt(images, a, q) == PixelAt(images, b, q)
  }

  /** Having the same data is having the same size and the same pixel
      sequence. */
  lemma SameDataPixels(images: Images, a: Pattern, b: Pattern)
    requires Readable(images, a) && Readable(images, b)
    ensures SameData(images, a, b) <==> SizeOf(a) == SizeOf(b) && Pixels(images, a) == Pixels(images, b)
  {
    var r := FromSize2(SizeOf(a));
    Points2Exactly(r);
    if SizeOf(a) == SizeOf(b) && Pixels(images, a) == Pixels(images, b) {
      forall q | r.Contains(q) ensures PixelAt(images, a, q) == PixelAt(images, b, q) {
        RowMajorIndex2(r, q);
        var k := IndexOf2(r, q);
        assert Pixels(images, a)[k] == Pixels(images, b)[k];
      }
    }
    if SameData(images, a, b) {
      forall k | 0 <= k < |Points2(r)| ensures Pixels(images, a)[k] == Pixels(images, b)[k] {
        RowMajorInside2(r, k);
      }
    }
  }

  /** Patterns with the same data have the same hash code. */
  lemma SameDataSameHash(images: Images, a: Pattern, b: Pattern)
    requires Readable(images, a) && Readable(images, b) && SameData(images, a, b)
    ensures Hash(Pixels(images, a)) == Hash(Pixels(images, b))
  {
    SameDataPixels(images, a, b);
  }

  /** HasSameData is an equivalence: reflexive, symmetric and transitive. */
  lemma SameDataEquivalence(images: Images, a: Pattern, b: Pattern, c: Pattern)
    requires Readable(images, a) && Readable(images, b) && Readable(images, c)
    ensures SameData(images, a, a)
    ensures SameData(images, a, b) ==> SameData(images, b, a)
    ensures SameData(images, a, b) && SameData(images, b, c) ==> SameData(images, a, c)
  {
    SameDataPixels(images, a, a);
    SameDataPixels(images, a, b);
    SameDataPixels(images, b, a);
    SameDataPixels(images, b, c);
    SameDataPixels(images, a, c);
  }

  /** HasSameData: false for different sizes, otherwise a scan over the
      pattern's positions that stops at the first differing pixel. */
  method HasSameData(images: Images, a: Pattern, b: Pattern) returns (same: bool)
    requires Readable(images, a) && Readable(images, b)
    ensures same <==> SameData(images, a, b)
  {
    if SizeOf(a) != SizeOf(b) {
      return false;
    }
    var r := FromSize2(SizeOf(a));
    var pts := Iterate2(r);
    Points2Exactly(r);
    var i := 0;
    while i < |pts|
      invariant 0 <= i <= |pts|
      invariant forall k :: 0 <= k < i ==> PixelAt(images, a, pts[k]) == PixelAt(images, b, pts[k])
    {
      var myPixel, theirPixel := PixelAt(images, a, pts[i]), PixelAt(images, b, pts[i]);
      if myPixel != theirPixel {
        return false;
      }
      i := i + 1;
    }
    forall q | r.Contains(q) ensures PixelAt(images, a, q) == PixelAt(images, b, q) {
      RowMajorIndex2(r, q);
    }
    return true;
  }
}
