/** Simple::State (src/Simple/State.cpp, Simple/State.h): the overlapping
    solver's output image. Every output pixel holds the colour it was set
    to, if any, and how many ways each colour could still be placed there.
    A colour is counted at a pixel for every pattern that fits the output
    around it and puts that colour on the pixel; setting a pixel recomputes
    the counts of every pixel near it. Pattern::DoesFit, which reads this
    state, is modelled here too. */
module SimpleState {
  import opened Common
  import opened WfcMath
  import opened Vectors
  import opened SimplePattern
  import opened SimpleInput
  import Transform2D

  // ---------------------------------------------------------------------
  // Output pixels and the image's geometry

  /** State::OutputPixel. */
  datatype OutputPixel = OutputPixel(Value: Option<Pixel>, ColorFrequencies: map<Pixel, nat>)

  /** The output array, by position. */
  type Board = map<Vector2i, OutputPixel>

  /** The chosen values of the output pixels, by position: all that
      DoesFit and the bad-colour test read of the output. */
  type Values = map<Vector2i, Option<Pixel>>

  /** The output's size and whether each axis wraps around. */
  datatype Geometry = Geometry(Width: int, Height: int, PeriodicX: bool, PeriodicY: bool)
  {
    predicate InGrid(p: Vector2i)
    {
      0 <= p.x < Width && 0 <= p.y < Height
    }

    /** State::Wrap divides by the width or height of a periodic axis. */
    predicate Filterable()
    {
      (PeriodicX ==> Width > 0) && (PeriodicY ==> Height > 0)
    }

    /** State::Filter: each periodic axis wrapped into the output. Wrap is
        the C remainder moved up when negative, which is PositiveModulo. */
    function Filter(p: Vector2i): Vector2i
      requires Filterable()
    {
      Vector2i(if PeriodicX then PositiveModulo(p.x, Width) else p.x,
               if PeriodicY then PositiveModulo(p.y, Height) else p.y)
    }
  }

  /** The board has exactly the output's positions. */
  ghost predicate Covers(g: Geometry, out: Board)
  {
    forall p :: p in out <==> g.InGrid(p)
  }

  /** The chosen values of a board. */
  function ValuesOf(out: Board): (vals: Values)
    ensures vals.Keys == out.Keys
  {
    map p | p in out :: out[p].Value
  }

  /** Filter lands in the output along every periodic axis and leaves the
      other axes alone; a position already in the output is kept. */
  lemma FilterMeaning(g: Geometry, p: Vector2i)
    requires g.Filterable()
    ensures g.PeriodicX ==> 0 <= g.Filter(p).x < g.Width && g.Filter(p).x % g.Width == p.x % g.Width
    ensures !g.PeriodicX ==> g.Filter(p).x == p.x
    ensures g.PeriodicY ==> 0 <= g.Filter(p).y < g.Height && g.Filter(p).y % g.Height == p.y % g.Height
    ensures !g.PeriodicY ==> g.Filter(p).y == p.y
    ensures g.InGrid(p) ==> g.Filter(p) == p
  {
    if g.PeriodicX { InRangeMod(g.Filter(p).x, g.Width); }
    if g.PeriodicY { InRangeMod(g.Filter(p).y, g.Height); }
  }

  /** Every count of a colour map is at least one. */
  ghost predicate Positive(m: map<Pixel, nat>)
  {
    forall c :: c in m ==> m[c] >= 1
  }

  /** What the solver needs of its input: patterns readable from the
      transformed copies, each found at least once, every input colour
      counted at least once, and a largest pattern size of at least one
      along each axis. InputData's constructor provides all of these. */
  ghost predicate InputValid(input: InputData)
  {
    AllReadable(input.images, input.patterns) &&
    (forall k :: 0 <= k < |input.patterns| ==> input.patterns[k].Frequency >= 1) &&
    Positive(input.pixelFrequencies) &&
    input.MaxPatternSize.x >= 1 && input.MaxPatternSize.y >= 1
  }

  // ---------------------------------------------------------------------
  // Pattern::DoesFit

  /** The value operator[] finds at p: none when Filter(p) lies outside the
      output. */
  function ValueAt(g: Geometry, vals: Values, p: Vector2i): Option<Pixel>
    requires g.Filterable()
  {
    var q := g.Filter(p);
    if g.InGrid(q) && q in vals then vals[q] else None
  }

  /** The output agrees with pixel at p: there is no output pixel there, or
      it is unset, or it is set to pixel. */
  predicate Agrees(g: Geometry, vals: Values, p: Vector2i, pixel: Pixel)
    requires g.Filterable()
  {
    match ValueAt(g, vals, p)
    case None => true
    case Some(v) => v == pixel
  }

  /** The pattern fits with its corner at corner: every pixel of it agrees
      with the output pixel it would cover. */
  ghost predicate Fits(images: Images, g: Geometry, vals: Values, pat: Pattern, corner: Vector2i)
    requires g.Filterable() && Readable(images, pat)
  {
    forall q :: FromSize2(SizeOf(pat)).Contains(q) ==> Agrees(g, vals, corner.Plus(q), PixelAt(images, pat, q))
  }

  /** Pattern::DoesFit: a scan over the pattern's positions that stops at
      the first set output pixel of another colour. */
  method DoesFit(images: Images, g: Geometry, vals: Values, pat: Pattern, corner: Vector2i) returns (fits: bool)
    requires g.Filterable() && Readable(images, pat)
    ensures fits <==> Fits(images, g, vals, pat, corner)
  {
    var r := FromSize2(SizeOf(pat));
    var pts := Iterate2(r);
    Points2Exactly(r);
    var i := 0;
    while i < |pts|
      invariant 0 <= i <= |pts|
      invariant forall k :: 0 <= k < i ==> Agrees(g, vals, corner.Plus(pts[k]), PixelAt(images, pat, pts[k]))
    {
      var inputPixel := PixelAt(images, pat, pts[i]);
      var tryPixel := ValueAt(g, vals, corner.Plus(pts[i]));
      if tryPixel.Some? && tryPixel.value != inputPixel {
        return false;
      }
      i := i + 1;
    }
    forall q | r.Contains(q) ensures Agrees(g, vals, corner.Plus(q), PixelAt(images, pat, q)) {
      RowMajorIndex2(r, q);
    }
    return true;
  }

  // ---------------------------------------------------------------------
  // The bad colours of RecalculatePixelChances

  /** The corners of the windows of the given size that hold pos:
      Region2i(pos - size + 1, pos + 1). */
  function CornerRegion(pos: Vector2i, size: Vector2i): Region2i
  {
    Region2i(pos.Minus(size).Plus(Vector2i(1, 1)), pos.Plus(Vector2i(1, 1)))
  }

  /** Some pattern of the input fits at corner. */
  ghost predicate SomeFits(input: InputData, g: Geometry, vals: Values, corner: Vector2i)
    requires g.Filterable() && AllReadable(input.images, input.patterns)
  {
    exists i :: 0 <= i < |input.patterns| && Fits(input.images, g, vals, input.patterns[i], corner)
  }

  /** A colour is bad at pos when, placed there, it leaves some window of
      the largest pattern size around pos where no pattern fits. */
  ghost predicate Bad(input: InputData, g: Geometry, vals: Values, pos: Vector2i, color: Pixel)
    requires g.Filterable() && AllReadable(input.images, input.patterns)
  {
    exists corner :: CornerRegion(pos, input.MaxPatternSize).Contains(corner) &&
                     !SomeFits(input, g, vals[pos := Some(color)], corner)
  }

  /** The input colours that are bad at pos. */
  ghost function BadColors(input: InputData, g: Geometry, vals: Values, pos: Vector2i): set<Pixel>
    requires g.Filterable() && AllReadable(input.images, input.patterns)
  {
    set c | c in input.pixelFrequencies && Bad(input, g, vals, pos, c)
  }

  /** The pattern loop of the bad-colour test at one corner, stopping at
      the first pattern that fits. */
  method AnyFits(input: InputData, g: Geometry, vals: Values, corner: Vector2i) returns (passed: bool)
    requires g.Filterable() && AllReadable(input.images, input.patterns)
    ensures passed <==> SomeFits(input, g, vals, corner)
  {
    var patternI := 0;
    while patternI < |input.patterns|
      invariant 0 <= patternI <= |input.patterns|
      invariant forall k :: 0 <= k < patternI ==> !Fits(input.images, g, vals, input.patterns[k], corner)
    {
      var fits := DoesFit(input.images, g, vals, input.patterns[patternI], corner);
      if fits {
        return true;
      }
      patternI := patternI + 1;
    }
    return false;
  }

  /** The test of one colour: with it placed at pos, the corners around pos
      are tried in turn until one has no fitting pattern. Placing the
      colour and undoing it afterwards is the update of vals. */
  method IsBad(input: InputData, g: Geometry, vals: Values, pos: Vector2i, color: Pixel) returns (bad: bool)
    requires InputValid(input) && g.Filterable()
    ensures bad <==> Bad(input, g, vals, pos, color)
  {
    var placed := vals[pos := Some(color)];
    var region := CornerRegion(pos, input.MaxPatternSize);
    var pts := Iterate2(region);
    Points2Exactly(region);
    var i := 0;
    while i < |pts|
      invariant 0 <= i <= |pts|
      invariant forall k :: 0 <= k < i ==> SomeFits(input, g, placed, pts[k])
    {
      var passed := AnyFits(input, g, placed, pts[i]);
      if !passed {
        assert region.Contains(pts[i]);
        return true;
      }
      i := i + 1;
    }
    forall corner | region.Contains(corner) ensures SomeFits(input, g, placed, corner) {
      RowMajorIndex2(region, corner);
    }
    return false;
  }

  /** The colour loop of RecalculatePixelChances over the input's pixel
      frequencies, in the map's iteration order. badColors is a list in the
      source; only membership in it is used. */
  method FindBadColors(input: InputData, g: Geometry, vals: Values, pos: Vector2i) returns (badColors: set<Pixel>)
    requires InputValid(input) && g.Filterable()
    ensures badColors == BadColors(input, g, vals, pos)
  {
    badColors := {};
    var rest := input.pixelFrequencies.Keys;
    while rest != {}
      invariant rest <= input.pixelFrequencies.Keys
      invariant BadAmong(input, g, vals, pos, input.pixelFrequencies.Keys - rest, badColors)
      decreases |rest|
    {
      var color :| color in rest;
      var bad := IsBad(input, g, vals, pos, color);
      ghost var done := input.pixelFrequencies.Keys - rest;
      if bad {
        badColors := badColors + {color};
      }
      BadAmongStep(input, g, vals, pos, done, badColors, color);
      rest := rest - {color};
    }
    BadAmongAll(input, g, vals, pos, badColors);
  }

  /** bad holds exactly the bad colours among done. */
  ghost predicate BadAmong(input: InputData, g: Geometry, vals: Values, pos: Vector2i, done: set<Pixel>, bad: set<Pixel>)
    requires g.Filterable() && AllReadable(input.images, input.patterns)
  {
    forall c :: c in bad <==> c in done && Bad(input, g, vals, pos, c)
  }

  lemma BadAmongStep(input: InputData, g: Geometry, vals: Values, pos: Vector2i, done: set<Pixel>, bad: set<Pixel>,
                     color: Pixel)
    requires g.Filterable() && AllReadable(input.images, input.patterns)
    requires BadAmong(input, g, vals, pos, done, bad - {color}) && color !in done
    requires color in bad <==> Bad(input, g, vals, pos, color)
    ensures BadAmong(input, g, vals, pos, done + {color}, bad)
  {
  }

  lemma BadAmongAll(input: InputData, g: Geometry, vals: Values, pos: Vector2i, bad: set<Pixel>)
    requires g.Filterable() && AllReadable(input.images, input.patterns)
    requires BadAmong(input, g, vals, pos, input.pixelFrequencies.Keys, bad)
    ensures bad == BadColors(input, g, vals, pos)
  {
  }

  // ---------------------------------------------------------------------
  // The colour counts of RecalculatePixelChances

  /** Whether a pattern colour is counted: as the source is written only a
      bad colour is, as intended only a colour that is not bad. */
  predicate Counted(bad: set<Pixel>, asWritten: bool, c: Pixel)
  {
    (c in bad) == asWritten
  }

  /** The corners around pos for a pattern of the given size, in the
      order a range-for visits them. */
  function Corners(pos: Vector2i, size: Vector2i): seq<Vector2i>
  {
    Points2(CornerRegion(pos, size))
  }

  /** pos lies inside the window at every corner around it. */
  lemma CornerInside(pos: Vector2i, size: Vector2i, j: nat)
    requires j < |Corners(pos, size)|
    ensures CornerRegion(pos, size).Contains(Corners(pos, size)[j])
    ensures FromSize2(size).Contains(pos.Minus(Corners(pos, size)[j]))
  {
    RowMajorInside2(CornerRegion(pos, size), j);
  }

  /** What one corner of the counting loop looks at: the pattern's colour
      on pos and whether the pattern fits there. */
  datatype Placement = Placement(color: Pixel, fits: bool)

  /** The placements of a pattern at the corners around pos, in loop
      order. */
  ghost function PlacementsOf(images: Images, g: Geometry, vals: Values, pos: Vector2i, pat: Pattern)
    : (r: seq<Placement>)
    requires g.Filterable() && Readable(images, pat)
    ensures |r| == |Corners(pos, SizeOf(pat))|
  {
    var cs := Corners(pos, SizeOf(pat));
    seq(|cs|, j requires 0 <= j < |cs| =>
      CornerInside(pos, SizeOf(pat), j);
      Placement(PixelAt(images, pat, pos.Minus(cs[j])), Fits(images, g, vals, pat, cs[j])))
  }

  /** The corner loop for one pattern: each counted colour of a fitting
      placement gains the pattern's frequency f. */
  function Tallies(m: map<Pixel, nat>, ps: seq<Placement>, f: nat, bad: set<Pixel>, asWritten: bool)
    : map<Pixel, nat>
    decreases |ps|
  {
    if |ps| == 0 then m else TallyOne(Tallies(m, ps[..|ps| - 1], f, bad, asWritten), ps[|ps| - 1], f, bad, asWritten)
  }

  /** One corner of the corner loop. */
  function TallyOne(m: map<Pixel, nat>, p: Placement, f: nat, bad: set<Pixel>, asWritten: bool): map<Pixel, nat>
  {
    if Counted(bad, asWritten, p.color) && p.fits then m[p.color := Count(m, p.color) + f] else m
  }

  /** A colour has a count after the corner loop exactly when it had one
      before or is counted and placed by a fitting placement. */
  lemma {:induction false} TalliesHas(m: map<Pixel, nat>, ps: seq<Placement>, f: nat, bad: set<Pixel>,
                                      asWritten: bool, c: Pixel)
    ensures c in Tallies(m, ps, f, bad, asWritten) <==> c in m || (Counted(bad, asWritten, c) && Placement(c, true) in ps)
    decreases |ps|
  {
    if |ps| > 0 {
      var front := ps[..|ps| - 1];
      TalliesHas(m, front, f, bad, asWritten, c);
      assert ps == front + [ps[|ps| - 1]];
    }
  }

  /** The corner loop never drops a count below one when f is at least
      one. */
  lemma {:induction false} TalliesPositive(m: map<Pixel, nat>, ps: seq<Placement>, f: nat, bad: set<Pixel>,
                                           asWritten: bool, c: Pixel)
    requires (c in m ==> m[c] >= 1) && f >= 1
    ensures var r := Tallies(m, ps, f, bad, asWritten); c in r ==> r[c] >= 1
    decreases |ps|
  {
    if |ps| > 0 {
      TalliesPositive(m, ps[..|ps| - 1], f, bad, asWritten, c);
    }
  }

  /** The pattern placed at corner covers pos, with colour c there, and
      fits the output. */
  ghost predicate Places(images: Images, g: Geometry, vals: Values, pos: Vector2i, pat: Pattern, corner: Vector2i,
                         c: Pixel)
    requires g.Filterable() && Readable(images, pat)
  {
    CornerRegion(pos, SizeOf(pat)).Contains(corner) &&
    PixelAt(images, pat, pos.Minus(corner)) == c && Fits(images, g, vals, pat, corner)
  }

  /** The pattern placed at some corner around pos fits and puts c on pos. */
  ghost predicate PatternPlaces(images: Images, g: Geometry, vals: Values, pos: Vector2i, pat: Pattern, c: Pixel)
    requires g.Filterable() && Readable(images, pat)
  {
    exists corner :: Places(images, g, vals, pos, pat, corner, c)
  }

  /** The fitting placements listed are those of the corners where the
      pattern fits. */
  lemma PlacementsMeaning(images: Images, g: Geometry, vals: Values, pos: Vector2i, pat: Pattern, c: Pixel)
    requires g.Filterable() && Readable(images, pat)
    ensures Placement(c, true) in PlacementsOf(images, g, vals, pos, pat) <==> PatternPlaces(images, g, vals, pos, pat, c)
  {
    if Placement(c, true) in PlacementsOf(images, g, vals, pos, pat) {
      ListedPlaces(images, g, vals, pos, pat, c);
    }
    if PatternPlaces(images, g, vals, pos, pat, c) {
      PlacesListed(images, g, vals, pos, pat, c);
    }
  }

  lemma ListedPlaces(images: Images, g: Geometry, vals: Values, pos: Vector2i, pat: Pattern, c: Pixel)
    requires g.Filterable() && Readable(images, pat)
    requires Placement(c, true) in PlacementsOf(images, g, vals, pos, pat)
    ensures PatternPlaces(images, g, vals, pos, pat, c)
  {
    var ps := PlacementsOf(images, g, vals, pos, pat);
    var j :| 0 <= j < |ps| && ps[j] == Placement(c, true);
    PlacementAt(images, g, vals, pos, pat, j);
    CornerInside(pos, SizeOf(pat), j);
    assert Places(images, g, vals, pos, pat, Corners(pos, SizeOf(pat))[j], c);
  }

  lemma PlacesListed(images: Images, g: Geometry, vals: Values, pos: Vector2i, pat: Pattern, c: Pixel)
    requires g.Filterable() && Readable(images, pat)
    requires PatternPlaces(images, g, vals, pos, pat, c)
    ensures Placement(c, true) in PlacementsOf(images, g, vals, pos, pat)
  {
    var r := CornerRegion(pos, SizeOf(pat));
    var corner :| Places(images, g, vals, pos, pat, corner, c);
    RowMajorIndex2(r, corner);
    var j := IndexOf2(r, corner);
    assert Corners(pos, SizeOf(pat))[j] == corner;
    PlacementAt(images, g, vals, pos, pat, j);
    assert PlacementsOf(images, g, vals, pos, pat)[j] == Placement(c, true);
  }

  /** Some pattern of the input placed at a corner around pos fits the
      output and puts colour c on pos. */
  ghost predicate SomePlaces(input: InputData, g: Geometry, vals: Values, pos: Vector2i, c: Pixel)
    requires g.Filterable() && AllReadable(input.images, input.patterns)
  {
    exists i :: 0 <= i < |input.patterns| && PatternPlaces(input.images, g, vals, pos, input.patterns[i], c)
  }

  /** The placements of every pattern, in pattern order. */
  ghost function PlacementLists(input: InputData, g: Geometry, vals: Values, pos: Vector2i): (r: seq<seq<Placement>>)
    requires g.Filterable() && AllReadable(input.images, input.patterns)
    ensures |r| == |input.patterns|
  {
    seq(|input.patterns|, i requires 0 <= i < |input.patterns| =>
      PlacementsOf(input.images, g, vals, pos, input.patterns[i]))
  }

  /** The patterns' frequencies, in pattern order. */
  function Frequencies(patterns: seq<Pattern>): (r: seq<nat>)
    ensures |r| == |patterns| && forall i :: 0 <= i < |patterns| ==> r[i] == patterns[i].Frequency
  {
    seq(|patterns|, i requires 0 <= i < |patterns| => patterns[i].Frequency)
  }

  /** The pattern loop: the corner loop of each list in turn, each with its
      own frequency. */
  function TalliesAll(m: map<Pixel, nat>, lists: seq<seq<Placement>>, freqs: seq<nat>, bad: set<Pixel>,
                      asWritten: bool): map<Pixel, nat>
    requires |lists| == |freqs|
    decreases |lists|
  {
    if |lists| == 0 then m
    else
      var n := |lists| - 1;
      Tallies(TalliesAll(m, lists[..n], freqs[..n], bad, asWritten), lists[n], freqs[n], bad, asWritten)
  }

  /** Some list holds a fitting placement of colour c. */
  predicate Listed(lists: seq<seq<Placement>>, c: Pixel)
  {
    exists i :: 0 <= i < |lists| && Placement(c, true) in lists[i]
  }

  /** The colour counts from no colours, over every pattern. */
  ghost function Gains(input: InputData, g: Geometry, vals: Values, pos: Vector2i, bad: set<Pixel>, asWritten: bool)
    : map<Pixel, nat>
    requires g.Filterable() && AllReadable(input.images, input.patterns)
  {
    TalliesAll(map[], PlacementLists(input, g, vals, pos), Frequencies(input.patterns), bad, asWritten)
  }

  /** The colour counts RecalculatePixelChances gives an unset pixel, as
      intended: bad colours are left out. */
  ghost function Chances(input: InputData, g: Geometry, vals: Values, pos: Vector2i): map<Pixel, nat>
    requires g.Filterable() && AllReadable(input.images, input.patterns)
  {
    Gains(input, g, vals, pos, BadColors(input, g, vals, pos), false)
  }

  /** The colour counts as the source is written: only bad colours are
      kept. */
  ghost function ChancesAsWritten(input: InputData, g: Geometry, vals: Values, pos: Vector2i): map<Pixel, nat>
    requires g.Filterable() && AllReadable(input.images, input.patterns)
  {
    Gains(input, g, vals, pos, BadColors(input, g, vals, pos), true)
  }

  /** A colour has a count after the pattern loop exactly when it had one
      before or is counted and has a fitting placement in some list. */
  lemma {:induction false} TalliesAllHas(m: map<Pixel, nat>, lists: seq<seq<Placement>>, freqs: seq<nat>,
                                         bad: set<Pixel>, asWritten: bool, c: Pixel)
    requires |lists| == |freqs|
    ensures c in TalliesAll(m, lists, freqs, bad, asWritten) <==> c in m || (Counted(bad, asWritten, c) && Listed(lists, c))
    decreases |lists|
  {
    if |lists| > 0 {
      var n := |lists| - 1;
      var front := lists[..n];
      TalliesAllHas(m, front, freqs[..n], bad, asWritten, c);
      TalliesHas(TalliesAll(m, front, freqs[..n], bad, asWritten), lists[n], freqs[n], bad, asWritten, c);
      ListedFront(lists, c);
    }
  }

  /** Listed in all lists is listed in all but the last or in the last. */
  lemma ListedFront(lists: seq<seq<Placement>>, c: Pixel)
    requires |lists| > 0
    ensures Listed(lists, c) <==> Listed(lists[..|lists| - 1], c) || Placement(c, true) in lists[|lists| - 1]
  {
    var n := |lists| - 1;
    var front := lists[..n];
    if Listed(lists, c) && Placement(c, true) !in lists[n] {
      var i :| 0 <= i < |lists| && Placement(c, true) in lists[i];
      assert front[i] == lists[i];
    }
    if Listed(front, c) {
      var i :| 0 <= i < |front| && Placement(c, true) in front[i];
      assert lists[i] == front[i];
    }
    if Placement(c, true) in lists[n] {
      assert 0 <= n < |lists|;
    }
  }

  /** The pattern loop never drops a count below one when every frequency
      is at least one. */
  lemma {:induction false} TalliesAllPositive(m: map<Pixel, nat>, lists: seq<seq<Placement>>, freqs: seq<nat>,
                                              bad: set<Pixel>, asWritten: bool, c: Pixel)
    requires |lists| == |freqs| && (c in m ==> m[c] >= 1)
    requires forall i :: 0 <= i < |freqs| ==> freqs[i] >= 1
    ensures var r := TalliesAll(m, lists, freqs, bad, asWritten); c in r ==> r[c] >= 1
    decreases |lists|
  {
    if |lists| > 0 {
      var n := |lists| - 1;
      TalliesAllPositive(m, lists[..n], freqs[..n], bad, asWritten, c);
      TalliesPositive(TalliesAll(m, lists[..n], freqs[..n], bad, asWritten), lists[n], freqs[n], bad, asWritten, c);
    }
  }

  /** Some list holds a fitting placement of c exactly when some pattern
      fits around pos and puts c on pos. */
  lemma ListedMeaning(input: InputData, g: Geometry, vals: Values, pos: Vector2i, c: Pixel)
    requires g.Filterable() && AllReadable(input.images, input.patterns)
    ensures Listed(PlacementLists(input, g, vals, pos), c) <==> SomePlaces(input, g, vals, pos, c)
  {
    var lists := PlacementLists(input, g, vals, pos);
    if Listed(lists, c) {
      var i :| 0 <= i < |lists| && Placement(c, true) in lists[i];
      PlacementsMeaning(input.images, g, vals, pos, input.patterns[i], c);
    }
    if SomePlaces(input, g, vals, pos, c) {
      var i :| 0 <= i < |input.patterns| && PatternPlaces(input.images, g, vals, pos, input.patterns[i], c);
      PlacementsMeaning(input.images, g, vals, pos, input.patterns[i], c);
      assert Placement(c, true) in lists[i];
    }
  }

  /** c has a count exactly when it is counted and some fitting pattern
      puts it on pos. */
  lemma GainsHas(input: InputData, g: Geometry, vals: Values, pos: Vector2i, bad: set<Pixel>, asWritten: bool,
                 c: Pixel)
    requires g.Filterable() && AllReadable(input.images, input.patterns)
    ensures c in Gains(input, g, vals, pos, bad, asWritten) <==> Counted(bad, asWritten, c) && SomePlaces(input, g, vals, pos, c)
  {
    TalliesAllHas(map[], PlacementLists(input, g, vals, pos), Frequencies(input.patterns), bad, asWritten, c);
    ListedMeaning(input, g, vals, pos, c);
  }

  /** Every count is positive, since every pattern is found at least once. */
  lemma GainsPositive(input: InputData, g: Geometry, vals: Values, pos: Vector2i, bad: set<Pixel>, asWritten: bool)
    requires g.Filterable() && InputValid(input)
    ensures Positive(Gains(input, g, vals, pos, bad, asWritten))
  {
    var lists, freqs := PlacementLists(input, g, vals, pos), Frequencies(input.patterns);
    forall c | c in Gains(input, g, vals, pos, bad, asWritten)
      ensures Gains(input, g, vals, pos, bad, asWritten)[c] >= 1
    {
      TalliesAllPositive(map[], lists, freqs, bad, asWritten, c);
    }
  }

  /** As intended, a colour may go on pos exactly when it is not bad there
      and some pattern that fits the output around pos puts it on pos;
      every count is positive. */
  lemma ChancesMeaning(input: InputData, g: Geometry, vals: Values, pos: Vector2i, c: Pixel)
    requires g.Filterable() && InputValid(input)
    ensures c in Chances(input, g, vals, pos) <==> c !in BadColors(input, g, vals, pos) && SomePlaces(input, g, vals, pos, c)
    ensures Positive(Chances(input, g, vals, pos))
  {
    GainsHas(input, g, vals, pos, BadColors(input, g, vals, pos), false, c);
    GainsPositive(input, g, vals, pos, BadColors(input, g, vals, pos), false);
  }

  /** As written, the colours kept are exactly the bad ones that some
      fitting pattern puts on pos: none of them can be placed. */
  lemma ChancesAsWrittenMeaning(input: InputData, g: Geometry, vals: Values, pos: Vector2i, c: Pixel)
    requires g.Filterable() && AllReadable(input.images, input.patterns)
    ensures c in ChancesAsWritten(input, g, vals, pos) <==>
              c in BadColors(input, g, vals, pos) && SomePlaces(input, g, vals, pos, c)
  {
    GainsHas(input, g, vals, pos, BadColors(input, g, vals, pos), true, c);
  }

  /** The source as written drops every colour that is not bad: a colour
      that some pattern places on pos without leaving a window unfilled is
      counted by the intended step and left out by the written one. */
  lemma ChancesAsWrittenLoses(input: InputData, g: Geometry, vals: Values, pos: Vector2i, c: Pixel)
    requires InputValid(input) && g.Filterable()
    requires c !in BadColors(input, g, vals, pos) && SomePlaces(input, g, vals, pos, c)
    ensures c in Chances(input, g, vals, pos) && c !in ChancesAsWritten(input, g, vals, pos)
  {
    ChancesMeaning(input, g, vals, pos, c);
    ChancesAsWrittenMeaning(input, g, vals, pos, c);
  }

  // ---------------------------------------------------------------------
  // The counting loops of RecalculatePixelChances

  /** One corner more of the corner loop. */
  lemma TalliesStep(m: map<Pixel, nat>, ps: seq<Placement>, j: nat, f: nat, bad: set<Pixel>, asWritten: bool)
    requires j < |ps|
    ensures Tallies(m, ps[..j + 1], f, bad, asWritten) == TallyOne(Tallies(m, ps[..j], f, bad, asWritten), ps[j], f, bad, asWritten)
  {
    assert ps[..j + 1][..j] == ps[..j];
  }

  /** One pattern more of the pattern loop. */
  lemma TalliesAllStep(m: map<Pixel, nat>, lists: seq<seq<Placement>>, freqs: seq<nat>, i: nat, bad: set<Pixel>,
                       asWritten: bool)
    requires |lists| == |freqs| && i < |lists|
    ensures TalliesAll(m, lists[..i + 1], freqs[..i + 1], bad, asWritten) ==
              Tallies(TalliesAll(m, lists[..i], freqs[..i], bad, asWritten), lists[i], freqs[i], bad, asWritten)
  {
    assert lists[..i + 1][..i] == lists[..i];
    assert freqs[..i + 1][..i] == freqs[..i];
  }

  /** The j-th placement of a pattern: its colour on pos and whether it
      fits, with its corner at the j-th corner around pos. */
  lemma PlacementAt(images: Images, g: Geometry, vals: Values, pos: Vector2i, pat: Pattern, j: nat)
    requires g.Filterable() && Readable(images, pat) && j < |Corners(pos, SizeOf(pat))|
    ensures FromSize2(SizeOf(pat)).Contains(pos.Minus(Corners(pos, SizeOf(pat))[j]))
    ensures PlacementsOf(images, g, vals, pos, pat)[j] ==
              Placement(PixelAt(images, pat, pos.Minus(Corners(pos, SizeOf(pat))[j])),
                        Fits(images, g, vals, pat, Corners(pos, SizeOf(pat))[j]))
  {
    CornerInside(pos, SizeOf(pat), j);
  }

  /** The corner loop of one pattern. */
  method AddPatternChances(images: Images, g: Geometry, vals: Values, pos: Vector2i, pat: Pattern, bad: set<Pixel>,
                           m0: map<Pixel, nat>)
    returns (m: map<Pixel, nat>)
    requires g.Filterable() && Readable(images, pat)
    ensures m == Tallies(m0, PlacementsOf(images, g, vals, pos, pat), pat.Frequency, bad, false)
  {
    var corners := Iterate2(CornerRegion(pos, SizeOf(pat)));
    ghost var ps := PlacementsOf(images, g, vals, pos, pat);
    assert corners == Corners(pos, SizeOf(pat));
    m := m0;
    var j := 0;
    while j < |corners|
      invariant 0 <= j <= |corners| == |ps|
      invariant m == Tallies(m0, ps[..j], pat.Frequency, bad, false)
    {
      m := CornerStep(images, g, vals, pos, pat, bad, m0, ps, j, m, corners[j]);
      j := j + 1;
    }
    assert ps[..j] == ps;
  }

  /** The corner loop's step from the j-th corner. */
  method CornerStep(images: Images, g: Geometry, vals: Values, pos: Vector2i, pat: Pattern, bad: set<Pixel>,
                    ghost m0: map<Pixel, nat>, ghost ps: seq<Placement>, ghost j: nat, m: map<Pixel, nat>,
                    patternMinCorner: Vector2i)
    returns (m': map<Pixel, nat>)
    requires g.Filterable() && Readable(images, pat) && ps == PlacementsOf(images, g, vals, pos, pat)
    requires j < |ps| && patternMinCorner == Corners(pos, SizeOf(pat))[j]
    requires m == Tallies(m0, ps[..j], pat.Frequency, bad, false)
    ensures m' == Tallies(m0, ps[..j + 1], pat.Frequency, bad, false)
  {
    PlacementAt(images, g, vals, pos, pat, j);
    TalliesStep(m0, ps, j, pat.Frequency, bad, false);
    m' := TallyCorner(images, g, vals, pat, bad, m, patternMinCorner, pos.Minus(patternMinCorner));
  }

  /** The body of the corner loop. DoesFit is called only for a colour
      that is counted, as the source's && does; the colour is counted when
      it is not bad. */
  method TallyCorner(images: Images, g: Geometry, vals: Values, pat: Pattern, bad: set<Pixel>, m: map<Pixel, nat>,
                     patternMinCorner: Vector2i, patternPos: Vector2i)
    returns (m': map<Pixel, nat>)
    requires g.Filterable() && Readable(images, pat) && FromSize2(SizeOf(pat)).Contains(patternPos)
    ensures m' == TallyOne(m, Placement(PixelAt(images, pat, patternPos), Fits(images, g, vals, pat, patternMinCorner)),
                           pat.Frequency, bad, false)
  {
    m' := m;
    var patternColor := PixelAt(images, pat, patternPos);
    if patternColor !in bad {
      var fits := DoesFit(images, g, vals, pat, patternMinCorner);
      if fits {
        m' := m[patternColor := Count(m, patternColor) + pat.Frequency];
      }
    }
  }

  /** The pattern loop, from cleared counts. */
  method CountChances(input: InputData, g: Geometry, vals: Values, pos: Vector2i, bad: set<Pixel>)
    returns (freq: map<Pixel, nat>)
    requires g.Filterable() && AllReadable(input.images, input.patterns)
    ensures freq == Gains(input, g, vals, pos, bad, false)
  {
    ghost var lists, freqs := PlacementLists(input, g, vals, pos), Frequencies(input.patterns);
    freq := map[];
    var patternI := 0;
    while patternI < |input.patterns|
      invariant 0 <= patternI <= |input.patterns|
      invariant freq == TalliesAll(map[], lists[..patternI], freqs[..patternI], bad, false)
    {
      TalliesAllStep(map[], lists, freqs, patternI, bad, false);
      freq := AddPatternChances(input.images, g, vals, pos, input.patterns[patternI], bad, freq);
      patternI := patternI + 1;
    }
    assert lists[..patternI] == lists && freqs[..patternI] == freqs;
  }

  // ---------------------------------------------------------------------
  // RecalculatePixelChances on a board

  /** RecalculatePixelChances: at Filter(pixelPos), when it is an unset
      pixel of the output, the counts become the chances of the output's
      values; otherwise nothing changes. */
  ghost function Recalc(input: InputData, g: Geometry, out: Board, pixelPos: Vector2i): Board
    requires g.Filterable() && AllReadable(input.images, input.patterns)
  {
    var pos := g.Filter(pixelPos);
    if !g.InGrid(pos) || pos !in out || out[pos].Value.Some? then out
    else out[pos := OutputPixel(None, Chances(input, g, ValuesOf(out), pos))]
  }

  /** The body of RecalculatePixelChances on the board. */
  method RecalcPixel(input: InputData, g: Geometry, out: Board, pixelPos: Vector2i) returns (r: Board)
    requires InputValid(input) && g.Filterable()
    ensures r == Recalc(input, g, out, pixelPos)
  {
    var pos := g.Filter(pixelPos);
    if !g.InGrid(pos) || pos !in out || out[pos].Value.Some? {
      return out;
    }
    var vals := ValuesOf(out);
    var badColors := FindBadColors(input, g, vals, pos);
    var freq := CountChances(input, g, vals, pos, badColors);
    r := out[pos := OutputPixel(None, freq)];
  }

  /** The output positions some raw position of raw filters to. */
  function Touched(g: Geometry, raw: set<Vector2i>): set<Vector2i>
    requires g.Filterable()
  {
    set p | p in raw && g.InGrid(g.Filter(p)) :: g.Filter(p)
  }

  /** Touching one raw position more. */
  lemma TouchedAdd(g: Geometry, raw: set<Vector2i>, p: Vector2i)
    requires g.Filterable()
    ensures Touched(g, raw + {p}) == Touched(g, raw) + (if g.InGrid(g.Filter(p)) then {g.Filter(p)} else {})
  {
  }

  /** out is base with every unset pixel of done recalculated, in any
      order: recalculating changes no value, so each holds the chances of
      base's values. */
  ghost predicate RecalculatedAt(input: InputData, g: Geometry, base: Board, out: Board, done: set<Vector2i>)
    requires g.Filterable() && AllReadable(input.images, input.patterns)
  {
    out.Keys == base.Keys &&
    forall q :: q in out ==>
      out[q] == if q in done && base[q].Value.None? then OutputPixel(None, Chances(input, g, ValuesOf(base), q))
                else base[q]
  }

  /** Boards with the same positions and values have the same values map. */
  lemma SameValuesOf(a: Board, b: Board)
    requires a.Keys == b.Keys && forall q :: q in a ==> a[q].Value == b[q].Value
    ensures ValuesOf(a) == ValuesOf(b)
  {
    assert ValuesOf(a).Keys == ValuesOf(b).Keys;
  }

  /** Recalculating changes no value. */
  lemma RecalculatedValues(input: InputData, g: Geometry, base: Board, out: Board, done: set<Vector2i>)
    requires g.Filterable() && AllReadable(input.images, input.patterns)
    requires RecalculatedAt(input, g, base, out, done)
    ensures ValuesOf(out) == ValuesOf(base)
  {
    SameValuesOf(out, base);
  }

  /** Recalculating at one more position extends what is recalculated by
      the output pixel it filters to. */
  lemma RecalcStep(input: InputData, g: Geometry, base: Board, out: Board, done: set<Vector2i>, p: Vector2i)
    requires g.Filterable() && AllReadable(input.images, input.patterns)
    requires RecalculatedAt(input, g, base, out, done)
    ensures RecalculatedAt(input, g, base, Recalc(input, g, out, p),
                           done + (if g.InGrid(g.Filter(p)) then {g.Filter(p)} else {}))
  {
    var pos := g.Filter(p);
    if !g.InGrid(pos) || pos !in out || out[pos].Value.Some? {
      RecalcSkipped(input, g, base, out, done, pos);
    } else {
      RecalcDone(input, g, base, out, done, pos);
    }
  }

  /** A position that is outside the output or set is recalculated
      already, as far as RecalculatedAt is concerned. */
  lemma RecalcSkipped(input: InputData, g: Geometry, base: Board, out: Board, done: set<Vector2i>, pos: Vector2i)
    requires g.Filterable() && AllReadable(input.images, input.patterns)
    requires RecalculatedAt(input, g, base, out, done)
    requires !g.InGrid(pos) || pos !in out || out[pos].Value.Some?
    ensures RecalculatedAt(input, g, base, out, done + (if g.InGrid(pos) then {pos} else {}))
  {
  }

  /** Recalculating an unset pixel. */
  lemma RecalcDone(input: InputData, g: Geometry, base: Board, out: Board, done: set<Vector2i>, pos: Vector2i)
    requires g.Filterable() && AllReadable(input.images, input.patterns)
    requires RecalculatedAt(input, g, base, out, done)
    requires g.InGrid(pos) && pos in out && out[pos].Value.None?
    ensures RecalculatedAt(input, g, base, out[pos := OutputPixel(None, Chances(input, g, ValuesOf(out), pos))], done + {pos})
  {
    RecalculatedValues(input, g, base, out, done);
    var cell := OutputPixel(None, Chances(input, g, ValuesOf(base), pos));
    var r := out[pos := cell];
    assert base[pos].Value.None?;
    forall q | q in r
      ensures r[q] == if q in done + {pos} && base[q].Value.None? then OutputPixel(None, Chances(input, g, ValuesOf(base), q))
                      else base[q]
    {
    }
  }

  /** Nothing recalculated yet. */
  lemma RecalcNone(input: InputData, g: Geometry, base: Board)
    requires g.Filterable() && AllReadable(input.images, input.patterns)
    ensures RecalculatedAt(input, g, base, base, {})
  {
  }

  // ---------------------------------------------------------------------
  // SetPixel

  /** The elements of a sequence. */
  function Elements(s: seq<Vector2i>): set<Vector2i>
  {
    set x | x in s
  }

  lemma ElementsStep(s: seq<Vector2i>, i: nat)
    requires i < |s|
    ensures Elements(s[..i + 1]) == Elements(s[..i]) + {s[i]}
  {
    assert s[..i + 1] == s[..i] + [s[i]];
  }

  /** The pixels SetPixel recalculates: Region2i(p - MaxPatternSize,
      p + MaxPatternSize + 1). */
  function SetRegion(p: Vector2i, mps: Vector2i): Region2i
  {
    Region2i(p.Minus(mps), p.Plus(mps).Plus(Vector2i(1, 1)))
  }

  /** The board SetPixel leaves: the pixel at p holds value, and every
      unset pixel the region around p filters to has the chances of the
      new values. */
  ghost predicate SetOutcome(input: InputData, g: Geometry, out0: Board, out: Board, p: Vector2i, value: Pixel)
    requires g.Filterable() && AllReadable(input.images, input.patterns) && p in out0
  {
    RecalculatedAt(input, g, out0[p := out0[p].(Value := Some(value))], out,
                   Touched(g, Elements(Points2(SetRegion(p, input.MaxPatternSize)))))
  }

  /** RecalculatePixelChances over a sequence of positions, in order. */
  method RecalcAlong(input: InputData, g: Geometry, ghost base: Board, out0: Board, pts: seq<Vector2i>,
                     ghost seen0: set<Vector2i>)
    returns (out: Board)
    requires InputValid(input) && g.Filterable()
    requires RecalculatedAt(input, g, base, out0, Touched(g, seen0))
    ensures RecalculatedAt(input, g, base, out, Touched(g, seen0 + Elements(pts)))
  {
    out := out0;
    ghost var seen := seen0;
    var i := 0;
    while i < |pts|
      invariant 0 <= i <= |pts|
      invariant seen == seen0 + Elements(pts[..i])
      invariant RecalculatedAt(input, g, base, out, Touched(g, seen))
    {
      ElementsStep(pts, i);
      out := RecalcTouching(input, g, base, out, seen, pts[i]);
      seen := seen + {pts[i]};
      i := i + 1;
    }
    assert pts[..i] == pts;
  }

  /** RecalculatePixelChances at one more raw position. */
  method RecalcTouching(input: InputData, g: Geometry, ghost base: Board, out: Board, ghost seen: set<Vector2i>,
                        p: Vector2i)
    returns (r: Board)
    requires InputValid(input) && g.Filterable()
    requires RecalculatedAt(input, g, base, out, Touched(g, seen))
    ensures RecalculatedAt(input, g, base, r, Touched(g, seen + {p}))
  {
    RecalcStep(input, g, base, out, Touched(g, seen), p);
    TouchedAdd(g, seen, p);
    r := RecalcPixel(input, g, out, p);
  }

  /** The body of SetPixel on the board. The pixel is indexed without
      Filter, so it must be one of the output. */
  method SetPixelOn(input: InputData, g: Geometry, out0: Board, pixelPos: Vector2i, value: Pixel) returns (out: Board)
    requires InputValid(input) && g.Filterable() && pixelPos in out0
    ensures SetOutcome(input, g, out0, out, pixelPos, value)
  {
    var base := out0[pixelPos := out0[pixelPos].(Value := Some(value))];
    var region := SetRegion(pixelPos, input.MaxPatternSize);
    var pts := Iterate2(region);
    assert pts == Points2(region);
    RecalcNone(input, g, base);
    assert Touched(g, {}) == {};
    out := RecalcAlong(input, g, base, base, pts, {});
    assert {} + Elements(pts) == Elements(pts);
  }

  // ---------------------------------------------------------------------
  // ClearArea

  /** The region ClearArea clears around center: MaxPatternSize times the
      clear size wide, centred half a pattern past center. Every operand is
      non-negative, so C's truncating division is Dafny's. */
  function ClearRegion(mps: Vector2i, c: nat, center: Vector2i): Region2i
  {
    var half := Vector2i((mps.x * c) / 2, (mps.y * c) / 2);
    var clearCenter := center.Plus(Vector2i(mps.x / 2, mps.y / 2));
    Region2i(clearCenter.Minus(half), clearCenter.Plus(half).Plus(Vector2i(1, 1)))
  }

  /** What ClearArea returns: the cleared region grown by one less than
      MaxPatternSize on every side. */
  function AffectedRegion(r: Region2i, mps: Vector2i): Region2i
  {
    Region2i(r.MinInclusive.Minus(mps).Plus(Vector2i(1, 1)), r.MaxExclusive.Plus(mps).Minus(Vector2i(1, 1)))
  }

  /** The board with every output pixel some raw position filters to
      unset; counts are kept. */
  function Cleared(g: Geometry, out: Board, raw: set<Vector2i>): (r: Board)
    requires g.Filterable()
    ensures r.Keys == out.Keys
  {
    map q | q in out :: if q in Touched(g, raw) then out[q].(Value := None) else out[q]
  }

  /** Clearing nothing changes nothing. */
  lemma ClearedNone(g: Geometry, out: Board)
    requires g.Filterable()
    ensures Cleared(g, out, {}) == out
  {
    assert Touched(g, {}) == {};
  }

  /** Clearing one more position: operator[] finds no pixel outside the
      output. */
  lemma ClearedStep(g: Geometry, out: Board, raw: set<Vector2i>, p: Vector2i)
    requires g.Filterable()
    ensures var q := g.Filter(p); var c := Cleared(g, out, raw);
      Cleared(g, out, raw + {p}) == if g.InGrid(q) && q in c then c[q := c[q].(Value := None)] else c
  {
    TouchedAdd(g, raw, p);
  }

  /** Clearing twice is clearing the union. */
  lemma ClearedUnion(g: Geometry, out: Board, a: set<Vector2i>, b: set<Vector2i>)
    requires g.Filterable()
    ensures Cleared(g, Cleared(g, out, a), b) == Cleared(g, out, a + b)
  {
    assert Touched(g, a + b) == Touched(g, a) + Touched(g, b);
  }

  /** The body of ClearArea on the board: the clearing loop over the
      region, then the region it affects. */
  method ClearAreaOn(g: Geometry, mps: Vector2i, c: nat, out0: Board, center: Vector2i)
    returns (out: Board, affected: Region2i)
    requires g.Filterable() && mps.x >= 1 && mps.y >= 1
    ensures out == Cleared(g, out0, Elements(Points2(ClearRegion(mps, c, center))))
    ensures affected == AffectedRegion(ClearRegion(mps, c, center), mps)
  {
    var regionToClear := ClearRegion(mps, c, center);
    MulNonNeg(c, mps.x);
    MulNonNeg(c, mps.y);
    var pts := Iterate2(regionToClear);
    assert pts == Points2(regionToClear);
    out := out0;
    ClearedNone(g, out0);
    var i := 0;
    while i < |pts|
      invariant 0 <= i <= |pts|
      invariant out == Cleared(g, out0, Elements(pts[..i]))
    {
      ClearedStep(g, out0, Elements(pts[..i]), pts[i]);
      ElementsStep(pts, i);
      var posToClear := g.Filter(pts[i]);
      if g.InGrid(posToClear) && posToClear in out {
        out := out[posToClear := out[posToClear].(Value := None)];
      }
      i := i + 1;
    }
    assert pts[..i] == pts;
    affected := AffectedRegion(regionToClear, mps);
  }

  // ---------------------------------------------------------------------
  // The recovery branch of Iterate

  /** The positions ClearArea clears around each center. */
  function ClearedBy(mps: Vector2i, c: nat, centers: seq<Vector2i>): set<Vector2i>
    decreases |centers|
  {
    if |centers| == 0 then {}
    else
      ClearedBy(mps, c, centers[..|centers| - 1]) +
      Elements(Points2(ClearRegion(mps, c, centers[|centers| - 1])))
  }

  /** The positions of the regions ClearArea returns for each center. */
  function AffectedBy(mps: Vector2i, c: nat, centers: seq<Vector2i>): set<Vector2i>
    decreases |centers|
  {
    if |centers| == 0 then {}
    else
      AffectedBy(mps, c, centers[..|centers| - 1]) +
      Elements(Points2(AffectedRegion(ClearRegion(mps, c, centers[|centers| - 1]), mps)))
  }

  /** out is out0 with every pixel around the centers cleared, then every
      unset pixel the affected positions filter to recalculated. */
  ghost predicate Recovered(input: InputData, g: Geometry, c: nat, out0: Board, best: seq<Vector2i>, out: Board)
  {
    g.Filterable() && AllReadable(input.images, input.patterns) &&
    RecalculatedAt(input, g, Cleared(g, out0, ClearedBy(input.MaxPatternSize, c, best)), out,
                   Touched(g, AffectedBy(input.MaxPatternSize, c, best)))
  }

  /** affectedPoses.insert over a returned region. */
  method InsertAll(affected0: set<Vector2i>, r: Region2i) returns (affected: set<Vector2i>)
    requires r.MinInclusive.y <= r.MaxExclusive.y && r.GetSize().x > 0
    ensures affected == affected0 + Elements(Points2(r))
  {
    var pts := Iterate2(r);
    affected := affected0;
    var j := 0;
    while j < |pts|
      invariant 0 <= j <= |pts|
      invariant affected == affected0 + Elements(pts[..j])
    {
      ElementsStep(pts, j);
      affected := affected + {pts[j]};
      j := j + 1;
    }
    assert pts[..j] == pts;
  }

  /** The first loop of the recovery: ClearArea around each center, its
      affected positions gathered in a set. */
  method ClearAreasOn(g: Geometry, mps: Vector2i, c: nat, out0: Board, best: seq<Vector2i>)
    returns (out: Board, affected: set<Vector2i>)
    requires g.Filterable() && mps.x >= 1 && mps.y >= 1 && c > 0
    ensures out == Cleared(g, out0, ClearedBy(mps, c, best))
    ensures affected == AffectedBy(mps, c, best)
  {
    out, affected := out0, {};
    ClearedNone(g, out0);
    var i := 0;
    while i < |best|
      invariant 0 <= i <= |best|
      invariant out == Cleared(g, out0, ClearedBy(mps, c, best[..i]))
      invariant affected == AffectedBy(mps, c, best[..i])
    {
      assert best[..i + 1][..i] == best[..i];
      var region;
      out, region := ClearAreaOn(g, mps, c, out, best[i]);
      ClearedUnion(g, out0, ClearedBy(mps, c, best[..i]), Elements(Points2(ClearRegion(mps, c, best[i]))));
      AffectedShape(mps, c, best[i]);
      affected := InsertAll(affected, region);
      i := i + 1;
    }
    assert best[..i] == best;
  }

  /** An affected region is non-empty when the clear size is. */
  lemma AffectedShape(mps: Vector2i, c: nat, center: Vector2i)
    requires mps.x >= 1 && mps.y >= 1 && c > 0
    ensures var r := AffectedRegion(ClearRegion(mps, c, center), mps);
      r.MinInclusive.y <= r.MaxExclusive.y && r.GetSize().x > 0
  {
    MulNonNeg(c, mps.x);
    MulNonNeg(c, mps.y);
  }

  /** The second loop of the recovery: RecalculatePixelChances at every
      affected position, in the set's iteration order. */
  method RecalcAll(input: InputData, g: Geometry, base: Board, affected: set<Vector2i>) returns (out: Board)
    requires InputValid(input) && g.Filterable()
    ensures RecalculatedAt(input, g, base, out, Touched(g, affected))
  {
    out := base;
    RecalcNone(input, g, base);
    assert Touched(g, {}) == {};
    var rest := affected;
    while rest != {}
      invariant rest <= affected
      invariant RecalculatedAt(input, g, base, out, Touched(g, affected - rest))
      decreases |rest|
    {
      var affectedPos :| affectedPos in rest;
      out := RecalcTouching(input, g, base, out, affected - rest, affectedPos);
      assert (affected - rest) + {affectedPos} == affected - (rest - {affectedPos});
      rest := rest - {affectedPos};
    }
    assert affected - rest == affected;
  }

  /** The recovery branch of Iterate on the board. */
  method RecoverOn(input: InputData, g: Geometry, c: nat, out0: Board, best: seq<Vector2i>) returns (out: Board)
    requires InputValid(input) && g.Filterable() && c > 0
    ensures Recovered(input, g, c, out0, best, out)
  {
    var cleared, affected := ClearAreasOn(g, input.MaxPatternSize, c, out0, best);
    out := RecalcAll(input, g, cleared, affected);
  }

  // ---------------------------------------------------------------------
  // GetBestPixels

  /** The sum of the counts of the given colours. */
  ghost function SumOver(m: map<Pixel, nat>, keys: set<Pixel>): nat
    requires keys <= m.Keys
    decreases keys
  {
    if keys == {} then 0 else var c :| c in keys; m[c] + SumOver(m, keys - {c})
  }

  /** A pixel's entropy: the sum of all its counts, the number of ways it
      could still be given a colour. */
  ghost function Total(m: map<Pixel, nat>): nat
  {
    SumOver(m, m.Keys)
  }

  /** The sum does not depend on which colour is taken first. */
  lemma {:induction false} SumRemove(m: map<Pixel, nat>, keys: set<Pixel>, c: Pixel)
    requires keys <= m.Keys && c in keys
    ensures SumOver(m, keys) == m[c] + SumOver(m, keys - {c})
    decreases keys
  {
    var d :| d in keys && SumOver(m, keys) == m[d] + SumOver(m, keys - {d});
    if d != c {
      SumRemove(m, keys - {d}, c);
      SumRemove(m, keys - {c}, d);
      assert keys - {d} - {c} == keys - {c} - {d};
    }
  }

  /** With every count positive, the entropy is zero exactly when there is
      no colour left. */
  lemma TotalZero(m: map<Pixel, nat>)
    requires Positive(m)
    ensures Total(m) == 0 <==> m == map[]
  {
    if m != map[] {
      var c :| c in m;
      SumRemove(m, m.Keys, c);
    }
  }

  /** The std::accumulate of GetBestPixels, in the map's iteration order.
      size_t wrap-around is not modelled. */
  method EntropyOf(m: map<Pixel, nat>) returns (e: nat)
    ensures e == Total(m)
  {
    e := 0;
    var rest := m.Keys;
    while rest != {}
      invariant rest <= m.Keys
      invariant e + SumOver(m, rest) == Total(m)
      decreases |rest|
    {
      var c :| c in rest;
      SumRemove(m, rest, c);
      e := e + m[c];
      rest := rest - {c};
    }
  }

  /** The smallest entropy among the unset pixels of pts, if there is an
      unset one. */
  ghost function MinEntropy(out: Board, pts: seq<Vector2i>): Option<nat>
    requires forall i :: 0 <= i < |pts| ==> pts[i] in out
    decreases |pts|
  {
    if |pts| == 0 then None
    else
      var m := MinEntropy(out, pts[..|pts| - 1]);
      var pixel := out[pts[|pts| - 1]];
      if pixel.Value.Some? then m
      else if m.None? || Total(pixel.ColorFrequencies) < m.value then Some(Total(pixel.ColorFrequencies))
      else m
  }

  /** The unset pixels of pts with entropy n, in the order of pts. */
  ghost function WithEntropy(out: Board, pts: seq<Vector2i>, n: nat): seq<Vector2i>
    requires forall i :: 0 <= i < |pts| ==> pts[i] in out
    decreases |pts|
  {
    if |pts| == 0 then []
    else
      var pixel := out[pts[|pts| - 1]];
      WithEntropy(out, pts[..|pts| - 1], n) +
      (if pixel.Value.None? && Total(pixel.ColorFrequencies) == n then [pts[|pts| - 1]] else [])
  }

  /** What GetBestPixels returns for a scan over pts. */
  ghost function Best(out: Board, pts: seq<Vector2i>): seq<Vector2i>
    requires forall i :: 0 <= i < |pts| ==> pts[i] in out
  {
    match MinEntropy(out, pts)
    case None => []
    case Some(m) => WithEntropy(out, pts, m)
  }

  /** Every unset pixel of pts has at least the minimum entropy. */
  lemma {:induction false} MinEntropyBound(out: Board, pts: seq<Vector2i>, i: nat)
    requires forall k :: 0 <= k < |pts| ==> pts[k] in out
    requires i < |pts| && out[pts[i]].Value.None?
    ensures MinEntropy(out, pts).Some? && MinEntropy(out, pts).value <= Total(out[pts[i]].ColorFrequencies)
    decreases |pts|
  {
    var front := pts[..|pts| - 1];
    if i < |front| {
      assert front[i] == pts[i];
      MinEntropyBound(out, front, i);
    }
  }

  /** The minimum entropy, when there is one, is that of some unset pixel
      of pts. */
  lemma {:induction false} MinEntropyAttained(out: Board, pts: seq<Vector2i>)
    requires forall k :: 0 <= k < |pts| ==> pts[k] in out
    ensures MinEntropy(out, pts).Some? ==>
              exists i :: 0 <= i < |pts| && out[pts[i]].Value.None? &&
                          Total(out[pts[i]].ColorFrequencies) == MinEntropy(out, pts).value
    decreases |pts|
  {
    if |pts| > 0 {
      var front := pts[..|pts| - 1];
      MinEntropyAttained(out, front);
      if MinEntropy(out, pts) == MinEntropy(out, front) && MinEntropy(out, front).Some? {
        var i :| 0 <= i < |front| && out[front[i]].Value.None? &&
                 Total(out[front[i]].ColorFrequencies) == MinEntropy(out, front).value;
        assert pts[i] == front[i];
      }
    }
  }

  /** WithEntropy lists exactly the unset pixels of pts with entropy n. */
  lemma {:induction false} WithEntropyHas(out: Board, pts: seq<Vector2i>, n: nat, q: Vector2i)
    requires forall k :: 0 <= k < |pts| ==> pts[k] in out
    ensures q in WithEntropy(out, pts, n) <==> q in pts && out[q].Value.None? && Total(out[q].ColorFrequencies) == n
    decreases |pts|
  {
    if |pts| > 0 {
      var front := pts[..|pts| - 1];
      WithEntropyHas(out, front, n, q);
      assert pts == front + [pts[|pts| - 1]];
    }
  }

  /** GetBestPixels lists exactly the unset pixels with the smallest
      entropy among the unset pixels scanned. */
  lemma BestMeaning(out: Board, pts: seq<Vector2i>, q: Vector2i)
    requires forall k :: 0 <= k < |pts| ==> pts[k] in out
    ensures q in Best(out, pts) <==>
              q in pts && out[q].Value.None? &&
              forall i :: 0 <= i < |pts| && out[pts[i]].Value.None? ==>
                Total(out[q].ColorFrequencies) <= Total(out[pts[i]].ColorFrequencies)
  {
    MinEntropyAttained(out, pts);
    if q in pts && out[q].Value.None? {
      var j :| 0 <= j < |pts| && pts[j] == q;
      MinEntropyBound(out, pts, j);
      var m := MinEntropy(out, pts).value;
      WithEntropyHas(out, pts, m, q);
      var i :| 0 <= i < |pts| && out[pts[i]].Value.None? && Total(out[pts[i]].ColorFrequencies) == m;
      forall k | 0 <= k < |pts| && out[pts[k]].Value.None?
        ensures m <= Total(out[pts[k]].ColorFrequencies)
      {
        MinEntropyBound(out, pts, k);
      }
    } else if MinEntropy(out, pts).Some? {
      WithEntropyHas(out, pts, MinEntropy(out, pts).value, q);
    }
  }

  /** GetBestPixels returns nothing exactly when every pixel scanned is set. */
  lemma BestEmpty(out: Board, pts: seq<Vector2i>)
    requires forall k :: 0 <= k < |pts| ==> pts[k] in out
    ensures Best(out, pts) == [] <==> forall i :: 0 <= i < |pts| ==> out[pts[i]].Value.Some?
  {
    MinEntropyAttained(out, pts);
    if MinEntropy(out, pts).Some? {
      var i :| 0 <= i < |pts| && out[pts[i]].Value.None? &&
               Total(out[pts[i]].ColorFrequencies) == MinEntropy(out, pts).value;
      WithEntropyHas(out, pts, MinEntropy(out, pts).value, pts[i]);
    } else {
      forall i | 0 <= i < |pts| ensures out[pts[i]].Value.Some? {
        if out[pts[i]].Value.None? { MinEntropyBound(out, pts, i); }
      }
    }
  }

  /** Every listed pixel is one of pts and unset. */
  lemma BestListed(out: Board, pts: seq<Vector2i>)
    requires forall k :: 0 <= k < |pts| ==> pts[k] in out
    ensures forall i :: 0 <= i < |Best(out, pts)| ==> Best(out, pts)[i] in pts && out[Best(out, pts)[i]].Value.None?
  {
    forall i | 0 <= i < |Best(out, pts)|
      ensures Best(out, pts)[i] in pts && out[Best(out, pts)[i]].Value.None?
    {
      BestMeaning(out, pts, Best(out, pts)[i]);
    }
  }

  /** No unset pixel scanned has less than the minimum entropy. */
  lemma {:induction false} WithEntropyBelow(out: Board, pts: seq<Vector2i>, n: nat)
    requires forall i :: 0 <= i < |pts| ==> pts[i] in out
    requires MinEntropy(out, pts).None? || n < MinEntropy(out, pts).value
    ensures WithEntropy(out, pts, n) == []
    decreases |pts|
  {
    if |pts| > 0 {
      WithEntropyBelow(out, pts[..|pts| - 1], n);
    }
  }

  /** The scan of GetBestPixels over pts. Where the source starts from the
      largest size_t, the smallest entropy seen so far is None. */
  method ScanBest(out: Board, pts: seq<Vector2i>) returns (outValues: seq<Vector2i>)
    requires forall k :: 0 <= k < |pts| ==> pts[k] in out
    ensures outValues == Best(out, pts)
  {
    var minEntropy: Option<nat> := None;
    outValues := [];
    var i := 0;
    while i < |pts|
      invariant 0 <= i <= |pts|
      invariant minEntropy == MinEntropy(out, pts[..i])
      invariant outValues == Best(out, pts[..i])
    {
      assert pts[..i + 1][..i] == pts[..i];
      var pixel := out[pts[i]];
      if pixel.Value.None? {
        var pixelEntropy := EntropyOf(pixel.ColorFrequencies);
        if minEntropy.None? || pixelEntropy < minEntropy.value {
          WithEntropyBelow(out, pts[..i], pixelEntropy);
          minEntropy := Some(pixelEntropy);
          outValues := [pts[i]];
        } else if pixelEntropy == minEntropy.value {
          outValues := outValues + [pts[i]];
        }
      }
      i := i + 1;
    }
    assert pts[..i] == pts;
  }

  /** The output's pixels in the order a range-for over its region visits
      them. */
  function GridOrder(g: Geometry): seq<Vector2i>
  {
    Points2(FromSize2(Vector2i(g.Width, g.Height)))
  }

  lemma GridOrderInGrid(g: Geometry)
    ensures forall p :: p in GridOrder(g) <==> g.InGrid(p)
    ensures forall k :: 0 <= k < |GridOrder(g)| ==> g.InGrid(GridOrder(g)[k])
  {
    Points2Exactly(FromSize2(Vector2i(g.Width, g.Height)));
  }

  /** A range-for over the output's region visits the grid's order, since
      an output with no width has no height either. */
  lemma GridVisits(g: Geometry)
    requires g.Width >= 0 && g.Height >= 0 && (g.Width == 0 ==> g.Height == 0)
    ensures Visits2(FromSize2(Vector2i(g.Width, g.Height))) == GridOrder(g)
  {
    var r := FromSize2(Vector2i(g.Width, g.Height));
    if g.Width == 0 {
      Points2Exactly(r);
      assert |Points2(r)| == 0;
    } else {
      assert Visits2(r) == Points2(r);
    }
  }

  /** GetBestPixels' range-for over the output's region. */
  method ScanGrid(g: Geometry, out: Board) returns (outValues: seq<Vector2i>)
    requires g.Width >= 0 && g.Height >= 0 && (g.Width == 0 ==> g.Height == 0) && Covers(g, out)
    ensures outValues == BestIn(g, out)
  {
    var pts := Iterate2(FromSize2(Vector2i(g.Width, g.Height)));
    GridVisits(g);
    GridOrderInGrid(g);
    outValues := ScanBest(out, pts);
  }

  /** What GetBestPixels returns for a board: the unset pixels of the
      output with the smallest entropy, in row-major order. */
  ghost function BestIn(g: Geometry, out: Board): (r: seq<Vector2i>)
    requires Covers(g, out)
    ensures forall i :: 0 <= i < |r| ==> g.InGrid(r[i]) && out[r[i]].Value.None?
  {
    GridOrderInGrid(g);
    BestListed(out, GridOrder(g));
    Best(out, GridOrder(g))
  }

  /** Every listed pixel has the entropy of the first. */
  lemma BestInShareEntropy(g: Geometry, out: Board, k: nat)
    requires Covers(g, out) && k < |BestIn(g, out)|
    ensures Total(out[BestIn(g, out)[k]].ColorFrequencies) == Total(out[BestIn(g, out)[0]].ColorFrequencies)
  {
    GridOrderInGrid(g);
    var pts := GridOrder(g);
    WithEntropyHas(out, pts, MinEntropy(out, pts).value, BestIn(g, out)[k]);
    WithEntropyHas(out, pts, MinEntropy(out, pts).value, BestIn(g, out)[0]);
  }

  // ---------------------------------------------------------------------
  // What the operations keep

  /** Every pixel's counts are positive. */
  ghost predicate AllPositive(out: Board)
  {
    forall q :: q in out ==> Positive(out[q].ColorFrequencies)
  }

  /** Recalculating keeps every count positive. */
  lemma RecalculatedPositive(input: InputData, g: Geometry, base: Board, out: Board, done: set<Vector2i>)
    requires InputValid(input) && g.Filterable() && AllPositive(base)
    requires RecalculatedAt(input, g, base, out, done)
    ensures AllPositive(out)
  {
    forall q | q in out ensures Positive(out[q].ColorFrequencies) {
      if q in done && base[q].Value.None? {
        GainsPositive(input, g, ValuesOf(base), q, BadColors(input, g, ValuesOf(base), q), false);
      }
    }
  }

  /** RecalculatePixelChances keeps the output's positions and every count
      positive. */
  lemma RecalcPositive(input: InputData, g: Geometry, out: Board, p: Vector2i)
    requires InputValid(input) && g.Filterable() && AllPositive(out)
    ensures Recalc(input, g, out, p).Keys == out.Keys && AllPositive(Recalc(input, g, out, p))
  {
    RecalcNone(input, g, out);
    RecalcStep(input, g, out, out, {}, p);
    RecalculatedPositive(input, g, out, Recalc(input, g, out, p), {} + (if g.InGrid(g.Filter(p)) then {g.Filter(p)} else {}));
  }

  /** SetPixel keeps the output's positions and every count positive. */
  lemma SetPositive(input: InputData, g: Geometry, out0: Board, out: Board, p: Vector2i, value: Pixel)
    requires InputValid(input) && g.Filterable() && p in out0 && AllPositive(out0)
    requires SetOutcome(input, g, out0, out, p, value)
    ensures out.Keys == out0.Keys && AllPositive(out)
  {
    var base := out0[p := out0[p].(Value := Some(value))];
    assert AllPositive(base);
    RecalculatedPositive(input, g, base, out, Touched(g, Elements(Points2(SetRegion(p, input.MaxPatternSize)))));
  }

  /** The recovery keeps the output's positions and every count positive. */
  lemma RecoveredPositive(input: InputData, g: Geometry, c: nat, out0: Board, best: seq<Vector2i>, out: Board)
    requires InputValid(input) && AllPositive(out0) && Recovered(input, g, c, out0, best, out)
    ensures out.Keys == out0.Keys && AllPositive(out)
  {
    var cleared := Cleared(g, out0, ClearedBy(input.MaxPatternSize, c, best));
    assert AllPositive(cleared);
    RecalculatedPositive(input, g, cleared, out, Touched(g, AffectedBy(input.MaxPatternSize, c, best)));
  }

  // ---------------------------------------------------------------------
  // Iterate's branches

  /** The first pixel found has no colour left: a contradiction. */
  predicate Stuck(out: Board, best: seq<Vector2i>)
  {
    |best| > 0 && best[0] in out && |out[best[0]].ColorFrequencies| == 0
  }

  /** With every count positive, Iterate finds a contradiction exactly
      when some unset pixel of the output has no colour left. */
  lemma StuckMeaning(g: Geometry, out: Board)
    requires Covers(g, out) && AllPositive(out)
    ensures Stuck(out, BestIn(g, out)) <==> exists q :: q in out && out[q].Value.None? && out[q].ColorFrequencies == map[]
  {
    var best := BestIn(g, out);
    var pts := GridOrder(g);
    GridOrderInGrid(g);
    if Stuck(out, best) {
      assert out[best[0]].Value.None? && out[best[0]].ColorFrequencies == map[];
    }
    if exists q :: q in out && out[q].Value.None? && out[q].ColorFrequencies == map[] {
      var q :| q in out && out[q].Value.None? && out[q].ColorFrequencies == map[];
      assert q in pts;
      TotalZero(out[q].ColorFrequencies);
      var i :| 0 <= i < |pts| && pts[i] == q;
      BestEmpty(out, pts);
      BestMeaning(out, pts, best[0]);
      TotalZero(out[best[0]].ColorFrequencies);
    }
  }

  /** p is the roll-th pixel of best, wrapping around. */
  predicate ChoseAt(best: seq<Vector2i>, roll: nat, p: Vector2i)
  {
    |best| > 0 && p == best[roll % |best|]
  }

  /** out is out0 after SetPixel put one of p's possible colours at p. */
  ghost predicate Picked(input: InputData, g: Geometry, out0: Board, p: Vector2i, out: Board)
  {
    g.Filterable() && AllReadable(input.images, input.patterns) && p in out0 && p in out &&
    out[p].Value.Some? && out[p].Value.value in out0[p].ColorFrequencies &&
    SetOutcome(input, g, out0, out, p, out[p].Value.value)
  }

  /** The loop of Iterate over the chosen pixel's colours, in the map's
      iteration order. */
  method Colors(freq: map<Pixel, nat>) returns (colors: seq<Pixel>)
    ensures |colors| == |freq|
    ensures forall k :: 0 <= k < |colors| ==> colors[k] in freq
  {
    colors := [];
    var rest := freq.Keys;
    while rest != {}
      invariant rest <= freq.Keys
      invariant |colors| + |rest| == |freq|
      invariant forall k :: 0 <= k < |colors| ==> colors[k] in freq
      decreases |rest|
    {
      var colAndWeight :| colAndWeight in rest;
      colors := colors + [colAndWeight];
      rest := rest - {colAndWeight};
    }
  }

  /** A fresh output: every pixel unset, with the input's colour counts. */
  method FreshBoard(g: Geometry, freq: map<Pixel, nat>) returns (out: Board)
    requires g.Width >= 0 && g.Height >= 0 && (g.Width == 0 ==> g.Height == 0)
    ensures Covers(g, out) && forall p :: p in out ==> out[p] == OutputPixel(None, freq)
  {
    var pts := Iterate2(FromSize2(Vector2i(g.Width, g.Height)));
    GridVisits(g);
    GridOrderInGrid(g);
    out := map[];
    var i := 0;
    while i < |pts|
      invariant 0 <= i <= |pts|
      invariant forall p :: p in out <==> p in pts[..i]
      invariant forall p :: p in out ==> out[p] == OutputPixel(None, freq)
    {
      assert pts[..i + 1] == pts[..i] + [pts[i]];
      out := out[pts[i] := OutputPixel(None, freq)];
      i := i + 1;
    }
    assert pts[..i] == pts;
  }

  /** When the first pixel found has a colour left, with every count
      positive, so has every pixel found: they share the entropy. */
  lemma BestHaveColors(g: Geometry, out: Board, k: nat)
    requires Covers(g, out) && AllPositive(out) && k < |BestIn(g, out)|
    requires |out[BestIn(g, out)[0]].ColorFrequencies| > 0
    ensures |out[BestIn(g, out)[k]].ColorFrequencies| > 0
  {
    BestInShareEntropy(g, out, k);
    TotalZero(out[BestIn(g, out)[0]].ColorFrequencies);
    TotalZero(out[BestIn(g, out)[k]].ColorFrequencies);
  }

  /** The colour choice of Iterate: the one colour when there is one, else
      the pick-th in the map's iteration order (pick stands for the weighted
      draw). */
  method ChooseColor(freq: map<Pixel, nat>, pick: nat) returns (chosenColor: Pixel)
    requires |freq| > 0
    ensures chosenColor in freq
  {
    if |freq| == 1 {
      chosenColor :| chosenColor in freq;
    } else {
      var colors := Colors(freq);
      chosenColor := colors[pick % |colors|];
    }
  }

  /** After SetPixel the pixel holds the value it was set to. */
  lemma SetHolds(input: InputData, g: Geometry, out0: Board, out: Board, p: Vector2i, value: Pixel)
    requires g.Filterable() && AllReadable(input.images, input.patterns) && p in out0
    requires SetOutcome(input, g, out0, out, p, value)
    ensures p in out && out[p].Value == Some(value)
  {
  }

  // ---------------------------------------------------------------------
  // The solver state

  /** Simple::State. The random generator is not part of the model:
      Iterate takes the numbers it would draw as parameters. */
  class State {
    const Input: InputData
    var Output: Board
    var width: int
    var height: int
    var PeriodicX: bool
    var PeriodicY: bool
    var ViolationClearSize: nat

    function Geo(): Geometry
      reads this
    {
      Geometry(width, height, PeriodicX, PeriodicY)
    }

    /** The output holds the output's pixels (an output with no width has
        no height either), and every count is positive. */
    ghost predicate Valid()
      reads this
    {
      InputValid(Input) && Shaped() && AllPositive(Output)
    }

    ghost predicate Shaped()
      reads this
    {
      width >= 0 && height >= 0 && (width == 0 ==> height == 0) && Covers(Geo(), Output)
    }

    /** The constructor: the output, then Reset. The seed is not
        modelled. */
    constructor(input: InputData, outputSize: Vector2i, periodicX: bool, periodicY: bool, violationClearSize: nat)
      requires InputValid(input)
      requires outputSize.x >= 0 && outputSize.y >= 0 && (outputSize.x == 0 ==> outputSize.y == 0)
      ensures Valid() && Input == input
      ensures width == outputSize.x && height == outputSize.y
      ensures PeriodicX == periodicX && PeriodicY == periodicY && ViolationClearSize == violationClearSize
      ensures forall p :: p in Output ==> Output[p] == OutputPixel(None, input.pixelFrequencies)
    {
      Input := input;
      Output := map[];
      width, height := outputSize.x, outputSize.y;
      PeriodicX, PeriodicY, ViolationClearSize := periodicX, periodicY, violationClearSize;
      new;
      Reset(outputSize);
    }

    /** Reset: an output of the new size, every pixel unset and with the
        input's colour counts. */
    method Reset(newOutputSize: Vector2i)
      requires InputValid(Input)
      requires newOutputSize.x >= 0 && newOutputSize.y >= 0 && (newOutputSize.x == 0 ==> newOutputSize.y == 0)
      modifies this
      ensures Valid()
      ensures width == newOutputSize.x && height == newOutputSize.y
      ensures PeriodicX == old(PeriodicX) && PeriodicY == old(PeriodicY) && ViolationClearSize == old(ViolationClearSize)
      ensures forall p :: p in Output ==> Output[p] == OutputPixel(None, Input.pixelFrequencies)
    {
      width, height := newOutputSize.x, newOutputSize.y;
      Output := FreshBoard(Geo(), Input.pixelFrequencies);
    }

    /** RecalculatePixelChances: the pixel at Filter(pixelPos), when unset,
        gets the chances of the output's values; every other pixel, and a
        set pixel, is unchanged. */
    method RecalculatePixelChances(pixelPos: Vector2i)
      requires Valid() && Geo().Filterable()
      modifies this
      ensures Valid()
      ensures width == old(width) && height == old(height) && PeriodicX == old(PeriodicX)
      ensures PeriodicY == old(PeriodicY) && ViolationClearSize == old(ViolationClearSize)
      ensures Output == Recalc(Input, Geo(), old(Output), pixelPos)
    {
      var g := Geo();
      RecalcPositive(Input, g, Output, pixelPos);
      Output := RecalcPixel(Input, g, Output, pixelPos);
      assert Geo() == g;
    }

    /** SetPixel: the pixel holds value, then every pixel of the region
        around it is recalculated. */
    method SetPixel(pixelPos: Vector2i, value: Pixel)
      requires Valid() && Geo().InGrid(pixelPos)
      modifies this
      ensures Valid()
      ensures width == old(width) && height == old(height) && PeriodicX == old(PeriodicX)
      ensures PeriodicY == old(PeriodicY) && ViolationClearSize == old(ViolationClearSize)
      ensures Geo().Filterable() && pixelPos in old(Output)
      ensures SetOutcome(Input, Geo(), old(Output), Output, pixelPos, value)
    {
      var g := Geo();
      ghost var out0 := Output;
      Output := SetPixelOn(Input, g, Output, pixelPos, value);
      SetPositive(Input, g, out0, Output, pixelPos, value);
      assert Geo() == g;
    }

    /** ClearArea: every pixel the region around center filters to is
        unset, and the region of pixels this affects is returned. */
    method ClearArea(center: Vector2i) returns (affected: Region2i)
      requires Valid() && Geo().Filterable()
      modifies this
      ensures Valid()
      ensures width == old(width) && height == old(height) && PeriodicX == old(PeriodicX)
      ensures PeriodicY == old(PeriodicY) && ViolationClearSize == old(ViolationClearSize)
      ensures Output == Cleared(Geo(), old(Output), Elements(Points2(ClearRegion(Input.MaxPatternSize, ViolationClearSize, center))))
      ensures affected == AffectedRegion(ClearRegion(Input.MaxPatternSize, ViolationClearSize, center), Input.MaxPatternSize)
    {
      var g := Geo();
      Output, affected := ClearAreaOn(g, Input.MaxPatternSize, ViolationClearSize, Output, center);
      assert Geo() == g;
    }

    /** GetBestPixels: a scan in row-major order keeping the smallest
        entropy seen among unset pixels and the pixels having it. */
    method GetBestPixels() returns (outValues: seq<Vector2i>)
      requires Valid()
      ensures outValues == BestIn(Geo(), Output)
    {
      outValues := ScanGrid(Geo(), Output);
    }

    /** Iterate: Some(true) when every pixel is set; Some(false), with the
        pixels found, on a contradiction when clearing is off; otherwise the
        contradiction is cleared away, or a pixel with the smallest entropy
        is set to one of its colours. roll stands for the draw that picks
        the pixel and pick for the weighted draw that picks the colour. */
    method Iterate(roll: nat, pick: nat, changedPos0: Vector2i, failedAt0: seq<Vector2i>)
      returns (result: Option<bool>, changedPos: Vector2i, failedAt: seq<Vector2i>)
      requires Valid()
      modifies this
      ensures Valid()
      ensures width == old(width) && height == old(height) && PeriodicX == old(PeriodicX)
      ensures PeriodicY == old(PeriodicY) && ViolationClearSize == old(ViolationClearSize)
      ensures result == Some(true) <==> old(BestIn(Geo(), Output)) == []
      ensures result == Some(false) <==> Stuck(old(Output), old(BestIn(Geo(), Output))) && ViolationClearSize == 0
      ensures result.Some? ==> Output == old(Output) && changedPos == changedPos0
      ensures failedAt == if result == Some(false) then old(BestIn(Geo(), Output)) else failedAt0
      ensures result.None? && Stuck(old(Output), old(BestIn(Geo(), Output))) ==>
                changedPos == Vector2i(-1, -1) &&
                Recovered(Input, Geo(), ViolationClearSize, old(Output), old(BestIn(Geo(), Output)), Output)
      ensures result.None? && !Stuck(old(Output), old(BestIn(Geo(), Output))) ==>
                ChoseAt(old(BestIn(Geo(), Output)), roll, changedPos) &&
                Picked(Input, Geo(), old(Output), changedPos, Output)
    {
      var lowestEntropyPixelPoses := GetBestPixels();
      if |lowestEntropyPixelPoses| == 0 {
        return Some(true), changedPos0, failedAt0;
      }
      var nColorChoices := |Output[lowestEntropyPixelPoses[0]].ColorFrequencies|;
      if nColorChoices == 0 {
        if ViolationClearSize > 0 {
          changedPos := RecoverFrom(lowestEntropyPixelPoses);
          return None, changedPos, failedAt0;
        } else {
          return Some(false), changedPos0, lowestEntropyPixelPoses;
        }
      }
      changedPos := ChooseAndSet(lowestEntropyPixelPoses, roll, pick);
      return None, changedPos, failedAt0;
    }

    /** The last branch of Iterate: the roll-th pixel found is set to one
        of its colours, the one alone when there is one, else the pick-th
        in the map's iteration order. */
    method ChooseAndSet(best: seq<Vector2i>, roll: nat, pick: nat) returns (changedPos: Vector2i)
      requires Valid() && best == BestIn(Geo(), Output) && |best| > 0
      requires |Output[best[0]].ColorFrequencies| > 0
      modifies this
      ensures Valid()
      ensures width == old(width) && height == old(height) && PeriodicX == old(PeriodicX)
      ensures PeriodicY == old(PeriodicY) && ViolationClearSize == old(ViolationClearSize)
      ensures ChoseAt(best, roll, changedPos)
      ensures Picked(Input, Geo(), old(Output), changedPos, Output)
    {
      var chosenPixelPos := best[roll % |best|];
      var chosenPixel := Output[chosenPixelPos];
      BestHaveColors(Geo(), Output, roll % |best|);
      var chosenColor := ChooseColor(chosenPixel.ColorFrequencies, pick);
      SetPixel(chosenPixelPos, chosenColor);
      SetHolds(Input, Geo(), old(Output), Output, chosenPixelPos, chosenColor);
      changedPos := chosenPixelPos;
    }

    /** The recovery branch of Iterate: ClearArea around each pixel found,
        then RecalculatePixelChances at every affected position, in the
        set's iteration order. */
    method RecoverFrom(best: seq<Vector2i>) returns (changedPos: Vector2i)
      requires Valid() && |best| > 0 && Geo().InGrid(best[0]) && ViolationClearSize > 0
      modifies this
      ensures Valid()
      ensures width == old(width) && height == old(height) && PeriodicX == old(PeriodicX)
      ensures PeriodicY == old(PeriodicY) && ViolationClearSize == old(ViolationClearSize)
      ensures changedPos == Vector2i(-1, -1)
      ensures Recovered(Input, Geo(), ViolationClearSize, old(Output), best, Output)
    {
      var g := Geo();
      ghost var out0 := Output;
      Output := RecoverOn(Input, g, ViolationClearSize, Output, best);
      RecoveredPositive(Input, g, ViolationClearSize, out0, best, Output);
      assert Geo() == g;
      changedPos := Vector2i(-1, -1);
    }
  }
}
