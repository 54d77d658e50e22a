/** One tile's text file in WFCtile (TileFile.h, TileFIle.cpp): a block of
    pixel values, then key/value lines naming the four edges, the weight and
    the symmetries. */
module WfcTileTileFile {
  import opened Common
  import opened WfcTileUtils
  import opened WfcTileKeyValues
  import opened WfcTileInputFile
  import Transform2D
  import EnumFlags
  import TiledPermutator

  /** std::array<std::string, 4>, indexed by EdgeDirs. */
  type EdgeNames = s: seq<string> | |s| == 4 witness ["", "", "", ""]

  /** TileFile's fields; Pixels[y][x] is the pixel at (x, y), and
      Symmetries is the TransformationFlags mask. The caller sets Name. */
  datatype TileFile = TileFile(Weight: nat, Pixels: seq<seq<nat>>, Edges: EdgeNames, Symmetries: bv8)

  /** The error codes the reader reports. */
  const NO_PIXELS: int := 1
  const ROW_LENGTH: int := 2
  const MISSING_EDGE: int := 3
  const WRONG_SIZE: int := 4
  const UNKNOWN_KEY: int := 5
  const BAD_VALUE: int := 6
  const BAD_PIXEL: int := 12

  /** Pixel_t is uint8_t and Weight is uint32_t. */
  const PIXEL_MAX: nat := 255
  const WEIGHT_MODULUS: nat := 0x1_0000_0000

  // ---------------------------------------------------------------------
  // The lines and the pixel block

  /** The GetLines filter: trim and cut at "//". */
  function CleanTileLine(s: string): string
  {
    CleanLine(s, "//")
  }

  /** The GetLines predicate: every line is kept, blank ones too. */
  predicate KeepAll(s: string)
  {
    true
  }

  function TileLines(contents: string): seq<string>
  {
    TextLines(contents, CleanTileLine, KeepAll)
  }

  /** std::find_if for a non-empty line from i on. */
  function FirstNonEmpty(lines: seq<string>, i: nat): (b: nat)
    requires i <= |lines|
    ensures i <= b <= |lines|
    ensures b < |lines| ==> lines[b] != []
    ensures forall k :: i <= k < b ==> lines[k] == []
    decreases |lines| - i
  {
    if i == |lines| || lines[i] != [] then i else FirstNonEmpty(lines, i + 1)
  }

  /** std::find_if for an empty line from i on. */
  function FirstEmpty(lines: seq<string>, i: nat): (e: nat)
    requires i <= |lines|
    ensures i <= e <= |lines|
    ensures e < |lines| ==> lines[e] == []
    ensures forall k :: i <= k < e ==> lines[k] != []
    decreases |lines| - i
  {
    if i == |lines| || lines[i] == [] then i else FirstEmpty(lines, i + 1)
  }

  function TileBegin(lines: seq<string>): nat
  {
    FirstNonEmpty(lines, 0)
  }

  function TileEnd(lines: seq<string>): (e: nat)
    ensures TileBegin(lines) <= e <= |lines|
    ensures TileBegin(lines) < |lines| ==> TileBegin(lines) < e
  {
    FirstEmpty(lines, TileBegin(lines))
  }

  /** Each line of the block split into its whitespace-separated words. */
  function RowWords(lines: seq<string>): (rows: seq<seq<string>>)
    ensures |rows| == |lines|
    ensures forall k :: 0 <= k < |lines| ==> rows[k] == Words(lines[k], IsSpace)
  {
    seq(|lines|, k requires 0 <= k < |lines| => Words(lines[k], IsSpace))
  }

  /** The words of the pixel block, one row per line. */
  function TileRows(lines: seq<string>): seq<seq<string>>
  {
    RowWords(lines[TileBegin(lines)..TileEnd(lines)])
  }

  /** A pixel's text: a size_t that fits in a byte. */
  function PixelValue(w: string): (r: Option<nat>)
    ensures r.Some? <==> ParseSize(w).Some? && ParseSize(w).value <= PIXEL_MAX
    ensures r.Some? ==> r == ParseSize(w)
  {
    match ParseSize(w)
    case Some(n) => if n <= PIXEL_MAX then Some(n) else None
    case None => None
  }

  /** One row of pixels. */
  function ParseRow(row: seq<string>): (r: Parsed<seq<nat>>)
    ensures r.Failed? <==> exists x :: 0 <= x < |row| && PixelValue(row[x]).None?
    ensures r.Failed? ==> r.code == BAD_PIXEL
    ensures r.Ok? ==> |r.value| == |row| && forall x :: 0 <= x < |row| ==> PixelValue(row[x]) == Some(r.value[x])
  {
    if forall x :: 0 <= x < |row| ==> PixelValue(row[x]).Some? then
      Ok(seq(|row|, x requires 0 <= x < |row| => PixelValue(row[x]).value))
    else Failed(BAD_PIXEL)
  }

  /** The rows in order: a row of the wrong length fails with code 2, a bad
      pixel with code 12, and the first such row decides. */
  function ParsePixels(rows: seq<seq<string>>, width: nat): (r: Parsed<seq<seq<nat>>>)
    ensures r.Failed? ==> r.code in {ROW_LENGTH, BAD_PIXEL}
    ensures r.Ok? ==> |r.value| == |rows|
    ensures r.Ok? ==> forall y :: 0 <= y < |rows| ==> |rows[y]| == width && |r.value[y]| == width
    ensures r.Ok? ==> forall y, x :: 0 <= y < |rows| && 0 <= x < width ==>
                        PixelValue(rows[y][x]) == Some(r.value[y][x])
  {
    if rows == [] then Ok([])
    else
      match ParsePixels(rows[..|rows| - 1], width)
      case Failed(c) => Failed(c)
      case Ok(ps) =>
        var last := rows[|rows| - 1];
        if |last| != width then Failed(ROW_LENGTH)
        else match ParseRow(last)
          case Failed(c) => Failed(c)
          case Ok(p) =>
            assert forall y :: 0 <= y < |rows| - 1 ==> rows[..|rows| - 1][y] == rows[y];
            Ok(ps + [p])
  }

  lemma ParsePixelsSnoc(rows: seq<seq<string>>, y: nat, width: nat)
    requires y < |rows|
    ensures ParsePixels(rows[..y + 1], width) ==
              match ParsePixels(rows[..y], width)
              case Failed(c) => Failed(c)
              case Ok(ps) =>
                if |rows[y]| != width then Failed(ROW_LENGTH)
                else match ParseRow(rows[y])
                  case Failed(c) => Failed(c)
                  case Ok(p) => Ok(ps + [p])
  {
    assert rows[..y + 1][..y] == rows[..y];
  }

  /** Once a prefix fails, the whole block fails the same way. */
  lemma {:induction false} ParsePixelsFailedPrefix(rows: seq<seq<string>>, k: nat, width: nat)
    requires k <= |rows|
    requires ParsePixels(rows[..k], width).Failed?
    ensures ParsePixels(rows, width) == ParsePixels(rows[..k], width)
    decreases |rows| - k
  {
    if k < |rows| {
      ParsePixelsSnoc(rows, k, width);
      ParsePixelsFailedPrefix(rows, k + 1, width);
    } else {
      assert rows[..k] == rows;
    }
  }

  // ---------------------------------------------------------------------
  // The key/value lines after the block

  /** A line after the block: blank lines are skipped, the others split at
      their first ':'. */
  function TileEntry(line: string): Option<Entry>
  {
    if line == [] then None else Some(SplitFirst(line, ':'))
  }

  function TileEntries(lines: seq<string>): (r: seq<Option<Entry>>)
    ensures |r| == |lines|
    ensures forall k :: 0 <= k < |lines| ==> r[k] == TileEntry(lines[k])
  {
    seq(|lines|, k requires 0 <= k < |lines| => TileEntry(lines[k]))
  }

  lemma TileEntriesStep(lines: seq<string>, i: nat)
    requires i < |lines|
    ensures TileEntries(lines[i..]) == [TileEntry(lines[i])] + TileEntries(lines[i + 1..])
  {
  }

  /** Reading the key/value lines from i on: line i, then the rest. */
  lemma TileFoldStep<T>(t: T, lines: seq<string>, i: nat, apply: (T, string, string) -> Parsed<T>)
    requires i < |lines|
    ensures Fold(t, TileEntries(lines[i..]), apply) ==
              if lines[i] == [] then Fold(t, TileEntries(lines[i + 1..]), apply)
              else match apply(t, SplitFirst(lines[i], ':').0, SplitFirst(lines[i], ':').1)
                case Failed(c) => Failed(c)
                case Ok(u) => Fold(u, TileEntries(lines[i + 1..]), apply)
  {
    TileEntriesStep(lines, i);
    assert ([TileEntry(lines[i])] + TileEntries(lines[i + 1..]))[1..] == TileEntries(lines[i + 1..]);
  }

  /** The Weight is a size_t cast to uint32_t. */
  function WeightOf(s: string): (r: Option<nat>)
    ensures r.Some? <==> ParseSize(s).Some?
    ensures r.Some? ==> r.value < WEIGHT_MODULUS
  {
    match ParseSize(s)
    case Some(w) => Some(w % WEIGHT_MODULUS)
    case None => None
  }

  /** One key/value line; the symmetry names are read by parseTransf, which
      stands for TryParse(std::string, Transformations&). */
  function ApplyTile(parseTransf: string -> Option<Transform2D.Transformation>,
                     t: TileFile, key: string, val: string): Parsed<TileFile>
  {
    if key == "Top" then Ok(t.(Edges := t.Edges[TiledPermutator.MIN_Y := val]))
    else if key == "Bottom" then Ok(t.(Edges := t.Edges[TiledPermutator.MAX_Y := val]))
    else if key == "Left" then Ok(t.(Edges := t.Edges[TiledPermutator.MIN_X := val]))
    else if key == "Right" then Ok(t.(Edges := t.Edges[TiledPermutator.MAX_X := val]))
    else if key == "Weight" then
      match WeightOf(val)
      case Some(w) => Ok(t.(Weight := w))
      case None => Failed(BAD_VALUE)
    else if key == "Symmetry" then
      match parseTransf(val)
      case Some(tr) => Ok(t.(Symmetries := t.Symmetries | EnumFlags.ToMask(Transform2D.Ordinal(tr))))
      case None => Failed(BAD_VALUE)
    else Failed(UNKNOWN_KEY)
  }

  function ApplyWith(parseTransf: string -> Option<Transform2D.Transformation>)
    : (TileFile, string, string) -> Parsed<TileFile>
  {
    (t, k, v) => ApplyTile(parseTransf, t, k, v)
  }

  /** The tile before its key/value lines: weight 100, no edges, no
      symmetries. */
  function StartTile(pixels: seq<seq<nat>>): TileFile
  {
    TileFile(TiledPermutator.DEFAULT_WEIGHT, pixels, ["", "", "", ""], 0)
  }

  predicate MissingEdge(t: TileFile)
  {
    exists i :: 0 <= i < 4 && t.Edges[i] == []
  }

  function TileKeyValues(lines: seq<string>): seq<Option<Entry>>
  {
    TileEntries(lines[TileEnd(lines)..])
  }

  /** What the constructor leaves in outErrCode and its fields. */
  function ParseTileFile(contents: string, data: InputFile,
                         parseTransf: string -> Option<Transform2D.Transformation>): Parsed<TileFile>
  {
    var lines := TileLines(contents);
    if TileBegin(lines) == |lines| then Failed(NO_PIXELS)
    else
      var rows := TileRows(lines);
      if |rows[0]| != data.Width || |rows| != data.Height then Failed(WRONG_SIZE)
      else match ParsePixels(rows, |rows[0]|)
        case Failed(c) => Failed(c)
        case Ok(px) =>
          match Fold(StartTile(px), TileKeyValues(lines), ApplyWith(parseTransf))
          case Failed(c) => Failed(c)
          case Ok(t) => if MissingEdge(t) then Failed(MISSING_EDGE) else Ok(t)
  }

  /** The block's rows, split into words (the loop over tileBegin..tileEnd). */
  method SplitRows(lines: seq<string>, tileBegin: nat, tileEnd: nat) returns (pixelsStr: seq<seq<string>>)
    requires tileBegin <= tileEnd <= |lines|
    ensures pixelsStr == RowWords(lines[tileBegin..tileEnd])
  {
    pixelsStr := [];
    var it := tileBegin;
    while it < tileEnd
      invariant tileBegin <= it <= tileEnd
      invariant |pixelsStr| == it - tileBegin
      invariant forall k :: 0 <= k < |pixelsStr| ==> pixelsStr[k] == Words(lines[tileBegin + k], IsSpace)
      decreases tileEnd - it
    {
      var lineElements := Split(lines[it], [], IsSpace);
      pixelsStr := pixelsStr + [lineElements];
      it := it + 1;
    }
  }

  /** One row's pixels (the loop over x). */
  method ReadRow(row: seq<string>) returns (r: Parsed<seq<nat>>)
    ensures r == ParseRow(row)
  {
    var pixels: seq<nat> := [];
    for x := 0 to |row|
      invariant |pixels| == x
      invariant forall k :: 0 <= k < x ==> PixelValue(row[k]) == Some(pixels[k])
    {
      var parsed := ParseSize(row[x]);
      if parsed.Some? && parsed.value <= PIXEL_MAX {
        pixels := pixels + [parsed.value];
      } else {
        assert PixelValue(row[x]).None?;
        return Failed(BAD_PIXEL);
      }
    }
    assert pixels == seq(|row|, x requires 0 <= x < |row| => PixelValue(row[x]).value);
    r := Ok(pixels);
  }

  /** The pixel block (the loop over y). */
  method ReadPixels(pixelsStr: seq<seq<string>>, tileWidth: nat) returns (r: Parsed<seq<seq<nat>>>)
    ensures r == ParsePixels(pixelsStr, tileWidth)
  {
    var pixels: seq<seq<nat>> := [];
    for y := 0 to |pixelsStr|
      invariant ParsePixels(pixelsStr[..y], tileWidth) == Ok(pixels)
    {
      ParsePixelsSnoc(pixelsStr, y, tileWidth);
      if |pixelsStr[y]| != tileWidth {
        ParsePixelsFailedPrefix(pixelsStr, y + 1, tileWidth);
        return Failed(ROW_LENGTH);
      }
      var row := ReadRow(pixelsStr[y]);
      if row.Failed? {
        ParsePixelsFailedPrefix(pixelsStr, y + 1, tileWidth);
        return Failed(row.code);
      }
      pixels := pixels + [row.value];
    }
    assert pixelsStr[..|pixelsStr|] == pixelsStr;
    r := Ok(pixels);
  }

  /** The key/value lines from tileEnd on, each applied by apply (the
      chain of key tests of the reader that calls it). */
  method ReadKeyValues<T>(lines: seq<string>, tileEnd: nat, t0: T, apply: (T, string, string) -> Parsed<T>)
    returns (r: Parsed<T>)
    requires tileEnd <= |lines|
    ensures r == Fold(t0, TileEntries(lines[tileEnd..]), apply)
  {
    var t := t0;
    ghost var total := Fold(t0, TileEntries(lines[tileEnd..]), apply);
    for i := tileEnd to |lines|
      invariant Fold(t, TileEntries(lines[i..]), apply) == total
    {
      TileFoldStep(t, lines, i, apply);
      if |lines[i]| > 0 {
        var (key, val) := SplitFirst(lines[i], ':');
        var next := apply(t, key, val);
        if next.Failed? {
          return next;
        }
        t := next.value;
      }
    }
    assert lines[|lines|..] == [];
    r := Ok(t);
  }

  /** The two searches for the pixel block: its first non-empty line and
      the first empty line after it. */
  method FindTileBlock(lines: seq<string>) returns (tileBegin: nat, tileEnd: nat)
    ensures tileBegin == TileBegin(lines)
    ensures tileBegin < |lines| ==> tileEnd == TileEnd(lines)
  {
    tileBegin := 0;
    while tileBegin < |lines| && lines[tileBegin] == []
      invariant tileBegin <= |lines|
      invariant FirstNonEmpty(lines, tileBegin) == TileBegin(lines)
      decreases |lines| - tileBegin
    {
      tileBegin := tileBegin + 1;
    }
    tileEnd := tileBegin;
    while tileEnd < |lines| && lines[tileEnd] != []
      invariant tileBegin <= tileEnd <= |lines|
      invariant FirstEmpty(lines, tileEnd) == TileEnd(lines)
      decreases |lines| - tileEnd
    {
      tileEnd := tileEnd + 1;
    }
  }

  /** The constructor TileFile(fileContents, data, outErrCode). */
  method ReadTileFile(fileContents: string, data: InputFile,
                      parseTransf: string -> Option<Transform2D.Transformation>) returns (r: Parsed<TileFile>)
    ensures r == ParseTileFile(fileContents, data, parseTransf)
  {
    var lines := GetLines(fileContents, [], CleanTileLine, KeepAll);
    assert lines == TileLines(fileContents);

    var tileBegin, tileEnd := FindTileBlock(lines);
    if tileBegin == |lines| {
      return Failed(NO_PIXELS);
    }

    var pixelsStr := SplitRows(lines, tileBegin, tileEnd);
    var tileWidth := |pixelsStr[0]|;
    var tileHeight := |pixelsStr|;
    if tileWidth != data.Width || tileHeight != data.Height {
      return Failed(WRONG_SIZE);
    }
    var pixels := ReadPixels(pixelsStr, tileWidth);
    if pixels.Failed? {
      return Failed(pixels.code);
    }
    var t := ReadKeyValues(lines, tileEnd, StartTile(pixels.value), ApplyWith(parseTransf));
    if t.Failed? {
      return t;
    }
    if exists i :: 0 <= i < 4 && t.value.Edges[i] == [] {
      return Failed(MISSING_EDGE);
    }
    r := t;
  }

  // ---------------------------------------------------------------------
  // What a reading yields

  lemma ApplyTileCodes(parseTransf: string -> Option<Transform2D.Transformation>)
    ensures forall u, k, v :: ApplyWith(parseTransf)(u, k, v).Failed? ==>
              ApplyWith(parseTransf)(u, k, v).code in {UNKNOWN_KEY, BAD_VALUE}
  {
  }

  /** The key/value lines keep the pixels and a weight that fits in 32 bits. */
  predicate TileInvariant(px: seq<seq<nat>>, u: TileFile)
  {
    u.Pixels == px && u.Weight < WEIGHT_MODULUS
  }

  function InvariantOf(px: seq<seq<nat>>): TileFile -> bool
  {
    u => TileInvariant(px, u)
  }

  lemma TileInvariantKept(parseTransf: string -> Option<Transform2D.Transformation>, px: seq<seq<nat>>)
    ensures forall kv: Entry :: EntryKeeps(ApplyWith(parseTransf), InvariantOf(px), kv)
  {
  }

  /** Every failure has one of the reader's codes; a success has a pixel
      block of the tile set's size with every pixel in a byte, all four
      edges named, and a 32-bit weight. */
  lemma TileOutcome(contents: string, data: InputFile,
                    parseTransf: string -> Option<Transform2D.Transformation>)
    ensures ParseTileFile(contents, data, parseTransf).Failed? ==>
              ParseTileFile(contents, data, parseTransf).code
                in {NO_PIXELS, ROW_LENGTH, MISSING_EDGE, WRONG_SIZE, UNKNOWN_KEY, BAD_VALUE, BAD_PIXEL}
    ensures ParseTileFile(contents, data, parseTransf).Ok? ==>
              var t := ParseTileFile(contents, data, parseTransf).value;
              |t.Pixels| == data.Height &&
              (forall y :: 0 <= y < data.Height ==> |t.Pixels[y]| == data.Width) &&
              (forall y, x :: 0 <= y < data.Height && 0 <= x < data.Width ==> t.Pixels[y][x] <= PIXEL_MAX) &&
              (forall i :: 0 <= i < 4 ==> t.Edges[i] != []) &&
              t.Weight < WEIGHT_MODULUS
  {
    var lines := TileLines(contents);
    if TileBegin(lines) < |lines| {
      var rows := TileRows(lines);
      if |rows[0]| == data.Width && |rows| == data.Height && ParsePixels(rows, |rows[0]|).Ok? {
        var px := ParsePixels(rows, |rows[0]|).value;
        ApplyTileCodes(parseTransf);
        FoldFailure(StartTile(px), TileKeyValues(lines), ApplyWith(parseTransf), {UNKNOWN_KEY, BAD_VALUE});
        TileInvariantKept(parseTransf, px);
        FoldKeeps(StartTile(px), TileKeyValues(lines), ApplyWith(parseTransf), InvariantOf(px));
      }
    }
  }

  /** Code 1 exactly when no line holds anything once comments are cut. */
  lemma TileNoPixels(contents: string, data: InputFile,
                     parseTransf: string -> Option<Transform2D.Transformation>)
    ensures ParseTileFile(contents, data, parseTransf) == Failed(NO_PIXELS) <==>
              forall k :: 0 <= k < |TileLines(contents)| ==> TileLines(contents)[k] == []
  {
    var lines := TileLines(contents);
    if TileBegin(lines) < |lines| {
      assert lines[TileBegin(lines)] != [];
      TileOutcomeNotOne(contents, data, parseTransf);
    }
  }

  /** Past the first blank-line check, no failure has code 1 or code 4
      except the size check's. */
  lemma TileOutcomeNotOne(contents: string, data: InputFile,
                          parseTransf: string -> Option<Transform2D.Transformation>)
    requires TileBegin(TileLines(contents)) < |TileLines(contents)|
    ensures ParseTileFile(contents, data, parseTransf) != Failed(NO_PIXELS)
    ensures ParseTileFile(contents, data, parseTransf) == Failed(WRONG_SIZE) <==>
              |TileRows(TileLines(contents))[0]| != data.Width || |TileRows(TileLines(contents))| != data.Height
  {
    var lines := TileLines(contents);
    var rows := TileRows(lines);
    if |rows[0]| == data.Width && |rows| == data.Height && ParsePixels(rows, |rows[0]|).Ok? {
      var px := ParsePixels(rows, |rows[0]|).value;
      ApplyTileCodes(parseTransf);
      FoldFailure(StartTile(px), TileKeyValues(lines), ApplyWith(parseTransf), {UNKNOWN_KEY, BAD_VALUE});
    }
  }

  /** Each pixel is the number its word in the block spells. */
  lemma TilePixelsFromText(contents: string, data: InputFile,
                           parseTransf: string -> Option<Transform2D.Transformation>)
    ensures ParseTileFile(contents, data, parseTransf).Ok? ==>
              var rows := TileRows(TileLines(contents));
              var t := ParseTileFile(contents, data, parseTransf).value;
              |rows| == data.Height && |t.Pixels| == data.Height &&
              forall y, x :: 0 <= y < data.Height && 0 <= x < data.Width ==>
                |rows[y]| == data.Width && |t.Pixels[y]| == data.Width &&
                ParseSize(rows[y][x]) == Some(t.Pixels[y][x])
  {
    var lines := TileLines(contents);
    if TileBegin(lines) < |lines| {
      var rows := TileRows(lines);
      if |rows[0]| == data.Width && |rows| == data.Height && ParsePixels(rows, |rows[0]|).Ok? {
        var px := ParsePixels(rows, |rows[0]|).value;
        TileInvariantKept(parseTransf, px);
        FoldKeeps(StartTile(px), TileKeyValues(lines), ApplyWith(parseTransf), InvariantOf(px));
      }
    }
  }

  function GetWeight(t: TileFile): nat { t.Weight }

  lemma ApplyTileWeight(parseTransf: string -> Option<Transform2D.Transformation>)
    ensures forall u, v :: ApplyWith(parseTransf)(u, "Weight", v).Ok? ==>
              WeightOf(v).Some? && GetWeight(ApplyWith(parseTransf)(u, "Weight", v).value) == WeightOf(v).value
    ensures forall u, k, v :: k != "Weight" && ApplyWith(parseTransf)(u, k, v).Ok? ==>
              GetWeight(ApplyWith(parseTransf)(u, k, v).value) == GetWeight(u)
  {
  }

  /** The weight is 100 unless a Weight line sets it; then it is the last
      such line's number, cut to 32 bits. */
  lemma TileWeight(contents: string, data: InputFile,
                   parseTransf: string -> Option<Transform2D.Transformation>)
    ensures ParseTileFile(contents, data, parseTransf).Ok? &&
            KeyAbsent(TileKeyValues(TileLines(contents)), "Weight") ==>
              ParseTileFile(contents, data, parseTransf).value.Weight == TiledPermutator.DEFAULT_WEIGHT
    ensures ParseTileFile(contents, data, parseTransf).Ok? &&
            !KeyAbsent(TileKeyValues(TileLines(contents)), "Weight") ==>
              WeightOf(LastValue(TileKeyValues(TileLines(contents)), "Weight").value)
                == Some(ParseTileFile(contents, data, parseTransf).value.Weight)
  {
    var lines := TileLines(contents);
    if TileBegin(lines) < |lines| {
      var rows := TileRows(lines);
      if |rows[0]| == data.Width && |rows| == data.Height && ParsePixels(rows, |rows[0]|).Ok? {
        var px := ParsePixels(rows, |rows[0]|).value;
        ApplyTileWeight(parseTransf);
        FoldLastField(StartTile(px), TileKeyValues(lines), ApplyWith(parseTransf), "Weight", GetWeight, WeightOf);
      }
    }
  }

  /** The key that names each edge. */
  predicate EdgeKey(key: string, dir: nat)
  {
    (key == "Top" && dir == TiledPermutator.MIN_Y) || (key == "Bottom" && dir == TiledPermutator.MAX_Y) ||
    (key == "Left" && dir == TiledPermutator.MIN_X) || (key == "Right" && dir == TiledPermutator.MAX_X)
  }

  function Present(s: string): Option<string> { Some(s) }

  lemma ApplyTileEdge(parseTransf: string -> Option<Transform2D.Transformation>, key: string, dir: nat)
    requires EdgeKey(key, dir)
    ensures forall u, v :: ApplyWith(parseTransf)(u, key, v).Ok? ==>
              Present(v).Some? && ApplyWith(parseTransf)(u, key, v).value.Edges[dir] == Present(v).value
    ensures forall u, k, v :: k != key && ApplyWith(parseTransf)(u, k, v).Ok? ==>
              ApplyWith(parseTransf)(u, k, v).value.Edges[dir] == u.Edges[dir]
  {
  }

  /** Each edge is named by the last line with its key, and a tile always
      has such a line for each of the four. */
  lemma TileEdgeFromKey(contents: string, data: InputFile,
                        parseTransf: string -> Option<Transform2D.Transformation>, key: string, dir: nat)
    requires EdgeKey(key, dir)
    ensures ParseTileFile(contents, data, parseTransf).Ok? ==>
              LastValue(TileKeyValues(TileLines(contents)), key)
                == Some(ParseTileFile(contents, data, parseTransf).value.Edges[dir])
  {
    var lines := TileLines(contents);
    if TileBegin(lines) < |lines| {
      var rows := TileRows(lines);
      if |rows[0]| == data.Width && |rows| == data.Height && ParsePixels(rows, |rows[0]|).Ok? {
        var px := ParsePixels(rows, |rows[0]|).value;
        ApplyTileEdge(parseTransf, key, dir);
        FoldLastField(StartTile(px), TileKeyValues(lines), ApplyWith(parseTransf), key,
                      (u: TileFile) => u.Edges[dir], Present);
      }
    }
  }

  /** The transformation a Symmetry line names, as an enum value. */
  function LineSymmetry(e: Option<Entry>, parseTransf: string -> Option<Transform2D.Transformation>): set<nat>
  {
    if e.Some? && e.value.0 == "Symmetry" && parseTransf(e.value.1).Some?
    then {Transform2D.Ordinal(parseTransf(e.value.1).value)} else {}
  }

  /** The transformations the Symmetry lines name. */
  function SymmetriesRead(entries: seq<Option<Entry>>,
                         parseTransf: string -> Option<Transform2D.Transformation>): set<nat>
  {
    if entries == [] then {}
    else
      SymmetriesRead(entries[..|entries| - 1], parseTransf) + LineSymmetry(entries[|entries| - 1], parseTransf)
  }

  lemma ApplySymmetry(u: TileFile, kv: Entry, parseTransf: string -> Option<Transform2D.Transformation>)
    ensures ApplyWith(parseTransf)(u, kv.0, kv.1).Ok? ==>
              EnumFlags.Members(ApplyWith(parseTransf)(u, kv.0, kv.1).value.Symmetries)
                == EnumFlags.Members(u.Symmetries) + LineSymmetry(Some(kv), parseTransf)
  {
    if kv.0 == "Symmetry" && parseTransf(kv.1).Some? {
      EnumFlags.AddMembers(u.Symmetries, Transform2D.Ordinal(parseTransf(kv.1).value));
    }
  }

  /** Symmetry lines add their transformation to the flags and nothing else
      changes them. */
  lemma {:induction false} FoldSymmetries(t: TileFile, entries: seq<Option<Entry>>,
                                          parseTransf: string -> Option<Transform2D.Transformation>)
    ensures Fold(t, entries, ApplyWith(parseTransf)).Ok? ==>
              EnumFlags.Members(Fold(t, entries, ApplyWith(parseTransf)).value.Symmetries)
                == EnumFlags.Members(t.Symmetries) + SymmetriesRead(entries, parseTransf)
    decreases |entries|
  {
    if entries != [] {
      var init := entries[..|entries| - 1];
      var e := entries[|entries| - 1];
      assert entries == init + [e];
      FoldAppend(t, init, [e], ApplyWith(parseTransf));
      FoldSymmetries(t, init, parseTransf);
      var mid := Fold(t, init, ApplyWith(parseTransf));
      if mid.Ok? {
        assert [e][1..] == [];
        match e
        case None =>
          assert Fold(t, entries, ApplyWith(parseTransf)) == mid;
        case Some(kv) =>
          ApplySymmetry(mid.value, kv, parseTransf);
      }
    }
  }

  /** The symmetries are exactly the transformations the Symmetry lines
      name. */
  lemma TileSymmetries(contents: string, data: InputFile,
                       parseTransf: string -> Option<Transform2D.Transformation>)
    ensures ParseTileFile(contents, data, parseTransf).Ok? ==>
              EnumFlags.Members(ParseTileFile(contents, data, parseTransf).value.Symmetries)
                == SymmetriesRead(TileKeyValues(TileLines(contents)), parseTransf)
  {
    var lines := TileLines(contents);
    if TileBegin(lines) < |lines| {
      var rows := TileRows(lines);
      if |rows[0]| == data.Width && |rows| == data.Height && ParsePixels(rows, |rows[0]|).Ok? {
        var px := ParsePixels(rows, |rows[0]|).value;
        FoldSymmetries(StartTile(px), TileKeyValues(lines), parseTransf);
        assert EnumFlags.Members(0) == {} by {
          forall v: nat | v < EnumFlags.EnumValEnd ensures !EnumFlags.MaskContains(0, v) {
          }
        }
      }
    }
  }
}
