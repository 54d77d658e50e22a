/** The output settings file of WFCtile (OutputFile.h, OutputFile.cpp): the
    output size, the clearing size, periodicity, the seed and the iteration
    limit. */
module WfcTileOutputFile {
  import opened Common
  import opened WfcTileUtils
  import opened WfcTileKeyValues

  /** OutputFile's fields. */
  datatype OutputFile = OutputFile(Width: nat, Height: nat, ClearSize: nat, NIterations: nat,
                                   Seed: nat, PeriodicX: bool, PeriodicY: bool)

  /** The largest size_t marks a size that was not given. The default
      constructor draws the seed from std::random_device; here the draw is
      the parameter. */
  function DefaultOutput(seed: nat): OutputFile
  {
    OutputFile(SIZE_MAX, SIZE_MAX, SIZE_MAX, SIZE_MAX, seed, false, false)
  }

  /** The error codes the reader reports. */
  const MISSING_OR_UNKNOWN: int := 13
  const BAD_VALUE: int := 14

  /** One step of the MATCH chain. */
  function ApplyOutput(o: OutputFile, key: string, val: string): Parsed<OutputFile>
  {
    if key == "Width" then
      match ParseSize(val) case Some(n) => Ok(o.(Width := n)) case None => Failed(BAD_VALUE)
    else if key == "Height" then
      match ParseSize(val) case Some(n) => Ok(o.(Height := n)) case None => Failed(BAD_VALUE)
    else if key == "ClearSize" then
      match ParseSize(val) case Some(n) => Ok(o.(ClearSize := n)) case None => Failed(BAD_VALUE)
    else if key == "PeriodicX" then
      match ParseBool(val) case Some(b) => Ok(o.(PeriodicX := b)) case None => Failed(BAD_VALUE)
    else if key == "PeriodicY" then
      match ParseBool(val) case Some(b) => Ok(o.(PeriodicY := b)) case None => Failed(BAD_VALUE)
    else if key == "Seed" then
      match ParseSize(val) case Some(n) => Ok(o.(Seed := n)) case None => Failed(BAD_VALUE)
    else if key == "GiveUpAfter" then
      match ParseSize(val) case Some(n) => Ok(o.(NIterations := n)) case None => Failed(BAD_VALUE)
    else Failed(MISSING_OR_UNKNOWN)
  }

  /** The checks after the last line: Width, Height and ClearSize must have
      been given. */
  function CheckOutput(o: OutputFile): Parsed<OutputFile>
  {
    if o.Width == SIZE_MAX then Failed(MISSING_OR_UNKNOWN)
    else if o.Height == SIZE_MAX then Failed(MISSING_OR_UNKNOWN)
    else if o.ClearSize == SIZE_MAX then Failed(MISSING_OR_UNKNOWN)
    else Ok(o)
  }

  function OutputEntries(contents: string): seq<Option<Entry>>
  {
    SettingsEntries(Pieces(contents, '\n'))
  }

  /** What the constructor leaves in outErrCode and its fields. */
  function ParseOutputFile(contents: string, seed: nat): Parsed<OutputFile>
  {
    match Fold(DefaultOutput(seed), OutputEntries(contents), ApplyOutput)
    case Failed(c) => Failed(c)
    case Ok(o) => CheckOutput(o)
  }

  /** The OutputFile constructor: reads the text line by line and returns at
      the first error. */
  method ReadOutputFile(inputFileContents: string, seed: nat) returns (r: Parsed<OutputFile>)
    ensures r == ParseOutputFile(inputFileContents, seed)
  {
    ghost var total := Fold(DefaultOutput(seed), OutputEntries(inputFileContents), ApplyOutput);
    var o := DefaultOutput(seed);
    var fileStream := inputFileContents;
    while fileStream != []
      invariant Fold(o, SettingsEntries(Pieces(fileStream, '\n')), ApplyOutput) == total
      decreases |fileStream|
    {
      var (line0, rest) := NextLine(fileStream, '\n');
      SettingsStep(fileStream);
      fileStream := rest;
      var line := TrimSpaceAndComments(line0, "//");
      if |line| == 0 {
        continue;
      }
      var (key, val) := SplitFirst(line, ':');
      var next := ApplyOutput(o, key, val);
      if next.Failed? {
        return next;
      }
      o := next.value;
    }
    r := CheckOutput(o);
  }

  /** Every failure is code 13 or 14, and a success has all three sizes. */
  lemma OutputOutcome(contents: string, seed: nat)
    ensures ParseOutputFile(contents, seed).Failed? ==>
              ParseOutputFile(contents, seed).code in {MISSING_OR_UNKNOWN, BAD_VALUE}
    ensures ParseOutputFile(contents, seed).Ok? ==>
              var o := ParseOutputFile(contents, seed).value;
              o.Width < SIZE_MAX && o.Height < SIZE_MAX && o.ClearSize < SIZE_MAX
  {
    var folded := Fold(DefaultOutput(seed), OutputEntries(contents), ApplyOutput);
    ApplyOutputCodes();
    FoldFailure(DefaultOutput(seed), OutputEntries(contents), ApplyOutput, {MISSING_OR_UNKNOWN, BAD_VALUE});
    assert folded.Failed? ==> folded.code in {MISSING_OR_UNKNOWN, BAD_VALUE};
    if folded.Ok? {
      SizesBoundedKept();
      FoldKeeps(DefaultOutput(seed), OutputEntries(contents), ApplyOutput, SizesBounded);
      assert ParseOutputFile(contents, seed) == CheckOutput(folded.value);
    } else {
      assert ParseOutputFile(contents, seed) == Failed(folded.code);
    }
  }

  /** No size read from the file exceeds the largest size_t. */
  predicate SizesBounded(o: OutputFile)
  {
    o.Width <= SIZE_MAX && o.Height <= SIZE_MAX && o.ClearSize <= SIZE_MAX
  }

  lemma SizesBoundedKept()
    ensures forall kv: Entry :: EntryKeeps(ApplyOutput, SizesBounded, kv)
  {
  }

  lemma ApplyOutputCodes()
    ensures forall u, k, v :: ApplyOutput(u, k, v).Failed? ==>
              ApplyOutput(u, k, v).code in {MISSING_OR_UNKNOWN, BAD_VALUE}
  {
  }

  /** Only a Width line changes the width, and it sets the number it reads. */
  lemma ApplyOutputWidth()
    ensures forall u, v :: ApplyOutput(u, "Width", v).Ok? ==>
              ParseSize(v).Some? && GetWidth(ApplyOutput(u, "Width", v).value) == ParseSize(v).value
    ensures forall u, k, v :: k != "Width" && ApplyOutput(u, k, v).Ok? ==>
              GetWidth(ApplyOutput(u, k, v).value) == GetWidth(u)
  {
  }

  /** Only a Seed line changes the seed, and it sets the number it reads. */
  lemma ApplyOutputSeed()
    ensures forall u, v :: ApplyOutput(u, "Seed", v).Ok? ==>
              ParseSize(v).Some? && GetSeed(ApplyOutput(u, "Seed", v).value) == ParseSize(v).value
    ensures forall u, k, v :: k != "Seed" && ApplyOutput(u, k, v).Ok? ==>
              GetSeed(ApplyOutput(u, k, v).value) == GetSeed(u)
  {
  }

  function GetWidth(o: OutputFile): nat { o.Width }
  function GetSeed(o: OutputFile): nat { o.Seed }

  /** Without a Width line the reading fails, with code 13 unless an
      earlier line already failed. */
  lemma OutputNeedsWidth(contents: string, seed: nat)
    requires KeyAbsent(OutputEntries(contents), "Width")
    ensures ParseOutputFile(contents, seed).Failed?
    ensures Fold(DefaultOutput(seed), OutputEntries(contents), ApplyOutput).Ok? ==>
              ParseOutputFile(contents, seed) == Failed(MISSING_OR_UNKNOWN)
  {
    ApplyOutputWidth();
    FoldLastField(DefaultOutput(seed), OutputEntries(contents), ApplyOutput, "Width", GetWidth, ParseSize);
  }

  /** A Width line whose number reaches the largest size_t (strtoull
      saturates there) reads as a missing width. */
  lemma OutputHugeWidthIsMissing(contents: string, seed: nat)
    requires LastValue(OutputEntries(contents), "Width").Some?
    requires var v := LastValue(OutputEntries(contents), "Width").value;
             AllDigits(v) && v != [] && DecimalValue(v) >= SIZE_MAX
    ensures ParseOutputFile(contents, seed).Failed?
  {
    ApplyOutputWidth();
    FoldLastField(DefaultOutput(seed), OutputEntries(contents), ApplyOutput, "Width", GetWidth, ParseSize);
  }

  /** The seed drawn by the default constructor stays unless a Seed line
      replaces it. */
  lemma OutputSeed(contents: string, seed: nat)
    ensures ParseOutputFile(contents, seed).Ok? && KeyAbsent(OutputEntries(contents), "Seed") ==>
              ParseOutputFile(contents, seed).value.Seed == seed
    ensures ParseOutputFile(contents, seed).Ok? && !KeyAbsent(OutputEntries(contents), "Seed") ==>
              ParseSize(LastValue(OutputEntries(contents), "Seed").value)
                == Some(ParseOutputFile(contents, seed).value.Seed)
  {
    ApplyOutputSeed();
    FoldLastField(DefaultOutput(seed), OutputEntries(contents), ApplyOutput, "Seed", GetSeed, ParseSize);
  }

  /** An unknown key fails with 13 and a bad value for a known key with 14. */
  lemma ApplyOutputErrors(o: OutputFile, key: string, val: string)
    ensures ApplyOutput(o, key, val) == Failed(MISSING_OR_UNKNOWN) <==>
              key !in {"Width", "Height", "ClearSize", "PeriodicX", "PeriodicY", "Seed", "GiveUpAfter"}
    ensures ApplyOutput(o, key, val) == Failed(BAD_VALUE) <==>
              (key in {"Width", "Height", "ClearSize", "Seed", "GiveUpAfter"} && ParseSize(val).None?) ||
              (key in {"PeriodicX", "PeriodicY"} && ParseBool(val).None?)
  {
  }
}
