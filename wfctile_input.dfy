/** The tile-set settings file of WFCtile (InputFile.h, InputFile.cpp):
    the tile size and whether rotations and reflections are used. */
module WfcTileInputFile {
  import opened Common
  import opened WfcTileUtils
  import opened WfcTileKeyValues

  /** InputFile's fields. */
  datatype InputFile = InputFile(Width: nat, Height: nat, UseRotations: bool, UseReflections: bool)

  /** Width and Height start at the largest size_t; the flags start off. */
  const DEFAULT_INPUT := InputFile(SIZE_MAX, SIZE_MAX, false, false)

  /** The error codes the reader reports. */
  const UNKNOWN_FIELD: int := 16
  const BAD_VALUE: int := 17

  /** One step of the MATCH chain: the key picks the field, and a value that
      does not parse is an error. */
  function ApplyInput(f: InputFile, key: string, val: string): Parsed<InputFile>
  {
    if key == "Width" then
      match ParseSize(val)
      case Some(w) => Ok(f.(Width := w))
      case None => Failed(BAD_VALUE)
    else if key == "Height" then
      match ParseSize(val)
      case Some(h) => Ok(f.(Height := h))
      case None => Failed(BAD_VALUE)
    else if key == "UseRotations" then
      match ParseBool(val)
      case Some(b) => Ok(f.(UseRotations := b))
      case None => Failed(BAD_VALUE)
    else if key == "UseReflections" then
      match ParseBool(val)
      case Some(b) => Ok(f.(UseReflections := b))
      case None => Failed(BAD_VALUE)
    else Failed(UNKNOWN_FIELD)
  }

  /** The field checks after the last line. */
  function CheckInput(f: InputFile): Parsed<InputFile>
  {
    if f.Width < 1 then Failed(BAD_VALUE)
    else if f.Height < 1 then Failed(BAD_VALUE)
    else Ok(f)
  }

  /** What the constructor leaves in outErrCode and its fields. */
  function ParseInputFile(contents: string): Parsed<InputFile>
  {
    match Fold(DEFAULT_INPUT, SettingsEntries(Pieces(contents, '\n')), ApplyInput)
    case Failed(c) => Failed(c)
    case Ok(f) => CheckInput(f)
  }

  /** The InputFile constructor: reads the text line by line and returns at
      the first error. */
  method ReadInputFile(inputFileContents: string) returns (r: Parsed<InputFile>)
    ensures r == ParseInputFile(inputFileContents)
  {
    ghost var total := Fold(DEFAULT_INPUT, SettingsEntries(Pieces(inputFileContents, '\n')), ApplyInput);
    var f := DEFAULT_INPUT;
    var fileStream := inputFileContents;
    while fileStream != []
      invariant Fold(f, SettingsEntries(Pieces(fileStream, '\n')), ApplyInput) == total
      decreases |fileStream|
    {
      var (line0, rest) := NextLine(fileStream, '\n');
      SettingsStep(fileStream);
      fileStream := rest;
      var line := TrimSpaceAndComments(line0, "//");
      if |line| == 0 {
        continue;
      }
      var (key, val) := SplitFirst(line, ':');
      var next := ApplyInput(f, key, val);
      if next.Failed? {
        return next;
      }
      f := next.value;
    }
    r := CheckInput(f);
  }

  /** Every failure is an unknown key or a bad value, and a success has a
      width and a height of at least one. */
  lemma InputOutcome(contents: string)
    ensures ParseInputFile(contents).Failed? ==> ParseInputFile(contents).code in {UNKNOWN_FIELD, BAD_VALUE}
    ensures ParseInputFile(contents).Ok? ==>
              ParseInputFile(contents).value.Width >= 1 && ParseInputFile(contents).value.Height >= 1
  {
    FoldFailure(DEFAULT_INPUT, SettingsEntries(Pieces(contents, '\n')), ApplyInput, {UNKNOWN_FIELD, BAD_VALUE});
  }

  /** A text of blank and comment lines gives the defaults. */
  lemma InputOfBlankText(contents: string)
    requires forall k :: 0 <= k < |Pieces(contents, '\n')| ==> CleanLine(Pieces(contents, '\n')[k], "//") == []
    ensures ParseInputFile(contents) == Ok(DEFAULT_INPUT)
  {
    FoldAllBlank(DEFAULT_INPUT, SettingsEntries(Pieces(contents, '\n')), ApplyInput);
  }

  function GetWidth(f: InputFile): nat { f.Width }

  /** The width is the number on the last Width line, or the default when
      there is none. */
  lemma InputWidthIsLastWidth(contents: string)
    ensures ParseInputFile(contents).Ok? && LastValue(SettingsEntries(Pieces(contents, '\n')), "Width").None? ==>
              ParseInputFile(contents).value.Width == SIZE_MAX
    ensures ParseInputFile(contents).Ok? && LastValue(SettingsEntries(Pieces(contents, '\n')), "Width").Some? ==>
              ParseSize(LastValue(SettingsEntries(Pieces(contents, '\n')), "Width").value)
                == Some(ParseInputFile(contents).value.Width)
  {
    FoldLastField(DEFAULT_INPUT, SettingsEntries(Pieces(contents, '\n')), ApplyInput, "Width", GetWidth, ParseSize);
  }

  /** A key outside the four fields fails with code 16, and a value that does
      not parse for a known key with code 17. */
  lemma ApplyInputErrors(f: InputFile, key: string, val: string)
    ensures ApplyInput(f, key, val) == Failed(UNKNOWN_FIELD) <==>
              key !in {"Width", "Height", "UseRotations", "UseReflections"}
    ensures ApplyInput(f, key, val) == Failed(BAD_VALUE) <==>
              (key in {"Width", "Height"} && ParseSize(val).None?) ||
              (key in {"UseRotations", "UseReflections"} && ParseBool(val).None?)
  {
  }
}
