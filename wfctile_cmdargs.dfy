/** WFCtile's command line (CmdArgs.h, CmdArgs.cpp): the data directory,
    the progress interval and the PGM output switch. */
module WfcTileCmdArgs {
  import opened Common
  import opened WfcTileUtils

  /** The parsed arguments; the directory is kept as the argument's text. */
  datatype CmdArgs = CmdArgs(DataDir: string, ProgressInterval: nat, PgmMode: bool)

  /** Every command-line error has this code. */
  const BAD_ARGUMENT: int := 7

  /** The arguments after the ones already read, applied to what they have
      built so far. */
  function ArgsFrom(c: CmdArgs, rest: seq<string>): Parsed<CmdArgs>
    decreases |rest|
  {
    if rest == [] then Ok(c)
    else if rest[0] == "-dir" then
      if |rest| < 2 then Failed(BAD_ARGUMENT)
      else ArgsFrom(c.(DataDir := rest[1]), rest[2..])
    else if rest[0] == "-progress" then
      if |rest| < 2 then Failed(BAD_ARGUMENT)
      else match ParseSize(rest[1])
        case None => Failed(BAD_ARGUMENT)
        case Some(n) => ArgsFrom(c.(ProgressInterval := n), rest[2..])
    else if rest[0] == "-pgm" then ArgsFrom(c.(PgmMode := true), rest[1..])
    else Failed(BAD_ARGUMENT)
  }

  /** The constructor's outcome: argData[0] is the starting directory, the
      other arguments are options. */
  function ParseCmdArgs(args: seq<string>): Parsed<CmdArgs>
    requires |args| >= 1
  {
    ArgsFrom(CmdArgs(args[0], 0, false), args[1..])
  }

  /** The constructor's loop over argData. */
  method ReadCmdArgs(argData: seq<string>) returns (r: Parsed<CmdArgs>)
    requires |argData| >= 1
    ensures r == ParseCmdArgs(argData)
  {
    var c := CmdArgs(argData[0], 0, false);
    var nArgs := |argData|;
    var i := 1;
    while i < nArgs
      invariant 1 <= i <= nArgs
      invariant ArgsFrom(c, argData[i..]) == ParseCmdArgs(argData)
      decreases nArgs - i
    {
      assert argData[i..][0] == argData[i];
      if argData[i] == "-dir" {
        if i >= nArgs - 1 {
          return Failed(BAD_ARGUMENT);
        }
        assert argData[i..][2..] == argData[i + 2..];
        i := i + 1;
        c := c.(DataDir := argData[i]);
      } else if argData[i] == "-progress" {
        if i >= nArgs - 1 {
          return Failed(BAD_ARGUMENT);
        }
        assert argData[i..][2..] == argData[i + 2..];
        i := i + 1;
        var progressStr := argData[i];
        var parsed := ParseSize(progressStr);
        if parsed.None? {
          return Failed(BAD_ARGUMENT);
        }
        c := c.(ProgressInterval := parsed.value);
      } else if argData[i] == "-pgm" {
        assert argData[i..][1..] == argData[i + 1..];
        c := c.(PgmMode := true);
      } else {
        return Failed(BAD_ARGUMENT);
      }
      i := i + 1;
    }
    r := Ok(c);
  }

  /** Every failure has code 7, and the progress interval of a success
      fits in a size_t. */
  lemma {:induction false} ArgsOutcome(c: CmdArgs, rest: seq<string>)
    requires c.ProgressInterval <= SIZE_MAX
    ensures ArgsFrom(c, rest).Failed? ==> ArgsFrom(c, rest).code == BAD_ARGUMENT
    ensures ArgsFrom(c, rest).Ok? ==> ArgsFrom(c, rest).value.ProgressInterval <= SIZE_MAX
    decreases |rest|
  {
    if rest != [] {
      if rest[0] == "-dir" && |rest| >= 2 {
        ArgsOutcome(c.(DataDir := rest[1]), rest[2..]);
      } else if rest[0] == "-progress" && |rest| >= 2 && ParseSize(rest[1]).Some? {
        ArgsOutcome(c.(ProgressInterval := ParseSize(rest[1]).value), rest[2..]);
      } else if rest[0] == "-pgm" {
        ArgsOutcome(c.(PgmMode := true), rest[1..]);
      }
    }
  }

  /** The directory is the starting one or the argument after some -dir. */
  lemma {:induction false} ArgsDataDir(c: CmdArgs, rest: seq<string>)
    ensures ArgsFrom(c, rest).Ok? ==>
              ArgsFrom(c, rest).value.DataDir == c.DataDir ||
              exists i :: 0 <= i < |rest| - 1 && rest[i] == "-dir" && rest[i + 1] == ArgsFrom(c, rest).value.DataDir
    decreases |rest|
  {
    if rest != [] && ArgsFrom(c, rest).Ok? {
      var d := ArgsFrom(c, rest).value.DataDir;
      if rest[0] == "-dir" {
        ArgsDataDir(c.(DataDir := rest[1]), rest[2..]);
        if d != rest[1] {
          var i :| 0 <= i < |rest[2..]| - 1 && rest[2..][i] == "-dir" && rest[2..][i + 1] == d;
          assert rest[i + 2] == "-dir" && rest[i + 3] == d;
        }
      } else if rest[0] == "-progress" {
        ArgsDataDir(c.(ProgressInterval := ParseSize(rest[1]).value), rest[2..]);
        if d != c.DataDir {
          var i :| 0 <= i < |rest[2..]| - 1 && rest[2..][i] == "-dir" && rest[2..][i + 1] == d;
          assert rest[i + 2] == "-dir" && rest[i + 3] == d;
        }
      } else {
        ArgsDataDir(c.(PgmMode := true), rest[1..]);
        if d != c.DataDir {
          var i :| 0 <= i < |rest[1..]| - 1 && rest[1..][i] == "-dir" && rest[1..][i + 1] == d;
          assert rest[i + 1] == "-dir" && rest[i + 2] == d;
        }
      }
    }
  }

  /** PGM mode is on only when it was on already or the arguments hold -pgm. */
  lemma {:induction false} ArgsPgmMode(c: CmdArgs, rest: seq<string>)
    ensures ArgsFrom(c, rest).Ok? && ArgsFrom(c, rest).value.PgmMode ==> c.PgmMode || "-pgm" in rest
    decreases |rest|
  {
    if rest != [] && ArgsFrom(c, rest).Ok? {
      if rest[0] == "-dir" {
        ArgsPgmMode(c.(DataDir := rest[1]), rest[2..]);
        assert "-pgm" in rest[2..] ==> "-pgm" in rest;
      } else if rest[0] == "-progress" {
        ArgsPgmMode(c.(ProgressInterval := ParseSize(rest[1]).value), rest[2..]);
        assert "-pgm" in rest[2..] ==> "-pgm" in rest;
      }
    }
  }

  /** The command line that asks for the given settings. */
  function Render(c: CmdArgs): seq<string>
  {
    ["-dir", c.DataDir, "-progress", Decimal(c.ProgressInterval)] + (if c.PgmMode then ["-pgm"] else [])
  }

  /** Reading the rendered command line gives the settings back, whatever
      the program name in argData[0]. */
  lemma ParseRender(program: string, c: CmdArgs)
    requires c.ProgressInterval <= SIZE_MAX
    ensures ParseCmdArgs([program] + Render(c)) == Ok(c)
  {
    var args := [program] + Render(c);
    var rest := args[1..];
    assert rest == Render(c);
    ParseSizeOfDecimal(c.ProgressInterval);
    var c1 := CmdArgs(program, 0, false).(DataDir := c.DataDir);
    assert rest[2..][2..] == (if c.PgmMode then ["-pgm"] else []);
    var c2 := c1.(ProgressInterval := c.ProgressInterval);
    assert rest[0] == "-dir" && rest[1] == c.DataDir;
    assert ArgsFrom(CmdArgs(program, 0, false), rest) == ArgsFrom(c1, rest[2..]);
    assert rest[2..][0] == "-progress" && rest[2..][1] == Decimal(c.ProgressInterval);
    assert ArgsFrom(c1, rest[2..]) == ArgsFrom(c2, rest[2..][2..]);
    if c.PgmMode {
      assert rest[2..][2..][1..] == [];
      assert ArgsFrom(c2, rest[2..][2..]) == Ok(c);
    } else {
      assert rest[2..][2..] == [];
      assert ArgsFrom(c2, rest[2..][2..]) == Ok(c2);
      assert c2 == c;
    }
  }
}
