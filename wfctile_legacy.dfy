/** The older single-file form of WFCtile (main.cpp): its error messages,
    its command line, the edge-name files SYMMETRIC.txt and ASYMMETRIC.txt,
    and its tile-file reader. The text helpers it repeats (trimming, line
    reading, splitting) are the ones of WfcTileUtils. */
module WfcTileLegacy {
  import opened Common
  import opened WfcTileUtils
  import opened WfcTileKeyValues
  import opened WfcTileTileFile
  import WfcTileCmdArgs

  // ---------------------------------------------------------------------
  // Error messages (main.cpp:158-177)

  const UNKNOWN_PREFIX: string := "UNKNOWN ERROR CODE "

  /** The messages of codes 0 to 12, in code order. */
  const MESSAGES: seq<string> := [
    "Success (no error)",
    "Tile needs at least one row",
    "Tile data has different " + "lengths in each row",
    "Needs to specify all four " + "edge IDs",
    "At least one of the edge IDs " + "is unknown (did you make a " + "typo?)",
    "Unexpected field; did you " + "mean to comment a line out?",
    "'Weight' field doesn't have " + "a number value",
    "Invalid command-line arguments",
    "Edge's name is defined in " + "more than one place",
    "Can't find SYMMETRIC.txt " + "and/or ASYMMETRIC.txt",
    "No tile data files were found",
    "I/O error when opening file",
    "Tile grid data contains an " + "invalid value (must be " + "non-negative integer)"
  ]

  /** The message for each error code the program returns. */
  function ErrCodeToMsg(i: int): string
  {
    if 0 <= i < |MESSAGES| then MESSAGES[i] else UNKNOWN_PREFIX + SignedDecimal(i)
  }

  predicate StartsWith(s: string, prefix: string)
  {
    |prefix| <= |s| && s[..|prefix|] == prefix
  }

  /** Each known message's length and first letter, which tell it apart. */
  function Signature(m: string): (int, char)
  {
    if m == [] then (0, ' ') else (|m|, m[0])
  }

  const SIGNATURES: seq<(int, char)> :=
    [(18, 'S'), (27, 'T'), (43, 'T'), (34, 'N'), (62, 'A'), (53, 'U'), (42, '\''),
     (30, 'I'), (45, 'E'), (46, 'C'), (29, 'N'), (27, 'I'), (71, 'T')]

  lemma KnownSignatures()
    ensures forall k :: 0 <= k < |MESSAGES| ==> Signature(MESSAGES[k]) == SIGNATURES[k]
    ensures forall a, b :: 0 <= a < |SIGNATURES| && 0 <= b < |SIGNATURES| && a != b ==> SIGNATURES[a] != SIGNATURES[b]
  {
    forall k | 0 <= k < |MESSAGES| ensures Signature(MESSAGES[k]) == SIGNATURES[k] {
      if k == 0 {
        assert MESSAGES[0] == "Success (no error)";
        assert Signature(MESSAGES[0]) == SIGNATURES[0];
      } else if k == 1 {
        assert MESSAGES[1] == "Tile needs at least one row";
        assert Signature(MESSAGES[1]) == SIGNATURES[1];
      } else if k == 2 {
        assert MESSAGES[2] == "Tile data has different " + "lengths in each row";
        assert Signature(MESSAGES[2]) == SIGNATURES[2];
      } else if k == 3 {
        assert MESSAGES[3] == "Needs to specify all four " + "edge IDs";
        assert Signature(MESSAGES[3]) == SIGNATURES[3];
      } else if k == 4 {
        assert MESSAGES[4] == "At least one of the edge IDs " + "is unknown (did you make a " + "typo?)";
        assert Signature(MESSAGES[4]) == SIGNATURES[4];
      } else if k == 5 {
        assert MESSAGES[5] == "Unexpected field; did you " + "mean to comment a line out?";
        assert Signature(MESSAGES[5]) == SIGNATURES[5];
      } else if k == 6 {
        assert MESSAGES[6] == "'Weight' field doesn't have " + "a number value";
        assert Signature(MESSAGES[6]) == SIGNATURES[6];
      } else if k == 7 {
        assert MESSAGES[7] == "Invalid command-line arguments";
        assert Signature(MESSAGES[7]) == SIGNATURES[7];
      } else if k == 8 {
        assert MESSAGES[8] == "Edge's name is defined in " + "more than one place";
        assert Signature(MESSAGES[8]) == SIGNATURES[8];
      } else if k == 9 {
        assert MESSAGES[9] == "Can't find SYMMETRIC.txt " + "and/or ASYMMETRIC.txt";
        assert Signature(MESSAGES[9]) == SIGNATURES[9];
      } else if k == 10 {
        assert MESSAGES[10] == "No tile data files were found";
        assert Signature(MESSAGES[10]) == SIGNATURES[10];
      } else if k == 11 {
        assert MESSAGES[11] == "I/O error when opening file";
        assert Signature(MESSAGES[11]) == SIGNATURES[11];
      } else if k == 12 {
        assert MESSAGES[12] == "Tile grid data contains an " + "invalid value (must be " + "non-negative integer)";
        assert Signature(MESSAGES[12]) == SIGNATURES[12];
      }
    }
  }

  /** A known message never starts with the unknown code's prefix. */
  lemma KnownNotUnknown(k: int)
    requires 0 <= k < |MESSAGES|
    ensures !StartsWith(MESSAGES[k], UNKNOWN_PREFIX)
  {
    KnownSignatures();
    var m := MESSAGES[k];
    if k == 5 {
      assert MESSAGES[5] == "Unexpected field; did you " + "mean to comment a line out?";
      assert m[1] == 'n';
    } else {
      assert Signature(m) == SIGNATURES[k];
      assert m[0] != 'U';
    }
    assert UNKNOWN_PREFIX[0] == 'U' && UNKNOWN_PREFIX[1] == 'N';
    assert |UNKNOWN_PREFIX| <= |m| ==> m[..|UNKNOWN_PREFIX|][0] == m[0] && m[..|UNKNOWN_PREFIX|][1] == m[1];
  }

  /** Only codes outside 0..12 get the "unknown" message. */
  lemma ErrCodeUnknown(i: int)
    ensures StartsWith(ErrCodeToMsg(i), UNKNOWN_PREFIX) <==> i < 0 || i > 12
  {
    if 0 <= i <= 12 {
      KnownNotUnknown(i);
    } else {
      assert (UNKNOWN_PREFIX + SignedDecimal(i))[..|UNKNOWN_PREFIX|] == UNKNOWN_PREFIX;
    }
  }

  /** No two codes share a message, so the message tells the code. */
  lemma ErrCodeToMsgInjective(i: int, j: int)
    requires ErrCodeToMsg(i) == ErrCodeToMsg(j)
    ensures i == j
  {
    ErrCodeUnknown(i);
    ErrCodeUnknown(j);
    if i < 0 || i > 12 {
      assert SignedDecimal(i) == ErrCodeToMsg(i)[|UNKNOWN_PREFIX|..];
      assert SignedDecimal(j) == ErrCodeToMsg(j)[|UNKNOWN_PREFIX|..];
      SignedDecimalInjective(i, j);
    } else {
      KnownSignatures();
    }
  }

  // ---------------------------------------------------------------------
  // The command line (main.cpp:181-214): only -dir

  /** The arguments after the ones already read; the result is DataDir. */
  function LegacyArgsFrom(dataDir: string, rest: seq<string>): Parsed<string>
    decreases |rest|
  {
    if rest == [] then Ok(dataDir)
    else if rest[0] == "-dir" then
      if |rest| < 2 then Failed(WfcTileCmdArgs.BAD_ARGUMENT)
      else LegacyArgsFrom(rest[1], rest[2..])
    else Failed(WfcTileCmdArgs.BAD_ARGUMENT)
  }

  function ParseLegacyCmdArgs(args: seq<string>): Parsed<string>
    requires |args| >= 1
  {
    LegacyArgsFrom(args[0], args[1..])
  }

  /** The constructor's loop over argData. */
  method ReadLegacyCmdArgs(argData: seq<string>) returns (r: Parsed<string>)
    requires |argData| >= 1
    ensures r == ParseLegacyCmdArgs(argData)
  {
    var dataDir := argData[0];
    var nArgs := |argData|;
    var i := 1;
    while i < nArgs
      invariant 1 <= i <= nArgs
      invariant LegacyArgsFrom(dataDir, argData[i..]) == ParseLegacyCmdArgs(argData)
      decreases nArgs - i
    {
      assert argData[i..][0] == argData[i];
      if argData[i] == "-dir" {
        if i >= nArgs - 1 {
          return Failed(WfcTileCmdArgs.BAD_ARGUMENT);
        }
        assert argData[i..][2..] == argData[i + 2..];
        i := i + 1;
        dataDir := argData[i];
      } else {
        return Failed(WfcTileCmdArgs.BAD_ARGUMENT);
      }
      i := i + 1;
    }
    r := Ok(dataDir);
  }

  /** The old command line reads like the new one restricted to -dir: where
      it succeeds, the new reader gives the same directory, progress 0 and
      no PGM output, and it fails with the same code 7. */
  lemma {:induction false} LegacyArgsAgree(dataDir: string, rest: seq<string>)
    ensures LegacyArgsFrom(dataDir, rest).Ok? ==>
              WfcTileCmdArgs.ArgsFrom(WfcTileCmdArgs.CmdArgs(dataDir, 0, false), rest)
                == Ok(WfcTileCmdArgs.CmdArgs(LegacyArgsFrom(dataDir, rest).value, 0, false))
    ensures LegacyArgsFrom(dataDir, rest).Failed? ==> LegacyArgsFrom(dataDir, rest).code == WfcTileCmdArgs.BAD_ARGUMENT
    decreases |rest|
  {
    if rest != [] && rest[0] == "-dir" && |rest| >= 2 {
      LegacyArgsAgree(rest[1], rest[2..]);
    }
  }

  // ---------------------------------------------------------------------
  // SYMMETRIC.txt and ASYMMETRIC.txt (main.cpp:216-294)

  /** TilesetData's fields. */
  datatype TilesetData = TilesetData(EdgeIDsByName: map<string, nat>, SymmetricEdges: set<string>,
                                     AsymmetricEdges: map<string, string>)

  /** The fields while the files are read, with the next ID to give out;
      usedEdges is the key set of EdgeIDsByName. */
  datatype Reading = Reading(data: TilesetData, nextEdge: nat)

  const REPEATED_EDGE: int := 8

  /** A line is skipped when its trimmed text starts with "//"; shorter
      lines, the empty one included, are never skipped. */
  predicate IsCommentLine(line: string)
  {
    StartsWith(line, "//")
  }

  /** A new name gets the next ID; a name seen before in either file fails. */
  function AddEdgeName(r: Reading, e: string): Parsed<Reading>
  {
    if e in r.data.EdgeIDsByName then Failed(REPEATED_EDGE)
    else Ok(Reading(r.data.(EdgeIDsByName := r.data.EdgeIDsByName[e := r.nextEdge]), r.nextEdge + 1))
  }

  /** A line of SYMMETRIC.txt: one edge name. */
  function SymmetricLine(r: Reading, line: string): Parsed<Reading>
  {
    match AddEdgeName(r, line)
    case Failed(c) => Failed(c)
    case Ok(r1) => Ok(r1.(data := r1.data.(SymmetricEdges := r1.data.SymmetricEdges + {line})))
  }

  /** One pass of the loop over an asymmetric line's two names. */
  function AsymmetricHalf(r: Reading, e: string, other: string): Parsed<Reading>
  {
    match AddEdgeName(r, e)
    case Failed(c) => Failed(c)
    case Ok(r1) => Ok(r1.(data := r1.data.(AsymmetricEdges := r1.data.AsymmetricEdges[e := other])))
  }

  /** A line of ASYMMETRIC.txt: "a:b" names two edges that fit each other. */
  function AsymmetricLine(r: Reading, line: string): Parsed<Reading>
  {
    var (a, b) := SplitFirst(line, ':');
    match AsymmetricHalf(r, a, b)
    case Failed(c) => Failed(c)
    case Ok(r1) => AsymmetricHalf(r1, b, a)
  }

  /** The lines of one file in order, trimmed, comments skipped. */
  function ReadLines(r: Reading, lines: seq<string>, step: (Reading, string) -> Parsed<Reading>): Parsed<Reading>
    decreases |lines|
  {
    if lines == [] then Ok(r)
    else
      var line := Trimmed(lines[0]);
      if IsCommentLine(line) then ReadLines(r, lines[1..], step)
      else match step(r, line)
        case Failed(c) => Failed(c)
        case Ok(r1) => ReadLines(r1, lines[1..], step)
  }

  const START := Reading(TilesetData(map[], {}, map[]), 0)

  /** What the constructor leaves in outErrCode and its fields. */
  function ParseTileset(symmetricFileContents: string, asymmetricFileContents: string): Parsed<TilesetData>
  {
    match ReadLines(START, Pieces(symmetricFileContents, '\n'), SymmetricLine)
    case Failed(c) => Failed(c)
    case Ok(r) =>
      match ReadLines(r, Pieces(asymmetricFileContents, '\n'), AsymmetricLine)
      case Failed(c) => Failed(c)
      case Ok(r2) => Ok(r2.data)
  }

  /** Reading a file's lines: its first line, then the rest. */
  lemma ReadLinesStep(r: Reading, unread: string, line0: string, rest: string,
                      step: (Reading, string) -> Parsed<Reading>)
    requires unread != [] && (line0, rest) == NextLine(unread, '\n')
    ensures IsCommentLine(Trimmed(line0)) ==>
              ReadLines(r, Pieces(unread, '\n'), step) == ReadLines(r, Pieces(rest, '\n'), step)
    ensures !IsCommentLine(Trimmed(line0)) && step(r, Trimmed(line0)).Failed? ==>
              ReadLines(r, Pieces(unread, '\n'), step) == Failed(step(r, Trimmed(line0)).code)
    ensures !IsCommentLine(Trimmed(line0)) && step(r, Trimmed(line0)).Ok? ==>
              ReadLines(r, Pieces(unread, '\n'), step) == ReadLines(step(r, Trimmed(line0)).value, Pieces(rest, '\n'), step)
  {
    assert Pieces(unread, '\n') == [line0] + Pieces(rest, '\n');
    assert Pieces(unread, '\n')[1..] == Pieces(rest, '\n');
  }

  /** The loop over one asymmetric line's two names. */
  method ReadAsymmetricLine(r0: Reading, usedEdges0: set<string>, line: string)
    returns (r: Parsed<Reading>, usedEdges: set<string>)
    requires usedEdges0 == r0.data.EdgeIDsByName.Keys
    ensures r == AsymmetricLine(r0, line)
    ensures r.Ok? ==> usedEdges == r.value.data.EdgeIDsByName.Keys
  {
    var (e0, e1) := SplitFirst(line, ':');
    var edges := [e0, e1];
    var ids := r0.data.EdgeIDsByName;
    var asym := r0.data.AsymmetricEdges;
    var nextEdge := r0.nextEdge;
    usedEdges := usedEdges0;
    for i := 0 to 2
      invariant usedEdges == ids.Keys
      invariant i == 0 ==> Reading(r0.data.(EdgeIDsByName := ids, AsymmetricEdges := asym), nextEdge) == r0
      invariant i == 1 ==> AsymmetricHalf(r0, e0, e1)
                             == Ok(Reading(r0.data.(EdgeIDsByName := ids, AsymmetricEdges := asym), nextEdge))
      invariant i == 2 ==> AsymmetricLine(r0, line)
                             == Ok(Reading(r0.data.(EdgeIDsByName := ids, AsymmetricEdges := asym), nextEdge))
    {
      var otherI := (i + 1) % 2;
      if edges[i] in usedEdges {
        return Failed(REPEATED_EDGE), usedEdges;
      }
      ids := ids[edges[i] := nextEdge];
      nextEdge := nextEdge + 1;
      usedEdges := usedEdges + {edges[i]};
      asym := asym[edges[i] := edges[otherI]];
    }
    r := Ok(Reading(r0.data.(EdgeIDsByName := ids, AsymmetricEdges := asym), nextEdge));
  }

  /** The loop over SYMMETRIC.txt. */
  method ReadSymmetricFile(fileContents0: string) returns (r: Parsed<Reading>, usedEdges: set<string>)
    ensures r == ReadLines(START, Pieces(fileContents0, '\n'), SymmetricLine)
    ensures r.Ok? ==> usedEdges == r.value.data.EdgeIDsByName.Keys
  {
    ghost var total := ReadLines(START, Pieces(fileContents0, '\n'), SymmetricLine);
    var cur := START;
    usedEdges := {};
    var fileContents := fileContents0;
    while fileContents != []
      invariant usedEdges == cur.data.EdgeIDsByName.Keys
      invariant ReadLines(cur, Pieces(fileContents, '\n'), SymmetricLine) == total
      decreases |fileContents|
    {
      var (line0, rest) := NextLine(fileContents, '\n');
      ReadLinesStep(cur, fileContents, line0, rest, SymmetricLine);
      fileContents := rest;
      var line := TrimString(line0);
      if IsCommentLine(line) {
        continue;
      }
      var next, used := ReadSymmetricLine(cur, usedEdges, line);
      if next.Failed? {
        return Failed(next.code), usedEdges;
      }
      cur, usedEdges := next.value, used;
    }
    r := Ok(cur);
  }

  /** One line of SYMMETRIC.txt, checked against usedEdges. */
  method ReadSymmetricLine(r0: Reading, usedEdges0: set<string>, line: string)
    returns (r: Parsed<Reading>, usedEdges: set<string>)
    requires usedEdges0 == r0.data.EdgeIDsByName.Keys
    ensures r == SymmetricLine(r0, line)
    ensures r.Ok? ==> usedEdges == r.value.data.EdgeIDsByName.Keys
  {
    if line in usedEdges0 {
      return Failed(REPEATED_EDGE), usedEdges0;
    }
    r := Ok(Reading(r0.data.(EdgeIDsByName := r0.data.EdgeIDsByName[line := r0.nextEdge],
                             SymmetricEdges := r0.data.SymmetricEdges + {line}), r0.nextEdge + 1));
    usedEdges := usedEdges0 + {line};
  }

  /** The loop over ASYMMETRIC.txt. */
  method ReadAsymmetricFile(r0: Reading, usedEdges0: set<string>, fileContents0: string) returns (r: Parsed<Reading>)
    requires usedEdges0 == r0.data.EdgeIDsByName.Keys
    ensures r == ReadLines(r0, Pieces(fileContents0, '\n'), AsymmetricLine)
  {
    var cur := r0;
    var usedEdges := usedEdges0;
    var fileContents := fileContents0;
    while fileContents != []
      invariant usedEdges == cur.data.EdgeIDsByName.Keys
      invariant ReadLines(cur, Pieces(fileContents, '\n'), AsymmetricLine) == ReadLines(r0, Pieces(fileContents0, '\n'), AsymmetricLine)
      decreases |fileContents|
    {
      var (line0, rest) := NextLine(fileContents, '\n');
      ReadLinesStep(cur, fileContents, line0, rest, AsymmetricLine);
      fileContents := rest;
      var line := TrimString(line0);
      if IsCommentLine(line) {
        continue;
      }
      var next, used := ReadAsymmetricLine(cur, usedEdges, line);
      if next.Failed? {
        return Failed(next.code);
      }
      cur, usedEdges := next.value, used;
    }
    r := Ok(cur);
  }

  /** The TilesetData constructor. */
  method ReadTileset(symmetricFileContents: string, asymmetricFileContents: string)
    returns (result: Parsed<TilesetData>)
    ensures result == ParseTileset(symmetricFileContents, asymmetricFileContents)
  {
    var first, usedEdges := ReadSymmetricFile(symmetricFileContents);
    if first.Failed? {
      return Failed(first.code);
    }
    var second := ReadAsymmetricFile(first.value, usedEdges, asymmetricFileContents);
    if second.Failed? {
      return Failed(second.code);
    }
    result := Ok(second.value.data);
  }

  /** What holds between lines: every name the files define has its own
      ID below nextEdge and is either symmetric or paired, and pairing goes
      both ways between two different names. */
  ghost predicate WellFormed(r: Reading)
  {
    r.data.EdgeIDsByName.Keys == r.data.SymmetricEdges + r.data.AsymmetricEdges.Keys &&
    r.data.SymmetricEdges * r.data.AsymmetricEdges.Keys == {} &&
    Mutual(r.data.AsymmetricEdges) &&
    DistinctIDsBelow(r.data.EdgeIDsByName, r.nextEdge)
  }

  /** Each name is paired with another name that is paired back with it. */
  ghost predicate Mutual(asym: map<string, string>)
  {
    forall k :: k in asym ==> asym[k] in asym && asym[asym[k]] == k && asym[k] != k
  }

  /** No two names share an ID, and every ID is below the next one. */
  ghost predicate DistinctIDsBelow(ids: map<string, nat>, next: nat)
  {
    (forall k :: k in ids ==> ids[k] < next) &&
    (forall k1, k2 :: k1 in ids && k2 in ids && k1 != k2 ==> ids[k1] != ids[k2])
  }

  lemma MutualAddPair(asym: map<string, string>, a: string, b: string)
    requires Mutual(asym) && a != b && a !in asym && b !in asym
    ensures Mutual(asym[a := b][b := a])
  {
    var asym2 := asym[a := b][b := a];
    forall k | k in asym2
      ensures asym2[k] in asym2 && asym2[asym2[k]] == k && asym2[k] != k
    {
      if k != a && k != b {
        assert asym2[k] == asym[k];
        assert asym[k] != a && asym[k] != b;
      }
    }
  }

  lemma DistinctIDsAdd(ids: map<string, nat>, next: nat, a: string)
    requires DistinctIDsBelow(ids, next) && a !in ids
    ensures DistinctIDsBelow(ids[a := next], next + 1)
  {
  }

  lemma SymmetricLineKeeps()
    ensures forall r, line :: WellFormed(r) && SymmetricLine(r, line).Ok? ==> WellFormed(SymmetricLine(r, line).value)
  {
  }

  /** Giving two new, different names IDs next and next + 1 and pairing
      them keeps WellFormed. */
  lemma AddPairKeeps(r: Reading, a: string, b: string)
    requires WellFormed(r)
    requires a != b && a !in r.data.EdgeIDsByName && b !in r.data.EdgeIDsByName
    ensures WellFormed(Reading(r.data.(EdgeIDsByName := r.data.EdgeIDsByName[a := r.nextEdge][b := r.nextEdge + 1],
                                       AsymmetricEdges := r.data.AsymmetricEdges[a := b][b := a]),
                               r.nextEdge + 2))
  {
    var ids := r.data.EdgeIDsByName;
    var asym := r.data.AsymmetricEdges;
    assert ids[a := r.nextEdge][b := r.nextEdge + 1].Keys == ids.Keys + {a, b};
    assert asym[a := b][b := a].Keys == asym.Keys + {a, b};
    MutualAddPair(asym, a, b);
    DistinctIDsAdd(ids, r.nextEdge, a);
    DistinctIDsAdd(ids[a := r.nextEdge], r.nextEdge + 1, b);
  }

  lemma AsymmetricLineKeeps(r: Reading, line: string)
    requires WellFormed(r)
    ensures AsymmetricLine(r, line).Ok? ==> WellFormed(AsymmetricLine(r, line).value)
  {
    var (a, b) := SplitFirst(line, ':');
    if AsymmetricLine(r, line).Ok? {
      var r1 := AsymmetricHalf(r, a, b).value;
      assert r1.data.EdgeIDsByName == r.data.EdgeIDsByName[a := r.nextEdge];
      assert a != b;
      AddPairKeeps(r, a, b);
    }
  }

  lemma AsymmetricLinesKeep()
    ensures forall r, line :: WellFormed(r) && AsymmetricLine(r, line).Ok? ==> WellFormed(AsymmetricLine(r, line).value)
  {
    forall r, line | WellFormed(r) && AsymmetricLine(r, line).Ok?
      ensures WellFormed(AsymmetricLine(r, line).value)
    {
      AsymmetricLineKeeps(r, line);
    }
  }

  /** A step that keeps WellFormed keeps it over every line of a file, and
      every failure is code 8. */
  lemma {:induction false} ReadLinesKeep(r: Reading, lines: seq<string>, step: (Reading, string) -> Parsed<Reading>)
    requires WellFormed(r)
    requires forall u, line :: WellFormed(u) && step(u, line).Ok? ==> WellFormed(step(u, line).value)
    requires forall u, line :: step(u, line).Failed? ==> step(u, line).code == REPEATED_EDGE
    ensures ReadLines(r, lines, step).Ok? ==> WellFormed(ReadLines(r, lines, step).value)
    ensures ReadLines(r, lines, step).Failed? ==> ReadLines(r, lines, step).code == REPEATED_EDGE
    decreases |lines|
  {
    if lines != [] {
      var line := Trimmed(lines[0]);
      if IsCommentLine(line) {
        ReadLinesKeep(r, lines[1..], step);
      } else if step(r, line).Ok? {
        ReadLinesKeep(step(r, line).value, lines[1..], step);
      }
    }
  }

  lemma StepCodes()
    ensures forall u, line :: SymmetricLine(u, line).Failed? ==> SymmetricLine(u, line).code == REPEATED_EDGE
    ensures forall u, line :: AsymmetricLine(u, line).Failed? ==> AsymmetricLine(u, line).code == REPEATED_EDGE
  {
  }

  /** Every failure is code 8; a success defines each name once, as
      symmetric or paired, with pairs going both ways. */
  lemma TilesetOutcome(symmetricFileContents: string, asymmetricFileContents: string)
    ensures ParseTileset(symmetricFileContents, asymmetricFileContents).Failed? ==>
              ParseTileset(symmetricFileContents, asymmetricFileContents).code == REPEATED_EDGE
    ensures ParseTileset(symmetricFileContents, asymmetricFileContents).Ok? ==>
              exists next :: WellFormed(Reading(ParseTileset(symmetricFileContents, asymmetricFileContents).value, next))
  {
    SymmetricLineKeeps();
    AsymmetricLinesKeep();
    StepCodes();
    ReadLinesKeep(START, Pieces(symmetricFileContents, '\n'), SymmetricLine);
    var first := ReadLines(START, Pieces(symmetricFileContents, '\n'), SymmetricLine);
    if first.Ok? {
      ReadLinesKeep(first.value, Pieces(asymmetricFileContents, '\n'), AsymmetricLine);
      var second := ReadLines(first.value, Pieces(asymmetricFileContents, '\n'), AsymmetricLine);
      if second.Ok? {
        assert WellFormed(Reading(second.value.data, second.value.nextEdge));
      }
    }
  }

  /** A blank line is an edge named "", so a symmetric file with two blank
      lines fails. */
  lemma TilesetRejectsTwoBlankLines()
    ensures ParseTileset("\n\n", "") == Failed(REPEATED_EDGE)
  {
    TrimmedKeepsTrimmed("");
    assert !IsCommentLine("");
    var r1 := Reading(START.data.(EdgeIDsByName := START.data.EdgeIDsByName["" := 0],
                                  SymmetricEdges := START.data.SymmetricEdges + {""}), 1);
    assert SymmetricLine(START, "") == Ok(r1);
    assert SymmetricLine(r1, "") == Failed(REPEATED_EDGE);
    assert NextLine("\n\n", '\n') == ("", "\n");
    ReadLinesStep(START, "\n\n", "", "\n", SymmetricLine);
    assert NextLine("\n", '\n') == ("", "");
    ReadLinesStep(r1, "\n", "", "", SymmetricLine);
  }

  /** Pairing a name with itself fails: the second half finds the name
      already defined by the first. */
  lemma TilesetRejectsSelfPair()
    ensures ParseTileset("", "a:a") == Failed(REPEATED_EDGE)
  {
    assert Pieces("", '\n') == [];
    assert NextLine("a:a", '\n') == ("a:a", "");
    assert Pieces("a:a", '\n') == ["a:a"];
    assert Trimmed("a:a") == "a:a" by {
      TrimmedKeepsTrimmed("a:a");
    }
    assert !IsCommentLine("a:a");
    assert "a:a" == "a" + [':'] + "a";
    SplitFirstJoin("a", "a", ':');
    assert AsymmetricLine(START, "a:a") == Failed(REPEATED_EDGE);
    assert ReadLines(START, ["a:a"], AsymmetricLine) == Failed(REPEATED_EDGE);
  }

  // ---------------------------------------------------------------------
  // The tile file reader (main.cpp:295-436)

  /** TRY_GET_EDGE's code for an edge name the lookup does not know. The old
      reader reuses code 4, which the newer TileFile reader means as a wrong
      pixel-grid size. */
  const UNKNOWN_EDGE: int := 4

  /** EdgeID_INVALID: the uint16_t -1. */
  const EDGE_ID_INVALID: nat := 0xFFFF

  type EdgeIDs = s: seq<nat> | |s| == 4 witness [EDGE_ID_INVALID, EDGE_ID_INVALID, EDGE_ID_INVALID, EDGE_ID_INVALID]

  /** The old TileFile: its four edge IDs in EdgeDirs order, and a weight that
      is the float stof reads, left to the caller's reading function. */
  datatype LegacyTile = LegacyTile(Pixels: seq<seq<nat>>, Edges: EdgeIDs, Weight: real)

  /** The GetLines predicate: lines starting with "//" are dropped. */
  predicate NotCommentLine(s: string)
  {
    !IsCommentLine(s)
  }

  function LegacyTileLines(contents: string): seq<string>
  {
    TextLines(contents, Trimmed, NotCommentLine)
  }

  /** TRY_GET_EDGE: a name the lookup does not know fails with UNKNOWN_EDGE. */
  function WithEdge(t: LegacyTile, edgeLookup: map<string, nat>, name: string, dir: nat): Parsed<LegacyTile>
    requires dir < 4
  {
    if name in edgeLookup then Ok(t.(Edges := t.Edges[dir := edgeLookup[name]])) else Failed(UNKNOWN_EDGE)
  }

  /** One key/value line; stof is the parameter. */
  function ApplyLegacyTile(edgeLookup: map<string, nat>, stof: string -> Option<real>,
                           t: LegacyTile, key: string, val: string): Parsed<LegacyTile>
  {
    if key == "Top" then WithEdge(t, edgeLookup, val, TiledPermutator.MIN_Y)
    else if key == "Bottom" then WithEdge(t, edgeLookup, val, TiledPermutator.MAX_Y)
    else if key == "Left" then WithEdge(t, edgeLookup, val, TiledPermutator.MIN_X)
    else if key == "Right" then WithEdge(t, edgeLookup, val, TiledPermutator.MAX_X)
    else if key == "Weight" then
      match stof(val)
      case Some(w) => Ok(t.(Weight := w))
      case None => Failed(BAD_VALUE)
    else Failed(UNKNOWN_KEY)
  }

  function LegacyApplyWith(edgeLookup: map<string, nat>, stof: string -> Option<real>)
    : (LegacyTile, string, string) -> Parsed<LegacyTile>
  {
    (t, k, v) => ApplyLegacyTile(edgeLookup, stof, t, k, v)
  }

  function LegacyStart(px: seq<seq<nat>>): LegacyTile
  {
    LegacyTile(px, [EDGE_ID_INVALID, EDGE_ID_INVALID, EDGE_ID_INVALID, EDGE_ID_INVALID], 100.0)
  }

  /** What the old constructor leaves in outErrCode and its fields; the
      block's first row sets the width, and there is no size check. */
  function ParseLegacyTile(contents: string, edgeLookup: map<string, nat>,
                           stof: string -> Option<real>): Parsed<LegacyTile>
  {
    var lines := LegacyTileLines(contents);
    if TileBegin(lines) == |lines| then Failed(NO_PIXELS)
    else
      var rows := TileRows(lines);
      match ParsePixels(rows, |rows[0]|)
      case Failed(c) => Failed(c)
      case Ok(px) => LegacyFields(lines, px, edgeLookup, stof)
  }

  /** The key/value lines after the pixel block, then the check that all
      four edges were given. */
  function LegacyFields(lines: seq<string>, px: seq<seq<nat>>, edgeLookup: map<string, nat>,
                        stof: string -> Option<real>): Parsed<LegacyTile>
  {
    match Fold(LegacyStart(px), TileKeyValues(lines), LegacyApplyWith(edgeLookup, stof))
    case Failed(c) => Failed(c)
    case Ok(t) =>
      if exists i :: 0 <= i < 4 && t.Edges[i] == EDGE_ID_INVALID then Failed(MISSING_EDGE) else Ok(t)
  }

  /** The old TileFile constructor. */
  method ReadLegacyTile(fileContents: string, edgeLookup: map<string, nat>,
                        stof: string -> Option<real>) returns (r: Parsed<LegacyTile>)
    ensures r == ParseLegacyTile(fileContents, edgeLookup, stof)
  {
    var lines := GetLines(fileContents, [], Trimmed, NotCommentLine);
    assert lines == LegacyTileLines(fileContents);
    var tileBegin, tileEnd := FindTileBlock(lines);
    if tileBegin == |lines| {
      return Failed(NO_PIXELS);
    }
    var pixelsStr := SplitRows(lines, tileBegin, tileEnd);
    var pixels := ReadPixels(pixelsStr, |pixelsStr[0]|);
    if pixels.Failed? {
      return Failed(pixels.code);
    }
    var t := ReadKeyValues(lines, tileEnd, LegacyStart(pixels.value), LegacyApplyWith(edgeLookup, stof));
    if t.Failed? {
      return t;
    }
    if exists i :: 0 <= i < 4 && t.value.Edges[i] == EDGE_ID_INVALID {
      return Failed(MISSING_EDGE);
    }
    r := t;
  }

  lemma LegacyEdgeStep(edgeLookup: map<string, nat>, stof: string -> Option<real>, key: string, dir: nat)
    requires EdgeKey(key, dir)
    ensures forall u, v :: LegacyApplyWith(edgeLookup, stof)(u, key, v).Ok? ==>
              v in edgeLookup && LegacyApplyWith(edgeLookup, stof)(u, key, v).value.Edges[dir] == edgeLookup[v]
    ensures forall u, k, v :: k != key && LegacyApplyWith(edgeLookup, stof)(u, k, v).Ok? ==>
              LegacyApplyWith(edgeLookup, stof)(u, k, v).value.Edges[dir] == u.Edges[dir]
  {
  }

  /** The name the lookup gives each edge. */
  function LookupOf(edgeLookup: map<string, nat>): string -> Option<nat>
  {
    s => if s in edgeLookup then Some(edgeLookup[s]) else None
  }

  /** Each edge's ID is the lookup's ID for the name on the last line with
      its key; without such a line the reading fails. */
  lemma LegacyEdgeFromKey(contents: string, edgeLookup: map<string, nat>, stof: string -> Option<real>,
                          key: string, dir: nat)
    requires EdgeKey(key, dir)
    ensures ParseLegacyTile(contents, edgeLookup, stof).Ok? ==>
              var last := LastValue(TileKeyValues(LegacyTileLines(contents)), key);
              last.Some? && last.value in edgeLookup &&
              edgeLookup[last.value] == ParseLegacyTile(contents, edgeLookup, stof).value.Edges[dir] &&
              edgeLookup[last.value] != EDGE_ID_INVALID
  {
    var lines := LegacyTileLines(contents);
    if TileBegin(lines) < |lines| {
      var rows := TileRows(lines);
      if ParsePixels(rows, |rows[0]|).Ok? {
        LegacyFieldsEdge(lines, ParsePixels(rows, |rows[0]|).value, edgeLookup, stof, key, dir);
      }
    }
  }

  lemma LegacyFieldsEdge(lines: seq<string>, px: seq<seq<nat>>, edgeLookup: map<string, nat>,
                         stof: string -> Option<real>, key: string, dir: nat)
    requires EdgeKey(key, dir)
    ensures LegacyFields(lines, px, edgeLookup, stof).Ok? ==>
              var last := LastValue(TileKeyValues(lines), key);
              last.Some? && last.value in edgeLookup &&
              edgeLookup[last.value] == LegacyFields(lines, px, edgeLookup, stof).value.Edges[dir] &&
              edgeLookup[last.value] != EDGE_ID_INVALID
  {
    LegacyEdgeStep(edgeLookup, stof, key, dir);
    FoldLastField(LegacyStart(px), TileKeyValues(lines), LegacyApplyWith(edgeLookup, stof), key,
                  (u: LegacyTile) => u.Edges[dir], LookupOf(edgeLookup));
  }

  lemma LegacyStepCodes(edgeLookup: map<string, nat>, stof: string -> Option<real>)
    ensures forall u, k, v :: LegacyApplyWith(edgeLookup, stof)(u, k, v).Failed? ==>
              LegacyApplyWith(edgeLookup, stof)(u, k, v).code in {UNKNOWN_EDGE, UNKNOWN_KEY, BAD_VALUE}
  {
  }

  /** Every failure has one of the old reader's codes. */
  lemma LegacyTileCodes(contents: string, edgeLookup: map<string, nat>, stof: string -> Option<real>)
    ensures ParseLegacyTile(contents, edgeLookup, stof).Failed? ==>
              ParseLegacyTile(contents, edgeLookup, stof).code
                in {NO_PIXELS, ROW_LENGTH, MISSING_EDGE, UNKNOWN_EDGE, UNKNOWN_KEY, BAD_VALUE, BAD_PIXEL}
  {
    var lines := LegacyTileLines(contents);
    if TileBegin(lines) < |lines| {
      var rows := TileRows(lines);
      if ParsePixels(rows, |rows[0]|).Ok? {
        LegacyFieldsCodes(lines, ParsePixels(rows, |rows[0]|).value, edgeLookup, stof);
      }
    }
  }

  lemma LegacyFieldsCodes(lines: seq<string>, px: seq<seq<nat>>, edgeLookup: map<string, nat>,
                          stof: string -> Option<real>)
    ensures LegacyFields(lines, px, edgeLookup, stof).Failed? ==>
              LegacyFields(lines, px, edgeLookup, stof).code in {MISSING_EDGE, UNKNOWN_EDGE, UNKNOWN_KEY, BAD_VALUE}
  {
    LegacyStepCodes(edgeLookup, stof);
    FoldFailure(LegacyStart(px), TileKeyValues(lines), LegacyApplyWith(edgeLookup, stof),
                {UNKNOWN_EDGE, UNKNOWN_KEY, BAD_VALUE});
  }

  /** A success has rows of one width, the first row's, with every pixel in
      a byte. */
  lemma LegacyTileShape(contents: string, edgeLookup: map<string, nat>, stof: string -> Option<real>)
    ensures ParseLegacyTile(contents, edgeLookup, stof).Ok? ==>
              var t := ParseLegacyTile(contents, edgeLookup, stof).value;
              |t.Pixels| >= 1 &&
              (forall y :: 0 <= y < |t.Pixels| ==> |t.Pixels[y]| == |t.Pixels[0]|) &&
              (forall y, x :: 0 <= y < |t.Pixels| && 0 <= x < |t.Pixels[y]| ==> t.Pixels[y][x] <= PIXEL_MAX)
  {
    var lines := LegacyTileLines(contents);
    if TileBegin(lines) < |lines| {
      var rows := TileRows(lines);
      if ParsePixels(rows, |rows[0]|).Ok? {
        LegacyFieldsPixels(lines, ParsePixels(rows, |rows[0]|).value, edgeLookup, stof);
      }
    }
  }

  lemma LegacyFieldsPixels(lines: seq<string>, px: seq<seq<nat>>, edgeLookup: map<string, nat>,
                           stof: string -> Option<real>)
    ensures LegacyFields(lines, px, edgeLookup, stof).Ok? ==> LegacyFields(lines, px, edgeLookup, stof).value.Pixels == px
  {
    LegacyPixelsKept(edgeLookup, stof, px);
    FoldKeeps(LegacyStart(px), TileKeyValues(lines), LegacyApplyWith(edgeLookup, stof), PixelsAre(px));
  }

  function PixelsAre(px: seq<seq<nat>>): LegacyTile -> bool
  {
    (u: LegacyTile) => u.Pixels == px
  }

  lemma LegacyPixelsKept(edgeLookup: map<string, nat>, stof: string -> Option<real>, px: seq<seq<nat>>)
    ensures forall kv: Entry :: EntryKeeps(LegacyApplyWith(edgeLookup, stof), PixelsAre(px), kv)
  {
  }
}
