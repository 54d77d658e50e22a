/** The text helpers of the WFCtile command-line tool (WFCtile/Utils.cpp):
    whitespace trimming, comment stripping, number and flag parsing, line
    reading and splitting. Characters are those of the "C" locale. */
module WfcTileUtils {
  import opened Common

  /** std::isspace. */
  predicate IsSpace(c: char)
  {
    c == ' ' || c == '\t' || c == '\n' || c == '\U{0B}' || c == '\U{0C}' || c == '\r'
  }

  /** std::isdigit. */
  predicate IsDigit(c: char)
  {
    '0' <= c <= '9'
  }

  /** std::isupper. */
  predicate IsUpper(c: char)
  {
    'A' <= c <= 'Z'
  }

  /** std::tolower. */
  function ToLowerChar(c: char): (r: char)
    ensures !IsUpper(r)
    ensures !IsUpper(c) ==> r == c
  {
    if IsUpper(c) then (c as int - 'A' as int + 'a' as int) as char else c
  }

  // ---------------------------------------------------------------------
  // Trimming (Utils.cpp:12-32)

  /** The number of whitespace characters the text starts with. */
  function LeadingSpace(s: string): (n: nat)
    ensures n <= |s|
    ensures forall i :: 0 <= i < n ==> IsSpace(s[i])
    ensures n < |s| ==> !IsSpace(s[n])
  {
    if s != [] && IsSpace(s[0]) then 1 + LeadingSpace(s[1..]) else 0
  }

  /** The number of whitespace characters the text ends with. */
  function TrailingSpace(s: string): (n: nat)
    ensures n <= |s|
    ensures forall i :: |s| - n <= i < |s| ==> IsSpace(s[i])
    ensures n < |s| ==> !IsSpace(s[|s| - 1 - n])
  {
    if s != [] && IsSpace(s[|s| - 1]) then 1 + TrailingSpace(s[..|s| - 1]) else 0
  }

  /** The text without its leading and trailing whitespace. */
  function Trimmed(s: string): string
  {
    var t := s[LeadingSpace(s)..];
    t[..|t| - TrailingSpace(t)]
  }

  /** Neither end of the text is whitespace. */
  predicate IsTrimmed(s: string)
  {
    s == [] || (!IsSpace(s[0]) && !IsSpace(s[|s| - 1]))
  }

  /** TrimStringStart: skips whitespace from the front, then erases it. */
  method TrimStringStart(str: string) returns (r: string)
    ensures |r| <= |str| && r == str[|str| - |r|..]
    ensures forall i :: 0 <= i < |str| - |r| ==> IsSpace(str[i])
    ensures r == [] || !IsSpace(r[0])
    ensures r == str[LeadingSpace(str)..]
  {
    var firstNonSpace := 0;
    while firstNonSpace < |str| && IsSpace(str[firstNonSpace])
      invariant firstNonSpace <= |str|
      invariant forall i :: 0 <= i < firstNonSpace ==> IsSpace(str[i])
    {
      firstNonSpace := firstNonSpace + 1;
    }
    r := str[firstNonSpace..];
  }

  /** TrimStringEnd: a signed index walks back over the whitespace. */
  method TrimStringEnd(str: string) returns (r: string)
    ensures |r| <= |str| && r == str[..|r|]
    ensures forall i :: |r| <= i < |str| ==> IsSpace(str[i])
    ensures r == [] || !IsSpace(r[|r| - 1])
    ensures r == str[..|str| - TrailingSpace(str)]
  {
    var firstNonSpace: int := |str| - 1;
    while firstNonSpace >= 0 && IsSpace(str[firstNonSpace])
      invariant -1 <= firstNonSpace < |str|
      invariant forall i :: firstNonSpace < i < |str| ==> IsSpace(str[i])
    {
      firstNonSpace := firstNonSpace - 1;
    }
    r := str[..firstNonSpace + 1];
  }

  /** TrimString: the start, then the end. */
  method TrimString(str: string) returns (r: string)
    ensures r == Trimmed(str)
    ensures IsTrimmed(r)
  {
    r := TrimStringStart(str);
    r := TrimStringEnd(r);
  }

  /** Trimming leaves a slice of the text with only whitespace outside it
      and none at either end. */
  lemma TrimmedIsCore(s: string)
    ensures IsTrimmed(Trimmed(s))
    ensures LeadingSpace(s) + |Trimmed(s)| <= |s|
    ensures Trimmed(s) == s[LeadingSpace(s)..LeadingSpace(s) + |Trimmed(s)|]
    ensures forall i :: 0 <= i < LeadingSpace(s) ==> IsSpace(s[i])
    ensures forall i :: LeadingSpace(s) + |Trimmed(s)| <= i < |s| ==> IsSpace(s[i])
  {
    var a := LeadingSpace(s);
    var t := s[a..];
    var n := TrailingSpace(t);
    assert Trimmed(s) == s[a..a + (|t| - n)];
    forall i | a + (|t| - n) <= i < |s|
      ensures IsSpace(s[i])
    {
      assert s[i] == t[i - a];
    }
  }

  /** Text already trimmed is left as it is. */
  lemma TrimmedKeepsTrimmed(s: string)
    requires IsTrimmed(s)
    ensures Trimmed(s) == s
  {
    assert LeadingSpace(s) == 0;
    assert s[0..] == s;
    assert TrailingSpace(s) == 0;
  }

  /** Trimming twice is trimming once. */
  lemma TrimIdempotent(s: string)
    ensures Trimmed(Trimmed(s)) == Trimmed(s)
  {
    TrimmedIsCore(s);
    TrimmedKeepsTrimmed(Trimmed(s));
  }

  // ---------------------------------------------------------------------
  // Comments (Utils.cpp:34-41)

  /** The marker occurs in the text at index i. */
  predicate OccursAt(s: string, marker: string, i: nat)
  {
    i + |marker| <= |s| && s[i..i + |marker|] == marker
  }

  /** std::string::find from index i: the first occurrence at or after i. */
  function FindFrom(s: string, marker: string, i: nat): (r: Option<nat>)
    ensures r.Some? ==> i <= r.value && OccursAt(s, marker, r.value)
    ensures r.Some? ==> forall j: nat :: i <= j < r.value ==> !OccursAt(s, marker, j)
    ensures r.None? ==> forall j: nat :: i <= j ==> !OccursAt(s, marker, j)
    decreases |s| - i
  {
    if i + |marker| > |s| then None
    else if OccursAt(s, marker, i) then Some(i)
    else FindFrom(s, marker, i + 1)
  }

  /** The text before the first occurrence of the marker. */
  function BeforeComment(s: string, marker: string): string
  {
    match FindFrom(s, marker, 0)
    case Some(i) => s[..i]
    case None => s
  }

  /** TrimSpaceAndComments's result. */
  function CleanLine(s: string, marker: string): string
  {
    Trimmed(BeforeComment(s, marker))
  }

  /** TrimSpaceAndComments: cuts the text at the first comment marker, then
      trims it. */
  method TrimSpaceAndComments(str: string, commentStart: string) returns (r: string)
    ensures r == CleanLine(str, commentStart)
    ensures IsTrimmed(r)
  {
    var s := str;
    var startI := FindFrom(str, commentStart, 0);
    if startI.Some? {
      s := str[..startI.value];
    }
    r := TrimString(s);
  }

  /** No occurrence lies inside the part before the first one. */
  lemma BeforeCommentHasNoMarker(s: string, marker: string)
    requires marker != []
    ensures forall j: nat :: !OccursAt(BeforeComment(s, marker), marker, j)
  {
    var b := BeforeComment(s, marker);
    forall j: nat | OccursAt(b, marker, j)
      ensures false
    {
      assert s[j..j + |marker|] == b[j..j + |marker|];
      assert OccursAt(s, marker, j);
    }
  }

  /** An occurrence inside a slice is an occurrence in the text. */
  lemma OccursInSlice(s: string, marker: string, a: nat, b: nat, j: nat)
    requires a <= b <= |s|
    ensures OccursAt(s[a..b], marker, j) ==> OccursAt(s, marker, a + j)
  {
    if OccursAt(s[a..b], marker, j) {
      var t := s[a..b];
      forall k | 0 <= k < |marker|
        ensures s[a + j + k] == marker[k]
      {
        assert t[j..j + |marker|][k] == t[j + k];
      }
      assert s[a + j..a + j + |marker|] == marker;
    }
  }

  /** A slice of a text free of the marker is free of it too. */
  lemma SliceHasNoMarker(s: string, marker: string, a: nat, b: nat)
    requires a <= b <= |s|
    requires forall j: nat :: !OccursAt(s, marker, j)
    ensures forall j: nat :: !OccursAt(s[a..b], marker, j)
  {
    forall j: nat
      ensures !OccursAt(s[a..b], marker, j)
    {
      OccursInSlice(s, marker, a, b, j);
    }
  }

  /** A cleaned line holds no comment marker and is trimmed. */
  lemma CleanLineHasNoMarker(s: string, marker: string)
    requires marker != []
    ensures IsTrimmed(CleanLine(s, marker))
    ensures forall j: nat :: !OccursAt(CleanLine(s, marker), marker, j)
  {
    var b := BeforeComment(s, marker);
    BeforeCommentHasNoMarker(s, marker);
    TrimmedIsCore(b);
    SliceHasNoMarker(b, marker, LeadingSpace(b), LeadingSpace(b) + |Trimmed(b)|);
  }

  /** Cleaning a cleaned line changes nothing. */
  lemma CleanLineIdempotent(s: string, marker: string)
    requires marker != []
    ensures CleanLine(CleanLine(s, marker), marker) == CleanLine(s, marker)
  {
    var c := CleanLine(s, marker);
    CleanLineHasNoMarker(s, marker);
    assert FindFrom(c, marker, 0).None?;
    TrimmedKeepsTrimmed(c);
  }

  // ---------------------------------------------------------------------
  // Number parsing (Utils.cpp:43-74)

  /** The largest size_t, the value strtoull saturates at. */
  const SIZE_MAX: nat := 0xFFFF_FFFF_FFFF_FFFF
  const INT64_MAX: int := 0x7FFF_FFFF_FFFF_FFFF
  const INT64_MIN: int := -0x8000_0000_0000_0000

  predicate AllDigits(s: string)
  {
    forall i :: 0 <= i < |s| ==> IsDigit(s[i])
  }

  function DigitValue(c: char): (d: nat)
    requires IsDigit(c)
    ensures d < 10
  {
    c as int - '0' as int
  }

  function DigitChar(d: nat): (c: char)
    requires d < 10
    ensures IsDigit(c) && DigitValue(c) == d
  {
    ('0' as int + d) as char
  }

  /** The number a digit string spells in base 10. */
  function DecimalValue(s: string): nat
    requires AllDigits(s)
  {
    if s == [] then 0 else 10 * DecimalValue(s[..|s| - 1]) + DigitValue(s[|s| - 1])
  }

  /** std::to_string of a natural number: its base-10 digits, no leading zero. */
  function Decimal(n: nat): (s: string)
    ensures |s| >= 1 && AllDigits(s)
    ensures |s| > 1 ==> s[0] != '0'
  {
    if n < 10 then [DigitChar(n)] else Decimal(n / 10) + [DigitChar(n % 10)]
  }

  /** std::to_string of an integer: a minus sign before negative numbers. */
  function SignedDecimal(i: int): string
  {
    if i < 0 then "-" + Decimal(-i) else Decimal(i)
  }

  lemma {:induction false} DecimalRoundTrip(n: nat)
    ensures DecimalValue(Decimal(n)) == n
  {
    if n >= 10 {
      var s := Decimal(n);
      assert s[..|s| - 1] == Decimal(n / 10);
      DecimalRoundTrip(n / 10);
    }
  }

  lemma DecimalInjective(m: nat, n: nat)
    requires Decimal(m) == Decimal(n)
    ensures m == n
  {
    DecimalRoundTrip(m);
    DecimalRoundTrip(n);
  }

  /** Only negative numbers are written with a leading minus sign. */
  lemma SignedDecimalSign(i: int)
    ensures |SignedDecimal(i)| >= 1
    ensures SignedDecimal(i)[0] == '-' <==> i < 0
  {
    if i >= 0 {
      assert IsDigit(Decimal(i)[0]);
    }
  }

  /** Different numbers are written differently. */
  lemma SignedDecimalInjective(i: int, j: int)
    requires SignedDecimal(i) == SignedDecimal(j)
    ensures i == j
  {
    SignedDecimalSign(i);
    SignedDecimalSign(j);
    if i < 0 {
      assert SignedDecimal(i)[1..] == Decimal(-i);
      assert SignedDecimal(j)[1..] == Decimal(-j);
      DecimalInjective(-i, -j);
    } else {
      DecimalInjective(i, j);
    }
  }

  /** TryParse(size_t): a non-empty run of digits, read by strtoull. */
  function ParseSize(s: string): (r: Option<nat>)
    ensures r.Some? <==> |s| >= 1 && AllDigits(s)
    ensures r.Some? ==> r.value <= SIZE_MAX
  {
    if |s| >= 1 && AllDigits(s) then Some(Min(DecimalValue(s), SIZE_MAX)) else None
  }

  /** TryParse(int64_t): digits throughout, except that the first character
      may be a minus sign; strtoll saturates at the int64 limits. */
  function ParseInt64(s: string): (r: Option<int>)
    ensures r.Some? <==> |s| >= 1 && (s[0] == '-' || IsDigit(s[0])) && AllDigits(s[1..])
    ensures r.Some? ==> INT64_MIN <= r.value <= INT64_MAX
  {
    if |s| >= 1 && (s[0] == '-' || IsDigit(s[0])) && AllDigits(s[1..]) then
      if s[0] == '-' then Some(Max(-(DecimalValue(s[1..]) as int), INT64_MIN))
      else
        assert AllDigits(s) by { assert forall i :: 1 <= i < |s| ==> s[i] == s[1..][i - 1]; }
        Some(Min(DecimalValue(s), INT64_MAX))
    else None
  }

  function Min(a: int, b: int): int { if a < b then a else b }
  function Max(a: int, b: int): int { if a < b then b else a }

  /** A size written by to_string reads back as itself. */
  lemma ParseSizeOfDecimal(n: nat)
    requires n <= SIZE_MAX
    ensures ParseSize(Decimal(n)) == Some(n)
  {
    DecimalRoundTrip(n);
  }

  /** An int64 written by to_string reads back as itself. */
  lemma ParseInt64OfDecimal(i: int)
    requires INT64_MIN <= i <= INT64_MAX
    ensures ParseInt64(SignedDecimal(i)) == Some(i)
  {
    if i < 0 {
      var d := Decimal(-i);
      var s := "-" + d;
      assert s == SignedDecimal(i);
      assert s[0] == '-' && s[1..] == d;
      DecimalRoundTrip(-i);
      assert ParseInt64(s) == Some(Max(-(DecimalValue(d) as int), INT64_MIN));
    } else {
      var s := Decimal(i);
      assert s == SignedDecimal(i);
      assert IsDigit(s[0]);
      assert AllDigits(s[1..]) by {
        forall k | 0 <= k < |s[1..]| ensures IsDigit(s[1..][k]) {
          assert s[1..][k] == s[k + 1];
        }
      }
      DecimalRoundTrip(i);
      assert ParseInt64(s) == Some(Min(DecimalValue(s), INT64_MAX));
    }
  }

  /** A lone minus sign passes the character checks and reads as zero. */
  lemma ParseInt64LoneMinus()
    ensures ParseInt64("-") == Some(0)
  {
    assert "-"[1..] == [];
  }

  // ---------------------------------------------------------------------
  // Flag parsing (Utils.cpp:96-112)

  /** The text with every upper-case letter lowered. */
  function LowerCase(s: string): (r: string)
    ensures |r| == |s|
    ensures forall i :: 0 <= i < |s| ==> r[i] == ToLowerChar(s[i])
  {
    seq(|s|, i requires 0 <= i < |s| => ToLowerChar(s[i]))
  }

  /** The spellings of true and false that TryParse(bool) knows. */
  function BoolWord(s: string): Option<bool>
  {
    if s == "true" || s == "1" || s == "yes" || s == "y" then Some(true)
    else if s == "false" || s == "0" || s == "no" || s == "n" then Some(false)
    else None
  }

  /** TryParse(bool) as the code is written: it lower-cases a copy and then
      compares the original text. */
  function ParseBoolAsWritten(s: string): Option<bool>
  {
    BoolWord(s)
  }

  /** TryParse(bool) as intended: the comparison is made on the lower-cased
      copy. */
  function ParseBool(s: string): Option<bool>
  {
    BoolWord(LowerCase(s))
  }

  /** TryParse(bool) with its lower-casing loop. */
  method TryParseBool(str: string) returns (r: Option<bool>)
    ensures r == ParseBool(str)
    ensures r.Some? ==> LowerCase(str) in {"true", "1", "yes", "y", "false", "0", "no", "n"}
  {
    var str2 := str;
    for i := 0 to |str2|
      invariant |str2| == |str|
      invariant forall j :: 0 <= j < i ==> str2[j] == ToLowerChar(str[j])
      invariant forall j :: i <= j < |str| ==> str2[j] == str[j]
    {
      if IsUpper(str2[i]) {
        str2 := str2[i := ToLowerChar(str2[i])];
      }
    }
    assert str2 == LowerCase(str);
    r := BoolWord(str2);
  }

  /** The intended parse ignores letter case. */
  lemma ParseBoolIgnoresCase(s: string, t: string)
    requires LowerCase(s) == LowerCase(t)
    ensures ParseBool(s) == ParseBool(t)
  {
  }

  /** On lower-case text the code as written and as intended agree. */
  lemma ParseBoolAgreesOnLowerCase(s: string)
    requires forall i :: 0 <= i < |s| ==> !IsUpper(s[i])
    ensures ParseBoolAsWritten(s) == ParseBool(s)
  {
    assert LowerCase(s) == s;
  }

  /** The code as written rejects "True", which the lower-casing was meant
      to admit. */
  lemma ParseBoolAsWrittenRejectsCapitals()
    ensures ParseBoolAsWritten("True") == None
    ensures ParseBool("True") == Some(true)
  {
    assert LowerCase("True") == "true";
  }

  /** The words "true" and "false" read back as themselves, in any case. */
  lemma ParseBoolRoundTrip(b: bool, s: string)
    requires LowerCase(s) == (if b then "true" else "false")
    ensures ParseBool(s) == Some(b)
  {
  }

  // ---------------------------------------------------------------------
  // Lines (Utils.cpp:114-130)

  /** The index of the first d in s, or |s| when there is none. */
  function IndexOf(s: string, d: char): (i: nat)
    ensures i <= |s|
    ensures d !in s[..i]
    ensures i < |s| ==> s[i] == d
  {
    if s == [] then 0
    else if s[0] == d then 0
    else
      var k := IndexOf(s[1..], d);
      assert s[..1 + k] == [s[0]] + s[1..][..k];
      1 + k
  }

  /** One std::getline(stream, line, d) on the unread text s: the line, up to
      the first d or the end, and the text after the d. */
  function NextLine(s: string, d: char): (r: (string, string))
    requires s != []
    ensures |r.1| < |s|
    ensures d !in r.0
    ensures |r.0| <= |s| && r.0 == s[..|r.0|]
    ensures |r.0| < |s| ==> s[|r.0|] == d && r.1 == s[|r.0| + 1..] && s == r.0 + [d] + r.1
    ensures |r.0| == |s| ==> r.0 == s && r.1 == []
  {
    var i := IndexOf(s, d);
    if i < |s| then
      assert s == s[..i] + [s[i]] + s[i + 1..];
      (s[..i], s[i + 1..])
    else
      assert s[..i] == s;
      (s, [])
  }

  /** Every line std::getline reads from the text, in order: reading stops
      when the text is used up, so a final d adds no empty line. */
  function Pieces(s: string, d: char): seq<string>
    decreases |s|
  {
    if s == [] then [] else [NextLine(s, d).0] + Pieces(NextLine(s, d).1, d)
  }

  /** Each line followed by the delimiter. */
  function Terminated(lines: seq<string>, d: char): string
  {
    if lines == [] then [] else lines[0] + [d] + Terminated(lines[1..], d)
  }

  /** Reading lines loses nothing but the delimiters: each line with its
      delimiter put back gives the text, with one d added when the text did
      not already end in one. */
  lemma {:induction false} PiecesJoin(s: string, d: char)
    ensures Terminated(Pieces(s, d), d) == if s == [] || s[|s| - 1] == d then s else s + [d]
    decreases |s|
  {
    if s != [] {
      var line := NextLine(s, d).0;
      var rest := NextLine(s, d).1;
      var ps := Pieces(s, d);
      assert ps == [line] + Pieces(rest, d);
      assert ps[1..] == Pieces(rest, d);
      var t := Terminated(Pieces(rest, d), d);
      assert Terminated(ps, d) == line + [d] + t;
      PiecesJoin(rest, d);
      if |line| < |s| {
        JoinAfterDelimiter(line, d, rest);
      } else {
        assert line == s && rest == [];
        assert t == [];
        assert s[|s| - 1] in line;
      }
    }
  }

  /** The case of PiecesJoin where the first line ended at a delimiter. */
  lemma JoinAfterDelimiter(line: string, d: char, rest: string)
    ensures var s := line + [d] + rest;
            line + [d] + (if rest == [] || rest[|rest| - 1] == d then rest else rest + [d])
              == if s[|s| - 1] == d then s else s + [d]
  {
    var s := line + [d] + rest;
    if rest != [] {
      assert s[|s| - 1] == rest[|rest| - 1];
      assert line + [d] + (rest + [d]) == s + [d];
    }
  }

  /** No line read holds the delimiter. */
  lemma {:induction false} PiecesHaveNoDelimiter(s: string, d: char)
    ensures forall k :: 0 <= k < |Pieces(s, d)| ==> d !in Pieces(s, d)[k]
    decreases |s|
  {
    if s != [] {
      PiecesHaveNoDelimiter(NextLine(s, d).1, d);
    }
  }

  /** The lines of every row, one after another. */
  function SubLines(rows: seq<string>): seq<string>
  {
    if rows == [] then [] else SubLines(rows[..|rows| - 1]) + Pieces(rows[|rows| - 1], '\n')
  }

  /** The filtered lines the predicate keeps. */
  function Kept(lines: seq<string>, filter: string -> string, keep: string -> bool): seq<string>
  {
    if lines == [] then []
    else
      var l := filter(lines[|lines| - 1]);
      Kept(lines[..|lines| - 1], filter, keep) + (if keep(l) then [l] else [])
  }

  /** What GetLines appends: the text split at each \r, each part split at
      each \n, filtered, and kept where the predicate holds. */
  function TextLines(src: string, filter: string -> string, keep: string -> bool): seq<string>
  {
    Kept(SubLines(Pieces(src, '\r')), filter, keep)
  }

  lemma {:induction false} KeptAppend(a: seq<string>, b: seq<string>, filter: string -> string,
                                      keep: string -> bool)
    ensures Kept(a + b, filter, keep) == Kept(a, filter, keep) + Kept(b, filter, keep)
    decreases |b|
  {
    if b != [] {
      assert (a + b)[..|a + b| - 1] == a + b[..|b| - 1];
      KeptAppend(a, b[..|b| - 1], filter, keep);
    } else {
      assert a + b == a;
    }
  }

  /** Every kept line passes the predicate and is the filtered form of a
      source line. */
  lemma {:induction false} KeptMeaning(lines: seq<string>, filter: string -> string,
                                       keep: string -> bool)
    ensures forall l :: l in Kept(lines, filter, keep) ==>
              keep(l) && exists k :: 0 <= k < |lines| && l == filter(lines[k])
    ensures |Kept(lines, filter, keep)| <= |lines|
  {
    if lines != [] {
      KeptMeaning(lines[..|lines| - 1], filter, keep);
    }
  }

  /** Reading one more line moves it from the unread text to the lines read. */
  lemma PiecesStep(done: seq<string>, unread: string, d: char, all: seq<string>)
    requires unread != [] && done + Pieces(unread, d) == all
    ensures (done + [NextLine(unread, d).0]) + Pieces(NextLine(unread, d).1, d) == all
  {
    assert Pieces(unread, d) == [NextLine(unread, d).0] + Pieces(NextLine(unread, d).1, d);
  }

  lemma KeptSnoc(lines: seq<string>, x: string, filter: string -> string, keep: string -> bool)
    ensures Kept(lines + [x], filter, keep)
            == Kept(lines, filter, keep) + (if keep(filter(x)) then [filter(x)] else [])
  {
    assert (lines + [x])[..|lines|] == lines;
  }

  lemma SubLinesSnoc(rows: seq<string>, row: string)
    ensures SubLines(rows + [row]) == SubLines(rows) + Pieces(row, '\n')
  {
    assert (rows + [row])[..|rows|] == rows;
  }

  lemma RowDone(outLines: seq<string>, rows: seq<string>, row: string, before: seq<string>,
                after: seq<string>, filter: string -> string, keep: string -> bool)
    requires before == outLines + Kept(SubLines(rows), filter, keep)
    requires after == before + Kept(Pieces(row, '\n'), filter, keep)
    ensures after == outLines + Kept(SubLines(rows + [row]), filter, keep)
  {
    KeptAppend(SubLines(rows), Pieces(row, '\n'), filter, keep);
    SubLinesSnoc(rows, row);
  }

  /** The inner loop of GetLines: reads one \r-delimited part line by line
      at each \n. */
  method GetPartLines(str: string, before: seq<string>, filter: string -> string,
                      keep: string -> bool) returns (lines: seq<string>)
    ensures lines == before + Kept(Pieces(str, '\n'), filter, keep)
  {
    lines := before;
    var strContents := str;
    ghost var done: seq<string> := [];
    while strContents != []
      invariant done + Pieces(strContents, '\n') == Pieces(str, '\n')
      invariant lines == before + Kept(done, filter, keep)
      decreases |strContents|
    {
      var (str2, rest2) := NextLine(strContents, '\n');
      PiecesStep(done, strContents, '\n', Pieces(str, '\n'));
      KeptSnoc(done, str2, filter, keep);
      var filtered := filter(str2);
      if keep(filtered) {
        lines := lines + [filtered];
      }
      done := done + [str2];
      strContents := rest2;
    }
    assert done == Pieces(str, '\n');
  }

  /** GetLines: reads the text line by line at each \r, and each of those
      line by line at each \n, appending the filtered lines the predicate
      keeps to outLines. */
  method GetLines(strSrc: string, outLines: seq<string>, filter: string -> string,
                  keep: string -> bool) returns (lines: seq<string>)
    ensures lines == outLines + TextLines(strSrc, filter, keep)
  {
    lines := outLines;
    var streamSrc := strSrc;
    ghost var rows: seq<string> := [];
    while streamSrc != []
      invariant rows + Pieces(streamSrc, '\r') == Pieces(strSrc, '\r')
      invariant lines == outLines + Kept(SubLines(rows), filter, keep)
      decreases |streamSrc|
    {
      var (str, rest) := NextLine(streamSrc, '\r');
      PiecesStep(rows, streamSrc, '\r', Pieces(strSrc, '\r'));
      ghost var before := lines;
      lines := GetPartLines(str, lines, filter, keep);
      RowDone(outLines, rows, str, before, lines, filter, keep);
      rows := rows + [str];
      streamSrc := rest;
    }
    assert rows == Pieces(strSrc, '\r');
  }

  // ---------------------------------------------------------------------
  // Splitting (Utils.cpp:132-166)

  lemma {:induction false} IndexOfAfter(a: string, d: char, b: string)
    requires d !in a
    ensures IndexOf(a + [d] + b, d) == |a|
  {
    if a != [] {
      assert (a + [d] + b)[1..] == a[1..] + [d] + b;
      IndexOfAfter(a[1..], d, b);
    }
  }

  /** SplitFirst at the first delim: the text before it and the text after
      it. Without a delim the code builds the second part from one past the
      end, which is undefined; the model gives the empty text. */
  function SplitFirst(src: string, delim: char): (r: (string, string))
    ensures delim !in r.0
    ensures delim in src ==> r.0 + [delim] + r.1 == src
    ensures delim !in src ==> r.0 == src && r.1 == []
  {
    var loc := IndexOf(src, delim);
    if loc < |src| then
      assert src == src[..loc] + [delim] + src[loc + 1..];
      (src[..loc], src[loc + 1..])
    else
      assert src[..loc] == src;
      (src, [])
  }

  /** Splitting a joined pair gives the pair back. */
  lemma SplitFirstJoin(a: string, b: string, delim: char)
    requires delim !in a
    ensures SplitFirst(a + [delim] + b, delim) == (a, b)
  {
    var s := a + [delim] + b;
    IndexOfAfter(a, delim, b);
    assert s[..|a|] == a;
    assert s[|a| + 1..] == b;
  }

  /** The word contains no character the splitter splits at. */
  predicate NoSplitChars(w: string, shouldSplitAt: char -> bool)
  {
    forall i :: 0 <= i < |w| ==> !shouldSplitAt(w[i])
  }

  predicate IsWord(w: string, shouldSplitAt: char -> bool)
  {
    w != [] && NoSplitChars(w, shouldSplitAt)
  }

  /** The word list with c added to its last word. */
  function Extend(ws: seq<string>, c: char): seq<string>
    requires ws != []
  {
    ws[..|ws| - 1] + [ws[|ws| - 1] + [c]]
  }

  /** The words Split appends, read from left to right: a splitting
      character ends the current word, and any other character extends the
      current word or starts a new one. */
  function Words(s: string, shouldSplitAt: char -> bool): (r: seq<string>)
    ensures forall k :: 0 <= k < |r| ==> IsWord(r[k], shouldSplitAt)
    ensures s != [] && !shouldSplitAt(s[|s| - 1]) ==> r != []
  {
    if s == [] then []
    else
      var p := Words(s[..|s| - 1], shouldSplitAt);
      var c := s[|s| - 1];
      if shouldSplitAt(c) then p
      else if |s| > 1 && !shouldSplitAt(s[|s| - 2]) then
        assert s[..|s| - 1][|s| - 2] == s[|s| - 2];
        Extend(p, c)
      else p + [[c]]
  }

  /** One more character: it ends, extends or starts a word. */
  lemma WordsSnoc(s: string, c: char, shouldSplitAt: char -> bool)
    ensures Words(s + [c], shouldSplitAt) ==
              if shouldSplitAt(c) then Words(s, shouldSplitAt)
              else if s != [] && !shouldSplitAt(s[|s| - 1]) then Extend(Words(s, shouldSplitAt), c)
              else Words(s, shouldSplitAt) + [[c]]
  {
    assert (s + [c])[..|s|] == s;
    if s != [] {
      assert (s + [c])[|s| - 1] == s[|s| - 1];
    }
  }

  lemma ExtendAppend(a: seq<string>, b: seq<string>, c: char)
    requires b != []
    ensures Extend(a + b, c) == a + Extend(b, c)
  {
    assert (a + b)[..|a + b| - 1] == a + b[..|b| - 1];
  }

  /** The text with the splitting characters taken out. */
  function Unsplit(s: string, shouldSplitAt: char -> bool): string
  {
    if s == [] then []
    else Unsplit(s[..|s| - 1], shouldSplitAt) + (if shouldSplitAt(s[|s| - 1]) then [] else [s[|s| - 1]])
  }

  function Concat(ws: seq<string>): string
  {
    if ws == [] then [] else Concat(ws[..|ws| - 1]) + ws[|ws| - 1]
  }

  lemma ConcatExtend(ws: seq<string>, c: char)
    requires ws != []
    ensures Concat(Extend(ws, c)) == Concat(ws) + [c]
  {
    var e := Extend(ws, c);
    assert e[..|e| - 1] == ws[..|ws| - 1];
  }

  lemma ConcatSnoc(ws: seq<string>, w: string)
    ensures Concat(ws + [w]) == Concat(ws) + w
  {
    assert (ws + [w])[..|ws|] == ws;
  }

  /** The words hold every other character of the text, in order. */
  lemma {:induction false} WordsCover(s: string, shouldSplitAt: char -> bool)
    ensures Concat(Words(s, shouldSplitAt)) == Unsplit(s, shouldSplitAt)
  {
    if s != [] {
      var p := s[..|s| - 1];
      var c := s[|s| - 1];
      assert s == p + [c];
      WordsCover(p, shouldSplitAt);
      WordsSnoc(p, c, shouldSplitAt);
      if !shouldSplitAt(c) {
        if p != [] && !shouldSplitAt(p[|p| - 1]) {
          ConcatExtend(Words(p, shouldSplitAt), c);
        } else {
          ConcatSnoc(Words(p, shouldSplitAt), [c]);
        }
      }
    }
  }

  /** A text with no splitting character is one word. */
  lemma {:induction false} WordsOfWord(w: string, shouldSplitAt: char -> bool)
    requires IsWord(w, shouldSplitAt)
    ensures Words(w, shouldSplitAt) == [w]
  {
    var p := w[..|w| - 1];
    var x := w[|w| - 1];
    assert w == p + [x];
    assert !shouldSplitAt(x);
    WordsSnoc(p, x, shouldSplitAt);
    if p == [] {
      assert Words(p, shouldSplitAt) == [];
    } else {
      assert IsWord(p, shouldSplitAt) by {
        assert forall i :: 0 <= i < |p| ==> p[i] == w[i];
      }
      WordsOfWord(p, shouldSplitAt);
      assert !shouldSplitAt(p[|p| - 1]) by { assert p[|p| - 1] == w[|w| - 2]; }
      ExtendSingle(p, x);
    }
  }

  lemma ExtendSingle(p: string, x: char)
    ensures Extend([p], x) == [p + [x]]
  {
  }

  /** A splitting character separates the words on its two sides: the words
      are the maximal runs between splitting characters. */
  lemma {:induction false} WordsJoin(a: string, c: char, b: string, shouldSplitAt: char -> bool)
    requires shouldSplitAt(c)
    ensures Words(a + [c] + b, shouldSplitAt) == Words(a, shouldSplitAt) + Words(b, shouldSplitAt)
    decreases |b|
  {
    if b == [] {
      assert a + [c] + b == a + [c];
      WordsSnoc(a, c, shouldSplitAt);
    } else {
      var b' := b[..|b| - 1];
      var x := b[|b| - 1];
      var l := a + [c] + b';
      assert b == b' + [x];
      assert a + [c] + b == l + [x];
      WordsJoin(a, c, b', shouldSplitAt);
      WordsSnoc(l, x, shouldSplitAt);
      WordsSnoc(b', x, shouldSplitAt);
      if b' == [] {
        assert l[|l| - 1] == c;
      } else {
        assert l[|l| - 1] == b'[|b'| - 1];
        if !shouldSplitAt(x) && !shouldSplitAt(b'[|b'| - 1]) {
          ExtendAppend(Words(a, shouldSplitAt), Words(b', shouldSplitAt), x);
        }
      }
    }
  }

  /** Split: appends the words of the text to result. */
  method Split(src: string, result0: seq<string>, shouldSplitAt: char -> bool)
    returns (result: seq<string>)
    ensures result == result0 + Words(src, shouldSplitAt)
  {
    result := result0;
    var startedWord := false;
    for i := 0 to |src|
      invariant result == result0 + Words(src[..i], shouldSplitAt)
      invariant startedWord <==> i > 0 && !shouldSplitAt(src[i - 1])
    {
      ghost var w := Words(src[..i], shouldSplitAt);
      assert src[..i + 1] == src[..i] + [src[i]];
      WordsSnoc(src[..i], src[i], shouldSplitAt);
      if startedWord {
        if shouldSplitAt(src[i]) {
          startedWord := false;
        } else {
          ExtendAppend(result0, w, src[i]);
          ExtendLast(result, src[i]);
          result := result[|result| - 1 := result[|result| - 1] + [src[i]]];
        }
      } else {
        if !shouldSplitAt(src[i]) {
          startedWord := true;
          StartWord(result, src[i]);
          result := result + [[]];
          result := result[|result| - 1 := result[|result| - 1] + [src[i]]];
        }
      }
    }
    assert src[..|src|] == src;
  }

  /** Adding to the last word in place is Extend. */
  lemma ExtendLast(ws: seq<string>, c: char)
    requires ws != []
    ensures ws[|ws| - 1 := ws[|ws| - 1] + [c]] == Extend(ws, c)
  {
  }

  /** Starting an empty word and adding c to it appends the word [c]. */
  lemma StartWord(ws: seq<string>, c: char)
    ensures (ws + [[]])[|ws| := [] + [c]] == ws + [[c]]
  {
    assert [] + [c] == [c];
  }
}
