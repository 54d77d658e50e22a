/** The line loop that WFCtile's settings readers share (InputFile.cpp,
    OutputFile.cpp, EdgeData.cpp and the key/value part of TileFIle.cpp):
    each line is trimmed and cut at "//", blank lines are skipped, and the
    rest is split at its first ':' into a key and a value that the reader
    applies to what it has built so far, stopping at the first failure. */
module WfcTileKeyValues {
  import opened Common
  import opened WfcTileUtils

  /** A key and its value. */
  type Entry = (string, string)

  /** What a settings line becomes: None for a blank or comment-only line,
      otherwise the text before the first ':' and the text after it. */
  function SettingsEntry(line: string): (r: Option<Entry>)
    ensures r.None? <==> CleanLine(line, "//") == []
    ensures r.Some? ==> ':' !in r.value.0
  {
    var l := CleanLine(line, "//");
    if l == [] then None else Some(SplitFirst(l, ':'))
  }

  /** The entries of the lines, in order. */
  function SettingsEntries(lines: seq<string>): (r: seq<Option<Entry>>)
    ensures |r| == |lines|
    ensures forall k :: 0 <= k < |lines| ==> r[k] == SettingsEntry(lines[k])
  {
    if lines == [] then [] else [SettingsEntry(lines[0])] + SettingsEntries(lines[1..])
  }

  /** The entries applied in order to the value built so far; the first
      failure ends the reading. */
  function Fold<T>(t: T, entries: seq<Option<Entry>>, apply: (T, string, string) -> Parsed<T>): Parsed<T>
  {
    if entries == [] then Ok(t)
    else match entries[0]
      case None => Fold(t, entries[1..], apply)
      case Some(kv) =>
        match apply(t, kv.0, kv.1)
        case Failed(c) => Failed(c)
        case Ok(u) => Fold(u, entries[1..], apply)
  }

  /** Reading the entries of a + b is reading a, then b from there. */
  lemma {:induction false} FoldAppend<T>(t: T, a: seq<Option<Entry>>, b: seq<Option<Entry>>,
                                         apply: (T, string, string) -> Parsed<T>)
    ensures Fold(t, a + b, apply) ==
              match Fold(t, a, apply)
              case Ok(u) => Fold(u, b, apply)
              case Failed(c) => Failed(c)
  {
    if a != [] {
      assert (a + b)[0] == a[0];
      assert (a + b)[1..] == a[1..] + b;
      match a[0]
      case None =>
        FoldAppend(t, a[1..], b, apply);
      case Some(kv) =>
        if apply(t, kv.0, kv.1).Ok? {
          FoldAppend(apply(t, kv.0, kv.1).value, a[1..], b, apply);
        }
    } else {
      assert a + b == b;
    }
  }

  /** A blank or comment-only line anywhere changes nothing. */
  lemma FoldSkipsBlank<T>(t: T, a: seq<Option<Entry>>, b: seq<Option<Entry>>,
                          apply: (T, string, string) -> Parsed<T>)
    ensures Fold(t, a + [None] + b, apply) == Fold(t, a + b, apply)
  {
    assert a + [None] + b == a + ([None] + b);
    FoldAppend(t, a, [None] + b, apply);
    FoldAppend(t, a, b, apply);
    if Fold(t, a, apply).Ok? {
      var u := Fold(t, a, apply).value;
      assert ([None] + b)[0] == None;
      assert ([None] + b)[1..] == b;
      assert Fold(u, [None] + b, apply) == Fold(u, b, apply);
    }
  }

  /** The entry keeps the property whenever it applies cleanly. */
  ghost predicate EntryKeeps<T(!new)>(apply: (T, string, string) -> Parsed<T>, p: T -> bool, kv: Entry)
  {
    forall u :: p(u) && apply(u, kv.0, kv.1).Ok? ==> p(apply(u, kv.0, kv.1).value)
  }

  /** A property that holds at the start and that every entry keeps holds of
      the result. */
  lemma {:induction false} FoldKeeps<T(!new)>(t: T, entries: seq<Option<Entry>>,
                                        apply: (T, string, string) -> Parsed<T>, p: T -> bool)
    requires p(t)
    requires forall k :: 0 <= k < |entries| && entries[k].Some? ==> EntryKeeps(apply, p, entries[k].value)
    ensures Fold(t, entries, apply).Ok? ==> p(Fold(t, entries, apply).value)
  {
    if entries != [] {
      assert forall k :: 0 <= k < |entries| - 1 ==> entries[1..][k] == entries[k + 1];
      match entries[0]
      case None =>
        FoldKeeps(t, entries[1..], apply, p);
      case Some(kv) =>
        assert EntryKeeps(apply, p, kv);
        if apply(t, kv.0, kv.1).Ok? {
          FoldKeeps(apply(t, kv.0, kv.1).value, entries[1..], apply, p);
        }
    }
  }

  /** Every failure of the reading is a failure of one of its entries. */
  lemma {:induction false} FoldFailure<T>(t: T, entries: seq<Option<Entry>>,
                                          apply: (T, string, string) -> Parsed<T>, codes: set<int>)
    requires forall u, k, v :: apply(u, k, v).Failed? ==> apply(u, k, v).code in codes
    ensures Fold(t, entries, apply).Failed? ==> Fold(t, entries, apply).code in codes
  {
    if entries != [] {
      match entries[0]
      case None =>
        FoldFailure(t, entries[1..], apply, codes);
      case Some(kv) =>
        if apply(t, kv.0, kv.1).Ok? {
          FoldFailure(apply(t, kv.0, kv.1).value, entries[1..], apply, codes);
        }
    }
  }

  /** Reading one more line takes its entry off the front of the rest. */
  lemma SettingsStep(unread: string)
    requires unread != []
    ensures SettingsEntries(Pieces(unread, '\n'))
            == [SettingsEntry(NextLine(unread, '\n').0)] + SettingsEntries(Pieces(NextLine(unread, '\n').1, '\n'))
  {
    assert Pieces(unread, '\n') == [NextLine(unread, '\n').0] + Pieces(NextLine(unread, '\n').1, '\n');
  }
  /** No entry has the key. */
  predicate KeyAbsent(entries: seq<Option<Entry>>, key: string)
  {
    forall k :: 0 <= k < |entries| && entries[k].Some? ==> entries[k].value.0 != key
  }

  /** The value of the last entry with the key. */
  function LastValue(entries: seq<Option<Entry>>, key: string): (r: Option<string>)
    ensures r.None? <==> KeyAbsent(entries, key)
  {
    if entries == [] then None
    else
      var e := entries[|entries| - 1];
      if e.Some? && e.value.0 == key then Some(e.value.1)
      else
        var r := LastValue(entries[..|entries| - 1], key);
        assert KeyAbsent(entries[..|entries| - 1], key) <==> KeyAbsent(entries, key) by {
          if KeyAbsent(entries[..|entries| - 1], key) {
            forall k | 0 <= k < |entries| && entries[k].Some?
              ensures entries[k].value.0 != key
            {
              if k < |entries| - 1 {
                assert entries[..|entries| - 1][k] == entries[k];
              }
            }
          }
        }
        r
  }

  /** Lines that are all blank or comments leave the start value as it is. */
  lemma {:induction false} FoldAllBlank<T>(t: T, entries: seq<Option<Entry>>,
                                           apply: (T, string, string) -> Parsed<T>)
    requires forall k :: 0 <= k < |entries| ==> entries[k].None?
    ensures Fold(t, entries, apply) == Ok(t)
  {
    if entries != [] {
      assert forall k :: 0 <= k < |entries| - 1 ==> entries[1..][k] == entries[k + 1];
      FoldAllBlank(t, entries[1..], apply);
    }
  }
  /** A field that only its own key sets ends with the value of the last
      line that has the key, or keeps its start value when none does. */
  lemma {:induction false} FoldLastField<T(!new), V(!new)>(t: T, entries: seq<Option<Entry>>,
      apply: (T, string, string) -> Parsed<T>, key: string, get: T -> V, parse: string -> Option<V>)
    requires forall u, v :: apply(u, key, v).Ok? ==> parse(v).Some? && get(apply(u, key, v).value) == parse(v).value
    requires forall u, k, v :: k != key && apply(u, k, v).Ok? ==> get(apply(u, k, v).value) == get(u)
    ensures Fold(t, entries, apply).Ok? && LastValue(entries, key).None? ==>
              get(Fold(t, entries, apply).value) == get(t)
    ensures Fold(t, entries, apply).Ok? && LastValue(entries, key).Some? ==>
              parse(LastValue(entries, key).value) == Some(get(Fold(t, entries, apply).value))
    decreases |entries|
  {
    if entries != [] {
      var init := entries[..|entries| - 1];
      var e := entries[|entries| - 1];
      assert entries == init + [e];
      FoldAppend(t, init, [e], apply);
      FoldLastField(t, init, apply, key, get, parse);
      if Fold(t, init, apply).Ok? {
        var u := Fold(t, init, apply).value;
        assert [e][1..] == [];
        match e
        case None =>
        case Some(kv) =>
      }
    }
  }
}
