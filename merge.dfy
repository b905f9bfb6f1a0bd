/**
 The merge (`main` in merge_vtt.py, `merge_transcripts` in transcribe.py):
 parse every subtitle file of a folder, concatenate the entries in the order
 the folder listing gives the files, sort them stably by the numeric start
 time, and lay them out as a table under the header row `Time, Speaker, Text`.
 */
module Merge {
  import opened Results
  import opened Strings
  import opened Timestamps
  import opened VttParser
  import opened StableSort

  /**
   Why the merge gives no table: the path is not a directory (the source
   prints a message and exits or returns), or an entry's time is not a
   timestamp `time_to_seconds` accepts (the source raises ValueError).
   */
  datatype MergeError = NotADirectory | MalformedTime(time: string)

  type Row = seq<string>

  const Header: Row := ["Time", "Speaker", "Text"]

  /** The entries of all files, file after file, each file's in parse order. */
  function AllEntries(files: seq<VttFile>): seq<Entry>
    decreases |files|
  {
    if files == [] then [] else AllEntries(files[..|files| - 1]) + Parse(files[|files| - 1])
  }

  /** The sort key of an entry: `time_to_seconds` of its time, in milliseconds. */
  function TimeKey(e: Entry): Option<int> {
    match TimeToMillis(e.time)
    case None => None
    case Some(m) => Some(m)
  }

  /**
   `sorted(es, key=lambda x: time_to_seconds(x[0]))`; the first entry whose
   time does not convert makes it raise.
   */
  function SortEntries(es: seq<Entry>): Result<seq<Entry>, MergeError> {
    match SortedBy(es, TimeKey)
    case Err(e) => Err(MalformedTime(e.time))
    case Ok(s) => Ok(s)
  }

  function EntryRow(e: Entry): Row {
    [e.time, e.speaker, e.text]
  }

  /** The rows `writerows` writes: one per entry, the raw time string first. */
  function EntryRows(es: seq<Entry>): seq<Row>
    decreases |es|
  {
    if es == [] then [] else [EntryRow(es[0])] + EntryRows(es[1..])
  }

  /** The table of a list of entries: the header row and then one row per sorted entry. */
  function Table(all: seq<Entry>): Result<seq<Row>, MergeError> {
    match SortEntries(all)
    case Err(e) => Err(e)
    case Ok(sorted) => Ok([Header] + EntryRows(sorted))
  }

  /** What the merge writes for a folder. */
  function Merge(isDir: bool, files: seq<VttFile>): Result<seq<Row>, MergeError> {
    if !isDir then Err(NotADirectory) else Table(AllEntries(files))
  }

  /**
   The merge as the source runs it: a loop that parses each file and extends
   the list of all entries, then the sort and the table.
   */
  method MergeTranscripts(isDir: bool, files: seq<VttFile>) returns (r: Result<seq<Row>, MergeError>)
    ensures r == Merge(isDir, files)
  {
    if !isDir {
      return Err(NotADirectory);
    }
    var all: seq<Entry> := [];
    var k := 0;
    while k < |files|
      invariant k <= |files|
      invariant all == AllEntries(files[..k])
    {
      var entries := ParseVtt(files[k]);
      assert files[..k + 1][..k] == files[..k];
      all := all + entries;
      k := k + 1;
    }
    assert files[..k] == files;
    match SortEntries(all)
    case Err(e) =>
      r := Err(e);
    case Ok(sorted) =>
      r := Ok([Header] + EntryRows(sorted));
  }

  // ---- What the merge promises ----

  /** The rows are the entries, one row each, in order. */
  lemma {:induction false} EntryRowsShape(es: seq<Entry>)
    ensures |EntryRows(es)| == |es|
    ensures forall i :: 0 <= i < |es| ==> EntryRows(es)[i] == EntryRow(es[i])
    decreases |es|
  {
    if es != [] {
      EntryRowsShape(es[1..]);
      assert forall i :: 1 <= i < |es| ==> EntryRows(es)[i] == EntryRows(es[1..])[i - 1];
    }
  }

  /** The entries of the files are those of each file one after the other, each file's in parse order. */
  lemma {:induction false} AllEntriesFrom(files: seq<VttFile>, e: Entry)
    ensures e in AllEntries(files) <==> exists k :: 0 <= k < |files| && e in Parse(files[k])
    decreases |files|
  {
    if files != [] {
      var init := files[..|files| - 1];
      AllEntriesFrom(init, e);
      if e in Parse(files[|files| - 1]) {
        assert 0 <= |files| - 1 < |files|;
      }
      if exists k :: 0 <= k < |init| && e in Parse(init[k]) {
        var k :| 0 <= k < |init| && e in Parse(init[k]);
        assert init[k] == files[k];
      }
      if exists k :: 0 <= k < |files| && e in Parse(files[k]) {
        var k :| 0 <= k < |files| && e in Parse(files[k]);
        if k < |files| - 1 {
          assert files[k] == init[k];
        }
      }
    }
  }

  /** Every entry of the merge comes from one of the files, with that file's stem as speaker. */
  lemma AllEntriesFacts(files: seq<VttFile>)
    ensures forall e :: e in AllEntries(files) ==>
      IsCueHeader(e.time) && IsStripped(e.text) && exists k :: 0 <= k < |files| && e.speaker == files[k].stem
  {
    forall e | e in AllEntries(files)
      ensures IsCueHeader(e.time) && IsStripped(e.text) && exists k :: 0 <= k < |files| && e.speaker == files[k].stem
    {
      AllEntriesFrom(files, e);
      var k :| 0 <= k < |files| && e in Parse(files[k]);
      var _ := ParseProperties(files[k]);
      var r := Parse(files[k]);
      var n :| 0 <= n < |r| && r[n] == e;
    }
  }

  /**
   The sort succeeds exactly when every time converts; then it is a
   permutation of the entries, ordered by time, and entries with equal
   times keep their relative order.
   */
  lemma SortEntriesSpec(es: seq<Entry>)
    ensures SortEntries(es).Ok? <==> forall i :: 0 <= i < |es| ==> TimeKey(es[i]).Some?
    ensures SortEntries(es).Ok? ==>
      var s := SortEntries(es).value;
      && multiset(s) == multiset(es)
      && (forall i :: 0 <= i < |s| ==> TimeKey(s[i]).Some?)
      && (forall i, j :: 0 <= i < j < |s| ==> TimeKey(s[i]).value <= TimeKey(s[j]).value)
      && (forall m :: ItemsAt(s, TimeKey, m) == ItemsAt(es, TimeKey, m))
  {
    SortedBySpec(es, TimeKey);
  }

  /** Those properties fix the sorted entries: no other order meets them. */
  lemma SortEntriesUnique(es: seq<Entry>, s: seq<Entry>)
    requires SortEntries(es).Ok?
    requires forall i :: 0 <= i < |s| ==> TimeKey(s[i]).Some?
    requires forall i, j :: 0 <= i < j < |s| ==> TimeKey(s[i]).value <= TimeKey(s[j]).value
    requires forall m :: ItemsAt(s, TimeKey, m) == ItemsAt(es, TimeKey, m)
    ensures s == SortEntries(es).value
  {
    SortedByUnique(es, TimeKey, s);
  }

  /** The first entry whose time does not convert is the one reported. */
  lemma SortEntriesFirstError(es: seq<Entry>, i: nat)
    requires i < |es| && TimeKey(es[i]).None?
    requires forall j :: 0 <= j < i ==> TimeKey(es[j]).Some?
    ensures SortEntries(es) == Err(MalformedTime(es[i].time))
  {
    KeyAllFirstError(es, TimeKey, i);
  }

  /**
   A table is made exactly when every entry's time converts; otherwise the
   first entry whose time does not convert is reported.
   */
  lemma TableOutcome(all: seq<Entry>)
    ensures Table(all).Ok? <==> forall i :: 0 <= i < |all| ==> TimeKey(all[i]).Some?
    ensures forall i ::
      (&& 0 <= i < |all| && TimeKey(all[i]).None?
       && forall j :: 0 <= j < i ==> TimeKey(all[j]).Some?) ==>
      Table(all) == Err(MalformedTime(all[i].time))
  {
    SortEntriesSpec(all);
    forall i | 0 <= i < |all| && TimeKey(all[i]).None? && (forall j :: 0 <= j < i ==> TimeKey(all[j]).Some?)
      ensures Table(all) == Err(MalformedTime(all[i].time))
    {
      SortEntriesFirstError(all, i);
    }
  }

  /**
   A table starts with the header row and has one more row than there are
   entries; its rows are the entries sorted stably by time, each laid out as
   time, speaker, text.
   */
  lemma TableRows(all: seq<Entry>)
    requires Table(all).Ok?
    ensures var t := Table(all).value;
      && |t| == |all| + 1
      && t[0] == Header
      && exists s :: t[1..] == EntryRows(s) && multiset(s) == multiset(all)
           && (forall i :: 0 <= i < |s| ==> TimeKey(s[i]).Some?)
           && (forall i, j :: 0 <= i < j < |s| ==> TimeKey(s[i]).value <= TimeKey(s[j]).value)
           && (forall m :: ItemsAt(s, TimeKey, m) == ItemsAt(all, TimeKey, m))
  {
    var t := Table(all).value;
    SortEntriesSpec(all);
    var s := SortEntries(all).value;
    EntryRowsShape(s);
    assert |s| == |all| by {
      assert |multiset(s)| == |multiset(all)|;
    }
    assert t[1..] == EntryRows(s);
  }

  /** The rows below the header are entries of the input whose times convert. */
  lemma TableEntries(all: seq<Entry>)
    requires Table(all).Ok?
    ensures var t := Table(all).value;
      forall i :: 1 <= i < |t| ==> exists e :: e in all && t[i] == EntryRow(e) && TimeKey(e).Some?
  {
    var t := Table(all).value;
    SortEntriesSpec(all);
    var s := SortEntries(all).value;
    EntryRowsShape(s);
    forall i | 1 <= i < |t|
      ensures t[i] == EntryRow(s[i - 1]) && s[i - 1] in all && TimeKey(s[i - 1]).Some?
    {
      assert s[i - 1] in multiset(all);
    }
  }

  /** Read by `time_to_seconds`, the times of the rows never decrease down the table. */
  lemma TableOrdered(all: seq<Entry>)
    requires Table(all).Ok?
    ensures var t := Table(all).value;
      && (forall i :: 1 <= i < |t| ==> |t[i]| == 3 && TimeToMillis(t[i][0]).Some?)
      && (forall i, j :: 1 <= i < j < |t| ==> TimeToMillis(t[i][0]).value <= TimeToMillis(t[j][0]).value)
  {
    var t := Table(all).value;
    SortEntriesSpec(all);
    var s := SortEntries(all).value;
    EntryRowsShape(s);
    assert forall i :: 1 <= i < |t| ==> t[i] == EntryRow(s[i - 1]);
  }

  /**
   A path that is not a directory is reported before anything is parsed;
   for a directory the merge is the table of all entries of its files.
   */
  lemma MergeOutcome(isDir: bool, files: seq<VttFile>)
    ensures !isDir ==> Merge(isDir, files) == Err(NotADirectory)
    ensures Merge(isDir, files).Ok? <==>
      isDir && forall i :: 0 <= i < |AllEntries(files)| ==> TimeKey(AllEntries(files)[i]).Some?
  {
    if isDir {
      TableOutcome(AllEntries(files));
    }
  }

  /**
   Every row of a merged table below the header holds a cue's start time,
   the stem of one of the files as speaker and a stripped text.
   */
  lemma MergeRows(isDir: bool, files: seq<VttFile>)
    requires Merge(isDir, files).Ok?
    ensures var t := Merge(isDir, files).value;
      forall i :: 1 <= i < |t| ==>
        && |t[i]| == 3
        && IsCueHeader(t[i][0])
        && IsStripped(t[i][2])
        && exists k :: 0 <= k < |files| && t[i][1] == files[k].stem
  {
    var all := AllEntries(files);
    TableEntries(all);
    AllEntriesFacts(files);
  }

  /** An empty folder gives the header row alone. */
  lemma EmptyFolder()
    ensures Merge(true, []) == Ok([Header])
  {
    assert AllEntries([]) == [];
    assert KeyAll([], TimeKey) == Ok([]);
    assert SortByKey<Entry>([]) == [];
    assert Items<Entry>([]) == [];
    assert SortedBy<Entry>([], TimeKey) == Ok([]);
    assert SortEntries([]) == Ok([]);
    assert EntryRows([]) == [];
    assert [Header] + [] == [Header];
  }

  /**
   Entries are ordered by the value of their time, whatever its form, and
   entries whose times are equal (`01:02.003` and `00:01:02.003`) stay in the
   order the files gave them.
   */
  lemma SortExample()
    ensures var a := Entry("01:02.003", "alice", "hi");
      var b := Entry("00:" + "01:02.003", "bob", "yo");
      var c := Entry("00:00.500", "bob", "first");
      SortEntries([a, b, c]) == Ok([c, a, b])
  {
    ExampleShort();
    ExampleLong();
    ExampleHalfSecond();
    SortedByThree(Entry("01:02.003", "alice", "hi"), Entry("00:" + "01:02.003", "bob", "yo"),
      Entry("00:00.500", "bob", "first"), TimeKey);
  }
}
