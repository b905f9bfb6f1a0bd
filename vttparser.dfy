/**
 The subtitle parser `parse_vtt`: a scan over the lines of one subtitle file
 that turns each cue header and the non-blank lines under it into an entry
 (start time, speaker, text), dropping a cue whose text repeats the text of
 the last entry kept.
 */
module VttParser {
  import opened Results
  import opened Strings
  import opened Timestamps

  /** The separator between the start and the end time of a cue header. */
  const Arrow: string := " --> "

  /** One cue block as scanned: its start time and its joined text. */
  datatype Cue = Cue(time: string, text: string)

  /** One parsed caption, the tuple `(time, speaker, text)`. */
  datatype Entry = Entry(time: string, speaker: string, text: string)

  /** A subtitle file: its stem (the speaker) and its lines as read. */
  datatype VttFile = VttFile(stem: string, lines: seq<string>)

  /** Length of the timestamp a cue header begins with. */
  function HeaderStampLength(header: string): nat
    requires IsCueHeader(header)
  {
    if MinSecMsAt(header, 0) then 9 else 12
  }

  /** The arrow cannot start inside the timestamp a header begins with. */
  lemma NoArrowInStamp(header: string, k: nat)
    requires IsCueHeader(header) && k < HeaderStampLength(header)
    ensures !OccursAt(header, Arrow, k)
  {
    assert Arrow[0] == ' ';
    assert IsDigit(header[k]) || header[k] == ':' || header[k] == '.';
  }

  /** The start time of a cue header: the stripped text before the first arrow. */
  function StartTime(header: string): string {
    Strip(PrefixBefore(header, Arrow))
  }

  /** The start time of a cue header keeps the timestamp the header begins with. */
  lemma StartTimeIsHeader(header: string)
    requires IsCueHeader(header)
    ensures IsCueHeader(StartTime(header))
    ensures var n := HeaderStampLength(header);
      |StartTime(header)| >= n && StartTime(header)[..n] == header[..n]
  {
    var before := PrefixBefore(header, Arrow);
    PrefixBeforeSpec(header, Arrow);
    var n := HeaderStampLength(header);
    assert |before| >= n by {
      if |before| < n {
        NoArrowInStamp(header, |before|);
      }
    }
    assert before[..n] == header[..n];
    StripKeepsCore(before, n);
    assert StartTime(header)[..n] == header[..n];
  }

  /** A header without an arrow is its own start time, stripped. */
  lemma StartTimeNoArrow(header: string)
    requires forall k :: !OccursAt(header, Arrow, k)
    ensures StartTime(header) == Strip(header)
  {
    PrefixBeforeSpec(header, Arrow);
  }

  /** With an arrow, the start time is the stripped text before the first one. */
  lemma StartTimeBeforeArrow(header: string, k: nat)
    requires OccursAt(header, Arrow, k)
    requires forall j :: 0 <= j < k ==> !OccursAt(header, Arrow, j)
    ensures StartTime(header) == Strip(header[..k])
  {
    var before := PrefixBefore(header, Arrow);
    PrefixBeforeSpec(header, Arrow);
    assert before == header[..k];
  }

  predicate IsBlank(line: string) {
    Strip(line) == ""
  }

  /** The first blank line at or after `j`, or the end of the file. */
  function BlockEnd(lines: seq<string>, j: nat): (e: nat)
    requires j <= |lines|
    ensures j <= e <= |lines|
    decreases |lines| - j
  {
    if j == |lines| || IsBlank(lines[j]) then j else BlockEnd(lines, j + 1)
  }

  /** A block runs up to the first blank line or the end of the file, and holds no blank line. */
  lemma {:induction false} BlockEndSpec(lines: seq<string>, j: nat)
    requires j <= |lines|
    ensures var e := BlockEnd(lines, j);
      && (e == |lines| || IsBlank(lines[e]))
      && (forall k :: j <= k < e ==> !IsBlank(lines[k]))
    decreases |lines| - j
  {
    if j < |lines| && !IsBlank(lines[j]) {
      BlockEndSpec(lines, j + 1);
    }
  }

  /** The lines `j` to `e` (exclusive), each stripped. */
  function StrippedLines(lines: seq<string>, j: nat, e: nat): seq<string>
    requires j <= e <= |lines|
    decreases e
  {
    if e == j then [] else StrippedLines(lines, j, e - 1) + [Strip(lines[e - 1])]
  }

  /** The text of the block that starts at line `j`: its lines stripped and joined with spaces. */
  function BlockText(lines: seq<string>, j: nat): string
    requires j <= |lines|
  {
    JoinWith(StrippedLines(lines, j, BlockEnd(lines, j)), " ")
  }

  /** The cue whose header is line `i`. */
  function HeaderCue(lines: seq<string>, i: nat): Cue
    requires i < |lines|
  {
    Cue(StartTime(Strip(lines[i])), BlockText(lines, i + 1))
  }

  /**
   The cues from line `i` on. A header consumes every following non-blank
   line as text, whatever those lines look like, and the blank line that
   ends the block; any other line is skipped.
   */
  function Scan(lines: seq<string>, i: nat): (cues: seq<Cue>)
    decreases |lines| - i
  {
    if i >= |lines| then []
    else
      var line := Strip(lines[i]);
      if IsCueHeader(line) then
        [HeaderCue(lines, i)] + Scan(lines, BlockEnd(lines, i + 1) + 1)
      else
        Scan(lines, i + 1)
  }

  /**
   Drops every cue whose text equals the text of the last cue kept; `prev`
   is that text (`None` before the first).
   */
  function DropRepeats(cues: seq<Cue>, prev: Option<string>): (kept: seq<Cue>) {
    if cues == [] then []
    else if Some(cues[0].text) == prev then DropRepeats(cues[1..], prev)
    else [cues[0]] + DropRepeats(cues[1..], Some(cues[0].text))
  }

  function WithSpeaker(speaker: string, cues: seq<Cue>): seq<Entry> {
    seq(|cues|, i requires 0 <= i < |cues| => Entry(cues[i].time, speaker, cues[i].text))
  }

  /** What `parse_vtt` returns for a file. */
  function Parse(file: VttFile): seq<Entry> {
    WithSpeaker(file.stem, DropRepeats(Scan(file.lines, 0), None))
  }

  /** The text kept last, which is what a new cue is compared against. */
  function LastText(kept: seq<Cue>): Option<string> {
    if kept == [] then None else Some(kept[|kept| - 1].text)
  }

  lemma DropRepeatsCons(c: Cue, rest: seq<Cue>, prev: Option<string>)
    ensures DropRepeats([c] + rest, prev)
         == if Some(c.text) == prev then DropRepeats(rest, prev) else [c] + DropRepeats(rest, Some(c.text))
  {
    assert ([c] + rest)[1..] == rest;
  }

  lemma WithSpeakerAppend(speaker: string, kept: seq<Cue>, c: Cue)
    ensures WithSpeaker(speaker, kept + [c]) == WithSpeaker(speaker, kept) + [Entry(c.time, speaker, c.text)]
  {
  }

  lemma ScanSkips(lines: seq<string>, i: nat)
    requires i < |lines| && !IsCueHeader(Strip(lines[i]))
    ensures Scan(lines, i) == Scan(lines, i + 1)
  {
  }

  lemma ScanTakesCue(lines: seq<string>, i: nat)
    requires i < |lines| && IsCueHeader(Strip(lines[i]))
    ensures Scan(lines, i)
         == [HeaderCue(lines, i)] + Scan(lines, BlockEnd(lines, i + 1) + 1)
  {
  }

  /** The same, with the block's end and the cue's parts already computed. */
  lemma ScanTakesBlock(lines: seq<string>, i: nat, e: nat, time: string, text: string)
    requires i < |lines| && IsCueHeader(Strip(lines[i]))
    requires e == BlockEnd(lines, i + 1)
    requires time == StartTime(Strip(lines[i])) && text == JoinWith(StrippedLines(lines, i + 1, e), " ")
    ensures Scan(lines, i) == [Cue(time, text)] + Scan(lines, e + 1)
  {
    ScanTakesCue(lines, i);
    assert HeaderCue(lines, i) == Cue(time, text);
  }

  /** A cue whose text repeats the last text kept adds nothing to what is kept. */
  lemma CueDropped(all: seq<Cue>, kept: seq<Cue>, here: seq<Cue>, c: Cue, rest: seq<Cue>, prev: Option<string>)
    requires here == [c] + rest && all == kept + DropRepeats(here, prev)
    requires Some(c.text) == prev
    ensures all == kept + DropRepeats(rest, prev)
  {
    DropRepeatsCons(c, rest, prev);
  }

  /** A cue with a new text is kept, and its text becomes the one compared against. */
  lemma CueKept(all: seq<Cue>, kept: seq<Cue>, here: seq<Cue>, c: Cue, rest: seq<Cue>, prev: Option<string>)
    requires here == [c] + rest && all == kept + DropRepeats(here, prev)
    requires Some(c.text) != prev
    ensures all == (kept + [c]) + DropRepeats(rest, Some(c.text))
  {
    DropRepeatsCons(c, rest, prev);
    assert kept + ([c] + DropRepeats(rest, Some(c.text))) == (kept + [c]) + DropRepeats(rest, Some(c.text));
  }

  /**
   The inner loop of `parse_vtt`: from line `j`, collects the stripped lines
   up to the next blank line or the end of the file.
   */
  method ReadBlock(lines: seq<string>, j: nat) returns (e: nat, textLines: seq<string>)
    requires j <= |lines|
    ensures e == BlockEnd(lines, j)
    ensures textLines == StrippedLines(lines, j, e)
  {
    e := j;
    textLines := [];
    while e < |lines| && Strip(lines[e]) != ""
      invariant j <= e <= |lines|
      invariant BlockEnd(lines, j) == BlockEnd(lines, e)
      invariant textLines == StrippedLines(lines, j, e)
    {
      textLines := textLines + [Strip(lines[e])];
      e := e + 1;
    }
  }

  /**
   The body of `parse_vtt` for a header line `i`: the start time, then the
   inner loop over the block, then the joined text. The scan goes on after
   the block's end `e`.
   */
  method ReadCue(lines: seq<string>, i: nat) returns (e: nat, c: Cue)
    requires i < |lines| && IsCueHeader(Strip(lines[i]))
    ensures e == BlockEnd(lines, i + 1)
    ensures c == HeaderCue(lines, i)
    ensures Scan(lines, i) == [c] + Scan(lines, e + 1)
  {
    var line := Strip(lines[i]);
    var time := StartTime(line);
    var textLines;
    e, textLines := ReadBlock(lines, i + 1);
    var text := JoinWith(textLines, " ");
    c := Cue(time, text);
    ScanTakesBlock(lines, i, e, time, text);
  }

  /**
   One turn of the loop of `parse_vtt` at line `i`: a header line is read
   with its block and its cue kept unless its text repeats `prevText`; any
   other line is passed over. `kept` is the cues kept so far and `all` what
   the whole file yields.
   */
  method ParseLine(lines: seq<string>, speaker: string, i: nat, entries: seq<Entry>, prevText: Option<string>,
                   ghost all: seq<Cue>, ghost kept: seq<Cue>)
    returns (next: nat, entries': seq<Entry>, prevText': Option<string>, ghost kept': seq<Cue>)
    requires i < |lines|
    requires entries == WithSpeaker(speaker, kept) && prevText == LastText(kept)
    requires all == kept + DropRepeats(Scan(lines, i), prevText)
    ensures i < next <= |lines| + 1
    ensures entries' == WithSpeaker(speaker, kept') && prevText' == LastText(kept')
    ensures all == kept' + DropRepeats(Scan(lines, next), prevText')
  {
    entries', prevText', kept' := entries, prevText, kept;
    var line := Strip(lines[i]);
    if IsCueHeader(line) {
      var e, cue := ReadCue(lines, i);
      next := e + 1;
      if Some(cue.text) != prevText {
        CueKept(all, kept, Scan(lines, i), cue, Scan(lines, next), prevText);
        WithSpeakerAppend(speaker, kept, cue);
        entries' := entries + [Entry(cue.time, speaker, cue.text)];
        kept' := kept + [cue];
        prevText' := Some(cue.text);
      } else {
        CueDropped(all, kept, Scan(lines, i), cue, Scan(lines, next), prevText);
      }
    } else {
      ScanSkips(lines, i);
      next := i + 1;
    }
  }

  /** `parse_vtt` as the source runs it: an index moved over the lines, a header at a time. */
  method ParseVtt(file: VttFile) returns (entries: seq<Entry>)
    ensures entries == Parse(file)
  {
    var lines := file.lines;
    entries := [];
    ghost var all := DropRepeats(Scan(lines, 0), None);
    ghost var kept: seq<Cue> := [];
    var i := 0;
    var prevText: Option<string> := None;
    while i < |lines|
      invariant i <= |lines| + 1
      invariant entries == WithSpeaker(file.stem, kept) && prevText == LastText(kept)
      invariant all == kept + DropRepeats(Scan(lines, i), prevText)
      decreases |lines| + 1 - i
    {
      i, entries, prevText, kept := ParseLine(lines, file.stem, i, entries, prevText, all, kept);
    }
  }

  // ---- What the parse promises ----

  /** No two neighbouring cues share a text. */
  predicate NoAdjacentRepeats(cues: seq<Cue>) {
    forall k :: 0 <= k < |cues| - 1 ==> cues[k].text != cues[k + 1].text
  }

  /** `a` is `b` with some elements left out, the rest in their order. */
  predicate IsSubsequence<T(==)>(a: seq<T>, b: seq<T>)
    decreases |b|
  {
    if b == [] then a == []
    else (a != [] && a[0] == b[0] && IsSubsequence(a[1..], b[1..])) || IsSubsequence(a, b[1..])
  }

  /**
   After dropping, no two neighbouring cues share a text, and the first one
   kept differs from the text compared against at the start.
   */
  lemma {:induction false} DropRepeatsNoAdjacent(cues: seq<Cue>, prev: Option<string>)
    ensures var r := DropRepeats(cues, prev);
      NoAdjacentRepeats(r) && (r != [] ==> Some(r[0].text) != prev)
    decreases |cues|
  {
    if cues != [] {
      if Some(cues[0].text) == prev {
        DropRepeatsNoAdjacent(cues[1..], prev);
      } else {
        DropRepeatsNoAdjacent(cues[1..], Some(cues[0].text));
        var rest := DropRepeats(cues[1..], Some(cues[0].text));
        var r := DropRepeats(cues, prev);
        assert r == [cues[0]] + rest;
        forall k | 0 <= k < |r| - 1
          ensures r[k].text != r[k + 1].text
        {
          if k > 0 {
            assert r[k] == rest[k - 1] && r[k + 1] == rest[k];
          }
        }
      }
    }
  }

  /** Dropping only leaves cues out: what is kept is in the order the file gives. */
  lemma {:induction false} DropRepeatsSubsequence(cues: seq<Cue>, prev: Option<string>)
    ensures IsSubsequence(DropRepeats(cues, prev), cues)
    decreases |cues|
  {
    if cues != [] {
      if Some(cues[0].text) == prev {
        DropRepeatsSubsequence(cues[1..], prev);
      } else {
        DropRepeatsSubsequence(cues[1..], Some(cues[0].text));
        var r := DropRepeats(cues, prev);
        assert r[1..] == DropRepeats(cues[1..], Some(cues[0].text));
      }
    }
  }

  /**
   Nothing is dropped from cues that have no neighbouring repeats and do not
   start with the text compared against: a text that comes back after a
   different one (A, B, A) is kept each time.
   */
  lemma {:induction false} DropRepeatsKeepsDistinct(cues: seq<Cue>, prev: Option<string>)
    requires NoAdjacentRepeats(cues)
    requires cues != [] ==> Some(cues[0].text) != prev
    ensures DropRepeats(cues, prev) == cues
    decreases |cues|
  {
    if cues != [] {
      var rest := cues[1..];
      assert NoAdjacentRepeats(rest) by {
        forall k | 0 <= k < |rest| - 1
          ensures rest[k].text != rest[k + 1].text
        {
          assert rest[k] == cues[k + 1] && rest[k + 1] == cues[k + 2];
        }
      }
      if rest != [] {
        assert rest[0] == cues[1];
      }
      DropRepeatsKeepsDistinct(rest, Some(cues[0].text));
      assert [cues[0]] + rest == cues;
    }
  }

  /** Dropping repeats a second time changes nothing. */
  lemma DropRepeatsIdempotent(cues: seq<Cue>, prev: Option<string>)
    ensures DropRepeats(DropRepeats(cues, prev), prev) == DropRepeats(cues, prev)
  {
    DropRepeatsNoAdjacent(cues, prev);
    DropRepeatsKeepsDistinct(DropRepeats(cues, prev), prev);
  }

  /** A cue that repeats the one before it vanishes: a run of equal texts collapses to its first cue. */
  lemma RepeatCollapses(a: Cue, b: Cue, rest: seq<Cue>, prev: Option<string>)
    requires a.text == b.text
    ensures DropRepeats([a, b] + rest, prev) == DropRepeats([a] + rest, prev)
  {
    assert ([a, b] + rest)[1..] == [b] + rest;
    assert ([a] + rest)[1..] == rest;
    DropRepeatsCons(b, rest, prev);
    DropRepeatsCons(b, rest, Some(a.text));
  }

  /** A cue header never starts with whitespace, so a header line is never blank. */
  lemma HeaderNotBlank(line: string)
    requires IsCueHeader(Strip(line))
    ensures !IsBlank(line)
  {
  }

  /** The block's lines, stripped, are non-empty and have no whitespace at either end. */
  lemma {:induction false} StrippedLinesNonBlank(lines: seq<string>, j: nat, e: nat)
    requires j <= e <= |lines|
    requires forall k :: j <= k < e ==> !IsBlank(lines[k])
    ensures var r := StrippedLines(lines, j, e);
      |r| == e - j && forall k :: 0 <= k < |r| ==> r[k] != [] && IsStripped(r[k])
    decreases e
  {
    if e > j {
      StrippedLinesNonBlank(lines, j, e - 1);
      StripSpec(lines[e - 1]);
    }
  }

  /**
   The text of a block has no whitespace at either end, and it is empty
   exactly when the header is followed by a blank line or by the end of the file.
   */
  lemma BlockTextShape(lines: seq<string>, j: nat)
    requires j <= |lines|
    ensures IsStripped(BlockText(lines, j))
    ensures BlockText(lines, j) == "" <==> (j == |lines| || IsBlank(lines[j]))
  {
    var e := BlockEnd(lines, j);
    BlockEndSpec(lines, j);
    StrippedLinesNonBlank(lines, j, e);
    JoinStrippedParts(StrippedLines(lines, j, e));
  }

  /** A cue whose time begins with a cue timestamp and whose text has no whitespace at either end. */
  predicate WellFormedCue(c: Cue) {
    IsCueHeader(c.time) && IsStripped(c.text)
  }

  /** The cue of a header line is well formed. */
  lemma HeaderCueWellFormed(lines: seq<string>, i: nat)
    requires i < |lines| && IsCueHeader(Strip(lines[i]))
    ensures WellFormedCue(HeaderCue(lines, i))
  {
    StartTimeIsHeader(Strip(lines[i]));
    BlockTextShape(lines, i + 1);
  }

  /** Every cue the scan finds is well formed. */
  lemma ScanCuesWellFormed(lines: seq<string>, i: nat)
    ensures forall c :: c in Scan(lines, i) ==> WellFormedCue(c)
  {
    var cues := Scan(lines, i);
    var hs := ScanPositions(lines, i);
    forall c | c in cues
      ensures WellFormedCue(c)
    {
      var k :| 0 <= k < |cues| && cues[k] == c;
      HeaderCueWellFormed(lines, hs[k]);
    }
  }

  /** The number of lines from `i` on that look like a cue header once stripped. */
  function CountHeaders(lines: seq<string>, i: nat): nat
    decreases |lines| - i
  {
    if i >= |lines| then 0
    else (if IsCueHeader(Strip(lines[i])) then 1 else 0) + CountHeaders(lines, i + 1)
  }

  lemma {:induction false} CountHeadersMonotone(lines: seq<string>, i: nat, j: nat)
    requires i <= j
    ensures CountHeaders(lines, j) <= CountHeaders(lines, i)
    decreases j - i
  {
    if i < j {
      CountHeadersMonotone(lines, i + 1, j);
    }
  }

  /** The scan finds at most one cue per header line; header lines inside a block start none. */
  lemma {:induction false} ScanCount(lines: seq<string>, i: nat)
    ensures |Scan(lines, i)| <= CountHeaders(lines, i)
    decreases |lines| - i
  {
    if i < |lines| {
      if IsCueHeader(Strip(lines[i])) {
        var e := BlockEnd(lines, i + 1);
        ScanTakesCue(lines, i);
        ScanCount(lines, e + 1);
        CountHeadersMonotone(lines, i + 1, e + 1);
      } else {
        ScanSkips(lines, i);
        ScanCount(lines, i + 1);
      }
    }
  }

  /** Helper: a cue and its entry share time and text. */
  lemma WithSpeakerAt(speaker: string, cues: seq<Cue>, k: nat)
    requires k < |cues|
    ensures |WithSpeaker(speaker, cues)| == |cues|
    ensures WithSpeaker(speaker, cues)[k] == Entry(cues[k].time, speaker, cues[k].text)
  {
  }

  /**
   What `parse_vtt` returns: entries whose speaker is the file's stem, whose
   time begins with a cue timestamp and whose text has no whitespace at either
   end; no two neighbouring entries share a text; and there are no more
   entries than header lines, nor than the header lines `hs` outside the
   blocks.
   */
  lemma ParseProperties(file: VttFile) returns (hs: seq<nat>)
    ensures (forall k :: 0 <= k < |hs| ==> hs[k] < |file.lines|) && Increasing(hs)
    ensures HeadersOutsideBlocks(file.lines, 0, hs)
    ensures var r := Parse(file);
      && |r| <= |hs|
      && (forall k :: 0 <= k < |r| ==>
            r[k].speaker == file.stem && IsCueHeader(r[k].time) && IsStripped(r[k].text))
      && (forall k :: 0 <= k < |r| - 1 ==> r[k].text != r[k + 1].text)
      && |r| <= CountHeaders(file.lines, 0)
  {
    var cues := Scan(file.lines, 0);
    var kept := DropRepeats(cues, None);
    var r := Parse(file);
    DropRepeatsNoAdjacent(cues, None);
    DropRepeatsSubsequence(cues, None);
    ScanCuesWellFormed(file.lines, 0);
    ScanCount(file.lines, 0);
    hs := ScanHeaders(file.lines, 0);
    SubsequenceKeeps(kept, cues);
    forall k | 0 <= k < |r|
      ensures r[k].speaker == file.stem && IsCueHeader(r[k].time) && IsStripped(r[k].text)
    {
      WithSpeakerAt(file.stem, kept, k);
      assert kept[k] in cues by {
        assert kept[k] in kept;
      }
    }
    forall k | 0 <= k < |r| - 1
      ensures r[k].text != r[k + 1].text
    {
      WithSpeakerAt(file.stem, kept, k);
      WithSpeakerAt(file.stem, kept, k + 1);
    }
  }

  /** The line numbers `hs` go strictly down the file. */
  predicate Increasing(hs: seq<nat>) {
    forall k, l :: 0 <= k < l < |hs| ==> hs[k] < hs[l]
  }

  lemma IncreasingCons(h: nat, hs: seq<nat>)
    requires Increasing(hs) && forall k :: 0 <= k < |hs| ==> h < hs[k]
    ensures Increasing([h] + hs)
  {
    var hs' := [h] + hs;
    forall k, l | 0 <= k < l < |hs'|
      ensures hs'[k] < hs'[l]
    {
      assert hs'[l] == hs[l - 1];
      if k > 0 {
        assert hs'[k] == hs[k - 1];
      }
    }
  }

  /**
   `cues` are the cues of the header lines `hs`, which lie at or after line
   `i` and go down the file.
   */
  predicate AtHeaders(lines: seq<string>, i: nat, cues: seq<Cue>, hs: seq<nat>) {
    && |hs| == |cues|
    && (forall k :: 0 <= k < |hs| ==>
          i <= hs[k] < |lines| && IsCueHeader(Strip(lines[hs[k]])) && cues[k] == HeaderCue(lines, hs[k]))
    && Increasing(hs)
  }

  lemma AtHeadersCons(lines: seq<string>, i: nat, j: nat, cues: seq<Cue>, hs: seq<nat>)
    requires i < j && i < |lines| && IsCueHeader(Strip(lines[i]))
    requires AtHeaders(lines, j, cues, hs)
    ensures AtHeaders(lines, i, [HeaderCue(lines, i)] + cues, [i] + hs)
  {
    var hs', cues' := [i] + hs, [HeaderCue(lines, i)] + cues;
    forall k | 0 <= k < |hs'|
      ensures i <= hs'[k] < |lines| && IsCueHeader(Strip(lines[hs'[k]])) && cues'[k] == HeaderCue(lines, hs'[k])
    {
      if k > 0 {
        assert hs'[k] == hs[k - 1] && cues'[k] == cues[k - 1];
      }
    }
    IncreasingCons(i, hs);
  }

  lemma AtHeadersFrom(lines: seq<string>, i: nat, j: nat, cues: seq<Cue>, hs: seq<nat>)
    requires i <= j && AtHeaders(lines, j, cues, hs)
    ensures AtHeaders(lines, i, cues, hs)
  {
  }

  /**
   The scan finds its cues in the order of their header lines: the `k`-th cue
   is the cue of the `k`-th header line it uses, and those lines go down the file.
   */
  /** No line from `a` up to `b` looks like a cue header. */
  predicate NoHeaderIn(lines: seq<string>, a: nat, b: nat) {
    forall j :: a <= j < b && j < |lines| ==> !IsCueHeader(Strip(lines[j]))
  }

  /**
   The line where the scan goes on before it reaches the `k`-th header of
   `hs`: line `i` for the first, else the line after the one that ends the
   block of the header before.
   */
  function ResumeAt(lines: seq<string>, i: nat, hs: seq<nat>, k: nat): nat
    requires k <= |hs|
  {
    if k == 0 then i
    else if hs[k - 1] < |lines| then BlockEnd(lines, hs[k - 1] + 1) + 1
    else |lines| + 1
  }

  /**
   Each header of `hs` is the first header line at or after the point where
   the scan goes on, and no header line comes after the last block.
   */
  predicate NoneSkipped(lines: seq<string>, i: nat, hs: seq<nat>) {
    && (forall k {:trigger ResumeAt(lines, i, hs, k)} :: 0 <= k < |hs| ==>
          ResumeAt(lines, i, hs, k) <= hs[k] && NoHeaderIn(lines, ResumeAt(lines, i, hs, k), hs[k]))
    && NoHeaderIn(lines, ResumeAt(lines, i, hs, |hs|), |lines|)
  }

  lemma ResumeAtCons(lines: seq<string>, i: nat, e: nat, hs: seq<nat>, k: nat)
    requires i < |lines| && e == BlockEnd(lines, i + 1) && 1 <= k <= |hs| + 1
    ensures ResumeAt(lines, i, [i] + hs, k) == ResumeAt(lines, e + 1, hs, k - 1)
  {
    if k > 1 {
      assert ([i] + hs)[k - 1] == hs[k - 2];
    }
  }

  lemma NoneSkippedCons(lines: seq<string>, i: nat, e: nat, hs: seq<nat>)
    requires i < |lines| && e == BlockEnd(lines, i + 1)
    requires NoneSkipped(lines, e + 1, hs)
    ensures NoneSkipped(lines, i, [i] + hs)
  {
    var hs' := [i] + hs;
    forall k | 0 <= k < |hs'|
      ensures ResumeAt(lines, i, hs', k) <= hs'[k] && NoHeaderIn(lines, ResumeAt(lines, i, hs', k), hs'[k])
    {
      if k > 0 {
        ResumeAtCons(lines, i, e, hs, k);
        assert hs'[k] == hs[k - 1];
      }
    }
    ResumeAtCons(lines, i, e, hs, |hs'|);
  }

  lemma NoneSkippedSkip(lines: seq<string>, i: nat, hs: seq<nat>)
    requires i < |lines| && !IsCueHeader(Strip(lines[i]))
    requires NoneSkipped(lines, i + 1, hs)
    ensures NoneSkipped(lines, i, hs)
  {
    forall k | 0 <= k < |hs|
      ensures ResumeAt(lines, i, hs, k) <= hs[k] && NoHeaderIn(lines, ResumeAt(lines, i, hs, k), hs[k])
    {
      if k == 0 {
        assert ResumeAt(lines, i + 1, hs, 0) == i + 1;
        NoHeaderInExtend(lines, i, hs[0]);
      } else {
        assert ResumeAt(lines, i, hs, k) == ResumeAt(lines, i + 1, hs, k);
      }
    }
    if hs == [] {
      NoHeaderInExtend(lines, i, |lines|);
    } else {
      assert ResumeAt(lines, i, hs, |hs|) == ResumeAt(lines, i + 1, hs, |hs|);
    }
  }

  lemma NoHeaderInExtend(lines: seq<string>, i: nat, b: nat)
    requires i < |lines| && !IsCueHeader(Strip(lines[i]))
    requires NoHeaderIn(lines, i + 1, b)
    ensures NoHeaderIn(lines, i, b)
  {
  }

  /**
   The scan finds its cues in the order of their header lines: the `k`-th cue
   is the cue of the `k`-th header line it uses, and those lines go down the
   file. It passes over no header line outside a block: before its first
   header, between the end of one block and the next header, and after the
   last block there is none.
   */
  lemma {:induction false} ScanPositions(lines: seq<string>, i: nat) returns (hs: seq<nat>)
    ensures AtHeaders(lines, i, Scan(lines, i), hs)
    ensures NoneSkipped(lines, i, hs)
    decreases |lines| - i
  {
    if i >= |lines| {
      hs := [];
    } else if IsCueHeader(Strip(lines[i])) {
      var e := BlockEnd(lines, i + 1);
      ScanTakesCue(lines, i);
      var rest := ScanPositions(lines, e + 1);
      AtHeadersCons(lines, i, e + 1, Scan(lines, e + 1), rest);
      NoneSkippedCons(lines, i, e, rest);
      hs := [i] + rest;
    } else {
      ScanSkips(lines, i);
      hs := ScanPositions(lines, i + 1);
      AtHeadersFrom(lines, i, i + 1, Scan(lines, i), hs);
      NoneSkippedSkip(lines, i, hs);
    }
  }

  /** Line `j` is a text line, or the line that ends the block, under one of the headers `hs`. */
  predicate InsideBlock(lines: seq<string>, hs: seq<nat>, j: nat) {
    exists k :: 0 <= k < |hs| && hs[k] < |lines| && hs[k] < j <= BlockEnd(lines, hs[k] + 1)
  }

  /** `hs` holds exactly the header lines from `i` on that lie in none of the blocks under `hs`. */
  predicate HeadersOutsideBlocks(lines: seq<string>, i: nat, hs: seq<nat>) {
    forall j :: i <= j < |lines| ==> (j in hs <==> IsCueHeader(Strip(lines[j])) && !InsideBlock(lines, hs, j))
  }

  /** The stretch of the scan that line `j` falls in: after the `k`-th resume point and before the next. */
  lemma SegmentOf(lines: seq<string>, i: nat, hs: seq<nat>, j: nat) returns (k: nat)
    requires i <= j
    ensures k <= |hs| && ResumeAt(lines, i, hs, k) <= j
    ensures k < |hs| ==> j < ResumeAt(lines, i, hs, k + 1)
  {
    k := 0;
    while k < |hs| && ResumeAt(lines, i, hs, k + 1) <= j
      invariant k <= |hs| && ResumeAt(lines, i, hs, k) <= j
    {
      k := k + 1;
    }
  }

  /** A header line outside every block is one the scan uses. */
  lemma OutsideIsScanned(lines: seq<string>, i: nat, hs: seq<nat>, j: nat)
    requires forall k :: 0 <= k < |hs| ==> hs[k] < |lines|
    requires NoneSkipped(lines, i, hs)
    requires i <= j < |lines| && IsCueHeader(Strip(lines[j])) && !InsideBlock(lines, hs, j)
    ensures j in hs
  {
    var k := SegmentOf(lines, i, hs, j);
    assert k < |hs|;
    assert hs[k] <= j;
    assert j <= BlockEnd(lines, hs[k] + 1);
    assert j <= hs[k];
  }

  /** A header line the scan uses lies in none of the blocks. */
  lemma ScannedIsOutside(lines: seq<string>, i: nat, hs: seq<nat>, l: nat)
    requires Increasing(hs) && forall k :: 0 <= k < |hs| ==> hs[k] < |lines|
    requires NoneSkipped(lines, i, hs)
    requires l < |hs|
    ensures !InsideBlock(lines, hs, hs[l])
  {
    forall m | 0 <= m < |hs| && hs[m] < hs[l]
      ensures BlockEnd(lines, hs[m] + 1) < hs[l]
    {
      assert hs[m + 1] <= hs[l] by {
        if m + 1 < l {
          assert hs[m + 1] < hs[l];
        }
      }
      assert ResumeAt(lines, i, hs, m + 1) <= hs[m + 1];
    }
  }

  /**
   The header lines the scan takes cues from are exactly the header lines
   outside the blocks, one cue each, in file order.
   */
  lemma ScanHeaders(lines: seq<string>, i: nat) returns (hs: seq<nat>)
    ensures AtHeaders(lines, i, Scan(lines, i), hs)
    ensures HeadersOutsideBlocks(lines, i, hs)
  {
    hs := ScanPositions(lines, i);
    forall j | i <= j < |lines|
      ensures j in hs <==> IsCueHeader(Strip(lines[j])) && !InsideBlock(lines, hs, j)
    {
      if j in hs {
        var l :| 0 <= l < |hs| && hs[l] == j;
        ScannedIsOutside(lines, i, hs, l);
      } else if IsCueHeader(Strip(lines[j])) && !InsideBlock(lines, hs, j) {
        OutsideIsScanned(lines, i, hs, j);
      }
    }
  }

  /** A subsequence is no longer than the sequence and holds only its elements. */
  lemma {:induction false} SubsequenceKeeps<T>(a: seq<T>, b: seq<T>)
    requires IsSubsequence(a, b)
    ensures |a| <= |b|
    ensures forall x :: x in a ==> x in b
    decreases |b|
  {
    if b != [] {
      if a != [] && a[0] == b[0] && IsSubsequence(a[1..], b[1..]) {
        SubsequenceKeeps(a[1..], b[1..]);
        forall x | x in a
          ensures x in b
        {
          if x != a[0] {
            assert x in a[1..];
          }
        }
      } else {
        SubsequenceKeeps(a, b[1..]);
      }
    }
  }

  /**
   A line that looks like a header but follows one directly is part of the
   first header's text, not a header of its own.
   */
  lemma HeaderInsideBlock(h: string, h2: string, blank: string)
    requires IsCueHeader(Strip(h)) && IsCueHeader(Strip(h2)) && IsBlank(blank)
    ensures Scan([h, h2, blank], 0) == [Cue(StartTime(Strip(h)), Strip(h2))]
  {
    var lines := [h, h2, blank];
    HeaderNotBlank(h2);
    assert BlockEnd(lines, 2) == 2;
    assert BlockEnd(lines, 1) == 2;
    assert StrippedLines(lines, 1, 2) == [Strip(h2)];
    ScanTakesCue(lines, 0);
    assert Scan(lines, 3) == [];
  }

  /** A header followed by a blank line gives the empty text, and the first such cue is kept. */
  lemma EmptyTextKept(h: string, blank: string)
    requires IsCueHeader(Strip(h)) && IsBlank(blank)
    ensures DropRepeats(Scan([h, blank], 0), None) == [Cue(StartTime(Strip(h)), "")]
  {
    var lines := [h, blank];
    assert BlockEnd(lines, 1) == 1;
    ScanTakesCue(lines, 0);
    assert Scan(lines, 2) == [];
  }
}
