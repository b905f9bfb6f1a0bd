# Subtitle merge, modelled in Dafny

This project models the subtitle-merging core of the summary-transcriber
scripts. The same code appears twice in the repository: in `merge_vtt.py` and,
copied verbatim, in `transcribe.py`. The core has four parts:

- `parse_vtt` turns the lines of one subtitle file into entries
  `(time, speaker, text)`. It walks an index over the lines. A cue header is a
  stripped line that begins with `(\d{2}:)?\d{2}:\d{2}\.\d{3}`. The start time
  is the stripped text before the first `" --> "`. The text is every
  following non-blank line, stripped and joined with single spaces. A block
  whose text equals the last text kept is dropped, and the speaker is the
  file's stem.
- `pad_time_string` adds `"00:"` in front of a time of the form `dd:dd.ddd`.
- `time_to_seconds` pads, splits on `:` and then on `.`, and reads the four
  fields as integers.
- `main` / `merge_transcripts` checks that the folder is a directory. It then
  parses every file, concatenates their entries in file order, sorts them
  stably by `time_to_seconds` and produces a header row followed by one row
  per entry.

Modules:

- `Results` holds `Option` and `Result`. `None` or `Err` stands for a raised
  `ValueError` or an early exit.
- `Strings` holds Python's `strip()` with the full `str.isspace` character
  set, `split(sep)[0]` for a separator string, and `split(c)` / `join` on one
  character.
- `Timestamps` holds the two regular expressions as character predicates,
  `pad_time_string`, and `time_to_seconds` in integer milliseconds.
- `VttParser` holds `parse_vtt`. It is an imperative method (`ParseVtt`, its
  loop body `ParseLine`, the inner loop `ReadBlock`) proved equal to a
  functional reference (`Parse` is `DropRepeats` of `Scan`), and lemmas about
  that reference.
- `StableSort` holds Python's stable `sorted` with a key that may fail. It is
  an insertion sort on keyed items. Lemmas prove that it is a sorted, stable
  permutation and that it is the only one.
- `Merge` holds the directory check, the concatenation loop, the sort and the
  rows.

Where the docstring of `parse_vtt` says the tuples are
`(start_time, text, speaker)`, the code builds `(time, speaker, text)`. The
model follows the code.

## Model

| member | source | states |
|---|---|---|
| Strings.StripSpec | merge_vtt.py:19 | `strip()` returns a slice of its input with only whitespace cut from either end and none left at either end; the result is empty exactly when the input is all whitespace |
| Strings.StripOfStripped | transcribe.py:24 | a string with no whitespace at either end strips to itself |
| Strings.PrefixBeforeSpec | merge_vtt.py:21 | `split(sep)[0]` is a prefix of the input that contains no occurrence of `sep` and is followed by one unless it is the whole input |
| Strings.SplitCharCount | merge_vtt.py:49-50 | `split(c)` yields one more part than there are `c` characters, which is what makes the unpacking fail on a wrong count |
| Strings.SplitCharJoin | merge_vtt.py:49-50 | joining the parts of `split(c)` with `c` gives back the input |
| Strings.SplitJoin | transcribe.py:56-57 | splitting a join of parts free of `c` on `c` gives back the parts |
| Strings.JoinStrippedParts | merge_vtt.py:27 | a space-join of non-empty stripped parts is stripped and is empty only for no parts |
| Timestamps.PadTimeString | merge_vtt.py:36-42 | the result is `t` or `"00:" + t`, it differs from `t` exactly when `t` is `dd:dd.ddd` (a final newline allowed, as `$` allows), it is never a short form, and a nine-character short form becomes a long form |
| Timestamps.PadIdempotent | transcribe.py:46-48 | padding twice is padding once |
| Timestamps.FieldsRoundTrip | merge_vtt.py:48-51 | four digit fields written as `h:m:s.ms` convert to their value in milliseconds |
| Timestamps.AcceptedTimesAreFields | transcribe.py:55-58 | every time that converts is, after padding, four digit fields with exactly two `:` and one `.`, and converts to their value |
| Timestamps.WrongSeparatorsRejected | merge_vtt.py:49-50 | a padded time without exactly two `:` and one `.` raises |
| Timestamps.LongFormValue | merge_vtt.py:44-51 | an `hh:mm:ss.mmm` time converts to its digits' value |
| Timestamps.ShortFormValue | merge_vtt.py:44-51 | an `mm:ss.mmm` time converts to its digits' value |
| Timestamps.ShortAndLongAgree | transcribe.py:55-58 | a short form and the same time with `00:` in front have the same key |
| Timestamps.NoColonRejected | merge_vtt.py:49 | a time without a colon raises |
| Timestamps.ExampleShort | merge_vtt.py:44-51 | `"01:02.003"` is 62003 ms |
| Timestamps.ExampleLong | merge_vtt.py:44-51 | `"00:01:02.003"` is 62003 ms |
| Timestamps.ExampleNoColon | merge_vtt.py:49 | `"12.345"` raises |
| Timestamps.ExampleHalfSecond | transcribe.py:51-58 | `"00:00.500"` is 500 ms |
| VttParser.StartTimeIsHeader | merge_vtt.py:20-21 | the start time taken from a header begins with the very characters of the timestamp the header begins with (9 or 12 of them), so it is itself header-shaped |
| VttParser.StartTimeNoArrow | merge_vtt.py:21 | without an arrow, the start time is the whole stripped header line |
| VttParser.StartTimeBeforeArrow | transcribe.py:26 | with an arrow, the start time is the stripped text before the first arrow |
| VttParser.BlockEndSpec | merge_vtt.py:24 | a block stops at the first blank line or at the end of the file and holds no blank line |
| VttParser.ReadBlock | merge_vtt.py:23-26 | the inner loop stops at the block's end and has collected exactly the block's lines, stripped |
| VttParser.ReadCue | merge_vtt.py:20-27 | reading a header gives its cue (start time and joined block text) and the end of its block, and the scan goes on after that block |
| VttParser.ParseLine | transcribe.py:24-37 | one turn of the outer loop keeps the entries equal to the speaker's copy of the cues kept, `prev_text` equal to the last text kept, and the cues still to come equal to what the whole file yields after them |
| VttParser.ParseVtt | merge_vtt.py:6-34 | the loop returns exactly `Parse(file)`: the scanned cues with adjacent repeats dropped, each carrying the file's stem |
| VttParser.DropRepeatsNoAdjacent | merge_vtt.py:29-31 | no two neighbouring entries kept share a text, and the first differs from the initial `prev_text` |
| VttParser.DropRepeatsSubsequence | transcribe.py:34-36 | what is kept is the scanned cues with some left out, in their order |
| VttParser.DropRepeatsKeepsDistinct | merge_vtt.py:29-31 | cues without adjacent repeats are all kept, so a non-adjacent repeat (A, B, A) stays |
| VttParser.DropRepeatsIdempotent | transcribe.py:34-36 | dropping repeats twice is dropping them once |
| VttParser.RepeatCollapses | merge_vtt.py:29-31 | a cue immediately repeating the text of the one before adds nothing |
| VttParser.BlockTextShape | merge_vtt.py:27 | a block's text is stripped, and is `""` exactly when the header is followed by a blank line or the end of the file |
| VttParser.HeaderCueWellFormed | merge_vtt.py:20-27 | the cue of a header has a time that begins with a timestamp and a stripped text |
| VttParser.ScanCuesWellFormed | transcribe.py:25-32 | every scanned cue has such a time and text |
| VttParser.ScanCount | merge_vtt.py:18-32 | a coarse bound: there are at most as many cues as header-like lines, counting those a block takes as text |
| VttParser.ScanPositions | merge_vtt.py:18-32 | the scanned cues come from header lines at strictly increasing positions, each cue being that header's cue, so entries appear in file order; and no header line is passed over: none before the first cue's header, none between the line after one block's end and the next cue's header, none after the last block |
| VttParser.ScanHeaders | transcribe.py:23-37 | the header lines the scan takes cues from are exactly the header-like lines that lie in no block (neither its text lines nor the line that ends it), one cue each, in file order |
| VttParser.ParseProperties | merge_vtt.py:10-32 | every entry's speaker is the stem, its time begins with a timestamp and its text is stripped; no two neighbouring entries share a text; there are at most as many entries as header lines outside blocks (and so as header-like lines at all) |
| VttParser.HeaderInsideBlock | transcribe.py:29-37 | a header line right after a header is taken as text, not as a new cue, and the blank line after it is skipped |
| VttParser.EmptyTextKept | merge_vtt.py:29 | a header followed by a blank line yields a cue with text `""`, kept against the initial `None` |
| StableSort.SortByKeySorted | merge_vtt.py:67 | insertion by key gives a sequence sorted by key, a permutation of the input, with the order among equal keys unchanged |
| StableSort.StableSortUnique | transcribe.py:78 | two sequences sorted by key with the same order within every key are equal |
| StableSort.KeyAllFirstError | merge_vtt.py:67 | computing the keys fails on the first element whose key fails |
| StableSort.SortedBySpec | merge_vtt.py:67 | `sorted` succeeds exactly when every key converts; then the result is a permutation, ascending by key, every key's elements in their input order |
| StableSort.SortedByUnique | transcribe.py:78 | any permutation with those properties is the result of `sorted` |
| StableSort.SortedByThree | merge_vtt.py:67 | with two equal keys and a smaller third, the third comes first and the two equal ones keep their order |
| Merge.MergeTranscripts | transcribe.py:61-78 | the loop over the files and the sort give exactly `Merge(isDir, files)` |
| Merge.AllEntriesFrom | merge_vtt.py:61-63 | an entry is in the concatenation exactly when it is in some file's parse |
| Merge.AllEntriesFacts | transcribe.py:72-74 | every concatenated entry has a timestamp-led time, a stripped text and some file's stem as speaker |
| Merge.SortEntriesSpec | merge_vtt.py:67 | the sort of the entries succeeds exactly when every time converts; it is then a permutation ascending by time and stable |
| Merge.SortEntriesUnique | transcribe.py:78 | any sequence with those properties is the sorted one |
| Merge.SortEntriesFirstError | merge_vtt.py:67 | the entry reported is the first whose time does not convert |
| Merge.TableOutcome | merge_vtt.py:67-74 | the table exists exactly when every time converts; otherwise the first failing entry is reported |
| Merge.TableRows | transcribe.py:78-85 | the table is the header then one row per entry, the rows made from a stable, ascending permutation of the entries |
| Merge.TableEntries | merge_vtt.py:72-74 | each row after the header is the raw `(time, speaker, text)` of an entry |
| Merge.TableOrdered | transcribe.py:83-85 | rows after the header have three cells and ascending converted times |
| Merge.MergeOutcome | transcribe.py:66-68 | a folder that is not a directory gives `NotADirectory`; otherwise the merge succeeds exactly when every time converts |
| Merge.MergeRows | merge_vtt.py:53-74 | every data row has three cells: a timestamp-led time, some file's stem, a stripped text |
| Merge.EmptyFolder | merge_vtt.py:59-74 | a directory with no subtitle files gives just the header row |
| Merge.SortExample | merge_vtt.py:67 | a later half-second cue moves first, and `01:02.003` and `00:01:02.003` keep their order |

## Left out

- File opening and `readlines()`: a file is given as its stem and its lines.
- `folder.glob("*.vtt")`: its order depends on the filesystem, so the files are an input sequence in a given order. `is_dir()` is a boolean input.
- Writing the CSV through `csv.writer`, with its quoting and escaping: the model stops at the list of rows.
- `print` progress messages and the `__main__` argument handling.
- `sys.exit(1)` in `merge_vtt.py` versus `return` in `transcribe.py`: both become `Err(NotADirectory)`.
- `rename_vtt_files` and the `main` of `transcribe.py` (prompts, renaming on disk, the external `whisper` process): I/O and process control.
- Timestamps.TimeToMillis: gives integer milliseconds where the source computes a float in seconds with `int(ms) / 1000`. The two order the entries the same way only while the float keeps distinct values apart, which holds for the three-digit millisecond fields of real cue times. A header may carry a longer millisecond field (after its stamp the time runs on up to `" --> "`, as in `00:00:00.10000000000000000001`); there the float rounds distinct times to the same key, so `sorted` keeps their input order where the model orders them by exact value.
- Timestamps.TimeToMillis: for a millisecond field beyond the float range (about `1.8e311`), `int(ms) / 1000` raises `OverflowError`; the model returns a value.
- Timestamps.TimeToMillis: Python's `int()` also accepts a sign, underscores, surrounding whitespace and non-ASCII digits; the model reads ASCII digit runs only and treats anything else as an error.
- The regular expressions are written as character predicates. `\d` is taken as the ASCII digits, where Python's `re` also matches other Unicode digits.
- VttParser.ParseVtt: the header branch of the loop body is a separate method `ReadCue` and the inner loop is `ReadBlock`, rather than inline code. The index moves the same way.
