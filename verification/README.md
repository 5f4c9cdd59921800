# logmerge: timestamp detection and k-way merge, in Dafny

`logmerge` merges several log files into one stream ordered by the
timestamps it finds in their lines. This project models its engine in
`main.go` and proves properties of the model:

- **Pattern selection** (`findBestMatch`). An ordered table of twelve
  regular-expression/layout pairs is scanned against a line. A candidate
  replaces the current best when it starts strictly earlier or is strictly
  longer.
- **Extraction** (`extractTimestamp`). The matched span is cut out of the
  line and parsed. A year-less result is moved into the current year.
- **Per-file format hints** (`parseLogLine`, `readNextTimestamp`). A map from
  file index to pattern index sends the next line of a file straight to the
  pattern that last worked for it. Two counters track lines processed and
  hint hits.
- **Label** (`getFilenamePrefix`). The last twenty characters of a file name.
- **Merge** (`mergeLogs`). Each source gets one pending record. The loop then
  repeatedly picks the live source with the earliest pending instant. It
  stops at the end bound and suppresses records before the start bound. Then
  it advances that source by one line.

Files, one module each:

| file | module | contents |
|---|---|---|
| `base.dfy` | `Base` | `Option` |
| `patterns.dfy` | `Patterns` | the pattern table, match spans, the library environment `Env` |
| `matching.dfy` | `Matching` | the scan of `findBestMatch` and what its tie-break rule implies |
| `extraction.dfy` | `Extraction` | `extractTimestamp` and the cut/re-insert round trip |
| `classifier.dfy` | `Classifier` | `parseLogLine`, `readNextTimestamp`, the hint cache, per-file traces |
| `labels.dfy` | `Labels` | `getFilenamePrefix` |
| `merge.dfy` | `Merge` | seeding, selection, advancing, and the merge loop with its invariant |

The regular-expression engine and the `time` package are not modelled.
They are fields of the datatype `Env`:

- `find(j, line)` is `FindStringIndex` of table entry `j`.
- `parse(j, text)` is `time.Parse` with entry `j`'s layout.
- `yearOf` and `addYears` are `Year` and `AddDate(y, 0, 0)`.
- `currentYear` is the process's start year.
- `zero` is `time.Time{}`.

`Env.Valid()` states the only facts the model assumes of these libraries:

- A reported match lies inside the line.
- Adding `y` years moves the year by exactly `y`.

Instants are integers ordered as `Before` orders times. A source is its base
name plus its lines, or `None` when it could not be opened. The output
channel becomes a returned sequence of records. Alongside it the merge returns
each record's origin, the index of the source it came from.

A `string` here stands for a Go string as the code treats it: a sequence of
bytes, one `char` per byte. Lengths, match offsets and slices therefore count
bytes, as `len`, `line[a:b]` and `FindStringIndex` do, and the label of
`getFilenamePrefix` is the last twenty bytes of the name.

## Behaviour as the code has it

The model follows `main.go` in every branch. Several of these branches differ
from a plain reading of what the program is for:

- **Tie-break** (`main.go:51`). The rule is "earlier start OR longer span",
  not "earliest start, then longest". A pattern that starts later but covers
  more of the line displaces an earlier one (`Matching.LaterLongerMatchWins`).
  The rule does reduce to the intuitive one when all matches share a start
  or a length (`Matching.CommonStartPicksLongest`,
  `Matching.CommonSpanPicksEarliest`).
- **No "first among identical matches"** (`main.go:51`). Because the
  replacement test is not transitive, a pattern whose match is identical to
  an earlier pattern's can still win. Suppose pattern 0 matches bytes 5-10,
  pattern 1 matches bytes 0-3 and pattern 2 matches bytes 5-10 again. Pattern
  1 displaces 0 by starting earlier, and pattern 2 displaces 1 by being
  longer, so pattern 2 wins (`Matching.IdenticalLaterCanWin`). What does hold
  is local: a match identical to the current best never displaces it
  (`Matching.Step`).
- **Full-scan parse failure** (`main.go:102`). When the full scan finds a
  winner whose text does not parse, `parseLogLine` returns a nil error with
  the zero time and the whole line. The merge therefore treats that line as
  timestamped at the zero instant. The model keeps this as
  `Timestamped(e.zero, line)`.
- **Hinted parse failure** (`main.go:87-91`). When the hinted pattern matches
  but its text does not parse, the line is a continuation. No full scan is
  attempted.
- **First line without a timestamp** (`main.go:161`). Such a file gets
  `NoTimestampError` as its file error and is never read again. The model
  gives it the status `NoFirstTimestamp`.
- **Continuation lines** (`main.go:197-207`). These keep the source's pending
  instant and replace only the pending text. They never change the file's
  hint.
- **Hints belong to files.** Only reads of file `k` change hint `k`. Each
  file's readings are therefore a function of its own lines alone
  (`Classifier.TraceFrom`), however the merge interleaves the reads. Sorted
  input is stated on these readings (`Classifier.SourceSorted`).

## Model

| member | source | states |
|---|---|---|
| Patterns.TableSize | main.go:22-38 | the table has exactly the twelve entries the engine scans and stores as hints |
| Matching.Beats | main.go:51 | the replacement test: a candidate displaces the best when it starts strictly earlier or spans strictly more |
| Matching.Step | main.go:47-55 | one scan iteration keeps any best it had and replaces it only with the current pattern's own match; when both exist, the best is replaced exactly when the new match starts earlier or is longer |
| Matching.ScanFrom | main.go:46-56 | the scan ends with no winner only if no remaining pattern matched; a winner is a pattern that matched, at exactly its match; no later-scanned match starts earlier or is longer |
| Matching.ScanUpTo | main.go:46-56 | the best held on entering iteration `k` is a pattern before `k` that matched, at exactly its match |
| Matching.ScanFromUpTo | main.go:46-56 | finishing the scan from the best of the first `i` patterns gives the same winner as the whole scan |
| Matching.SettledFrom | main.go:46-56 | once the final winner has been scanned, the best held no longer changes |
| Matching.WinnerBeatsEarlier | main.go:51-54 | the final winner replaced the best held before its own iteration, if there was one: it starts earlier or is longer |
| Matching.FindBestMatch | main.go:44-58 | the error is returned exactly when no pattern matches; otherwise the index matched at exactly the returned span, inside the line; it starts earlier or is longer than the best of the patterns before it, if any; no pattern after it starts earlier or is longer |
| Matching.IdenticalLaterCanWin | main.go:44-58 | with pattern 0 at bytes 5-10, pattern 1 at 0-3, pattern 2 at 5-10 and nothing else matching, pattern 2 wins, so an identical later match can win |
| Matching.ScanNoneMatchLeft | main.go:46-56 | when no pattern from `i` on matches, the scan returns the best it already had |
| Matching.LaterLongerMatchWins | main.go:51 | a second pattern that starts later but is longer displaces the first |
| Matching.LongestStep | main.go:51 | on a line where all matches share a start, one scan step keeps "longest so far, first among equals" |
| Matching.ScanCommonStart | main.go:46-56 | on such a line the rest of the scan keeps that property to the end |
| Matching.CommonStartPicksLongest | main.go:44-58 | when all matches start at the same offset the winner is the longest, the lowest index among equally long ones |
| Matching.EarliestStep | main.go:51 | on a line where all matches have the same length, one scan step keeps "earliest so far, first among equals" |
| Matching.ScanCommonSpan | main.go:46-56 | on such a line the rest of the scan keeps that property to the end |
| Matching.CommonSpanPicksEarliest | main.go:44-58 | when all matches are equally long the winner starts earliest, the lowest index among those starting there |
| Extraction.Cut | main.go:73 | the remainder is shorter than the line by exactly the matched span |
| Extraction.ReinsertCut | main.go:73 | putting the matched text back at its start offset restores the line |
| Extraction.CutReinsert | main.go:73 | cutting out a piece just inserted gives the remainder back |
| Extraction.RestIsUnique | main.go:73 | any string of the right length that restores the line when the match is put back is the cut line |
| Extraction.InCurrentYear | main.go:70-72 | an instant with a year is kept; a year-0 instant becomes itself moved forward by the current year's number of years, which puts it in the current year |
| Extraction.ExtractTimestamp | main.go:65-74 | it yields a timestamp exactly when the matched text parses; on failure the line comes back untouched; on success the remainder is the line minus the span, and re-inserting the span restores it; the instant is the parsed instant after the year correction |
| Classifier.Classify | main.go:83-104 | a continuation, with the whole line, only on a hinted parse failure or when nothing matches; hits only on the hinted path with a timestamp; a hint is learned only off the hinted path, for a pattern that matched, and only with that pattern's remainder; otherwise a scanned line is timestamped at the zero instant with its text whole |
| Classifier.HintPath | main.go:83-92 | when the hinted pattern matches, the reading is exactly `extractTimestamp` on it and no hint is learned |
| Classifier.FullScan | main.go:96-104 | without an applicable hint the reading comes from the scan winner, which becomes the hint exactly when it parses; a non-parsing winner gives the zero instant |
| Classifier.LearnedHintReproduces | main.go:83-101 | re-reading a line with the hint just learned from it takes the hinted path, counts a hit and yields the same reading |
| Classifier.NextHint | main.go:96-101 | the stored hint always indexes the pattern table |
| Classifier.HintOf | main.go:83 | the lookup finds a hint exactly for the files in the map, with the stored value |
| Classifier.ParseLogLine | main.go:76-105 | it counts every line, counts a hit at most once and only for a hinted timestamp, never yields end-of-file, and moves the calling file's hint to the learned one, leaving every other file's hint alone |
| Classifier.HintedParse | main.go:83-92 | on the hinted path the result is `extractTimestamp` on the hinted pattern; the hint map is unchanged and the hit counter grows exactly on success |
| Classifier.ScannedParse | main.go:96-104 | off the hinted path no hit is counted; no match gives a continuation with the map unchanged; a parsing winner is stored as this file's hint and nothing else changes; a non-parsing winner gives the zero instant and leaves the map alone |
| Classifier.ReadNext | main.go:107-117 | end-of-file exactly when no line is left, and then the counters and hints are untouched; otherwise one line is parsed |
| Classifier.TraceFrom | main.go:107-117 | a file read line by line gives one reading per line, never end-of-file, with every hint inside the table |
| Classifier.HintFrom | main.go:83-101 | the hint a file holds after its first `n` lines is a table index |
| Classifier.TraceFromStep | main.go:83-117 | line `n` of a file is classified under the hint its first `n` lines left, and moves the hint as `parseLogLine` does |
| Classifier.HintApplies | main.go:83-86 | the fast-path test: the file has a hint in the table and that pattern matches the line |
| Classifier.HitAt | main.go:83-91 | a line read in turn is at most one hit |
| Classifier.HitAtMeans | main.go:83-91 | a line is a hit exactly when the hint its earlier lines left applies to it and it reads as timestamped |
| Classifier.HitsUpTo | main.go:81-89 | the hits among a file's first `n` lines never exceed `n` |
| Classifier.HintAfter | main.go:83-101 | starting from no hint, the hint after `n` lines is a table index |
| Classifier.ReadNextFollowsTrace | main.go:107-117 | a read at position `pos` with the file's own hint in place yields that line's trace reading, moves only that file's hint to the trace's next one, and counts one line and a hit exactly when that line is one of the file's hits |
| Labels.FilenamePrefix | main.go:119-125 | the label is a suffix of the name of length `min(len, 20)`, and the name itself when it is at most 20 characters |
| Labels.LabelsAgreeOnSuffix | main.go:119-125 | two long names share a label exactly when they share their last 20 characters |
| Merge.RecordsUpTo | main.go:190-207 | the records of the first `n` lines of a file: one per line, in file order, each the record that line stands for |
| Merge.RecordsOf | main.go:159-207 | a started file contributes one record per line, and any other file contributes none |
| Merge.RecordsFollowLines | main.go:190-207 | a file's record for line `q` carries its name and the text the line leaves; a timestamped line carries its own instant, and a line without one inherits the previous record's instant |
| Merge.Sends | main.go:190 | the start-bound test: a record is sent when there is no start bound or its instant is not before it |
| Merge.SinceStartAppend | main.go:190-191 | filtering by the start bound after appending a record appends it exactly when it is not before the bound |
| Merge.NoStartKeepsAll | main.go:190 | without a start bound every record passes |
| Merge.FromSourceAppend | main.go:191 | sending a record for source `w` extends `w`'s share of the output by that record and leaves every other source's share alone |
| Merge.EarliestFrom | main.go:171-179 | the selection loop ends with the first live cursor holding the smallest instant, or none when no cursor is live |
| Merge.Earliest | main.go:166-184 | no source is picked exactly when none is live; a picked source is live, no later than any live one, and strictly earlier than every live source before it |
| Merge.Unopened | main.go:159-160 | a file that could not be opened has no lines, no reads, and is never live |
| Merge.Seed | main.go:159-163 | after the first read a file is live exactly when its first line has a timestamp, stopped for good when it has none, and exhausted when it is empty |
| Merge.Advance | main.go:194-208 | a timestamped line replaces the pending record; a continuation keeps the instant and replaces the text; end-of-file retires the source without reading more |
| Merge.SeedCursor | main.go:159-163 | seeding an opened file leaves a cursor consistent with its lines that is live exactly when the file starts with a timestamp; only that file's hint moves, the line counter advances by the lines read and the hit counter by the hits among them |
| Merge.UnopenedCursor | main.go:159-160 | an unopened file's cursor is consistent, never live, and reads nothing |
| Merge.AdvancePending | main.go:194-208 | advancing a live cursor keeps its pending record equal to the record of the line it last read: a timestamped line's own instant, or the inherited one for a continuation |
| Merge.PendingIsRecord | main.go:190-191 | the record a live source would send is its file's record for the first line not yet selected |
| Merge.AdvanceSorted | main.go:194-208 | on a sorted file, advancing keeps the pending instant no later than any unread timestamp and never moves it backwards |
| Merge.AdvanceCursor | main.go:193-208 | advancing a live cursor with its file's next reading keeps it consistent, strictly decreases its remaining work and adds one selection |
| Merge.AdvanceCache | main.go:197 | reading the picked file moves only its hint, to the one its own lines give, the line counter with its position, and the hit counter by that line's hit |
| Merge.HitsStep | main.go:89 | reading one more line of a file moves the counter by exactly that line's hit, as the file's hit count moves |
| Merge.CountsUpdated | main.go:81-89 | after one cursor is replaced, the line and hit counters are still the sums over the cursors of lines read and hits among them |
| Merge.AdvanceKeeps | main.go:193-208 | one advance keeps the loop invariant over all cursors and the cache, decreases the total remaining work and adds one selection |
| Merge.ClosedCursors | main.go:181-184 | when no source is live, every source has had exactly its expected records selected and lines read |
| Merge.TiesKept | main.go:171-191 | when all files are sorted, sending the first live source's minimum and advancing it keeps records with equal instants in the order of their sources, and no sent record from a later source than a live source pending the same instant |
| Merge.OrderKept | main.go:171-191 | sending or dropping the earliest pending record keeps the output sorted and no later than anything still pending |
| Merge.RecordsKept | main.go:186-192 | a sent record lies in the window and names the started file it came from, like all records before it |
| Merge.OutputKept | main.go:186-208 | one turn keeps every output record in the window and from a started file, the count of sent records without a start bound, and sortedness when all files are sorted |
| Merge.SentNext | main.go:190-191 | sending or dropping source `w`'s next record by the start bound extends its share of the output to the filter of one more of its records |
| Merge.SentElsewhere | main.go:190-191 | a turn for source `w` leaves every other source's share of the output unchanged |
| Merge.SentKept | main.go:186-208 | after one turn, each source's share of the output is still the start-bound filter of its records up to the ones selected |
| Merge.TurnKeeps | main.go:170-208 | one full turn of the loop keeps the whole invariant and strictly decreases the remaining work |
| Merge.CursorsAppended | main.go:159-163 | seeding one more file keeps every cursor consistent and live exactly when its file started |
| Merge.HintsAppended | main.go:159-163 | seeding one more file keeps every seeded file's hint in step and later files without a hint |
| Merge.SeedKeeps | main.go:159-163 | seeding one more file keeps the seeding invariant |
| Merge.SeedAll | main.go:155-163 | after seeding, every file has a consistent cursor, live exactly when the file starts with a timestamp, with its hint in step and nothing yet selected |
| Merge.Begin | main.go:155-165 | before the first turn nothing is sent and each source's empty share is the filter of none of its records |
| Merge.SentSoFar | main.go:165-209 | at any point each source's share of the output is the start-bound filter of a prefix of its records |
| Merge.SentAll | main.go:181-184 | when no source is live, each source's share is the start-bound filter of all its records |
| Merge.SentEverything | main.go:190 | without a start bound each source's share is exactly its records |
| Merge.ClosedEmitted | main.go:181-192 | when no source is live, the selections add up to the records every started file holds |
| Merge.ClosedHits | main.go:81-89 | when no source is live, the cursors' hits add up to the hits among every line a merge without an end bound reads |
| Merge.ClosedRead | main.go:181-209 | when no source is live, the lines read add up to every started file's lines plus one per file that did not start but had a first line |
| Merge.Turn | main.go:170-208 | one turn for the earliest live source within the end bound appends its pending record exactly when the start bound lets it through, keeps the whole invariant and strictly decreases the remaining work |
| Merge.Turns | main.go:165-209 | the loop runs turns until no source is live or the earliest pending record is past the end bound, and keeps the invariant throughout |
| Merge.StopPoint | main.go:181-188 | where the loop stopped, a source that is still live has its first unselected record past the end bound; any other source had all of its records selected, or has none |
| Merge.SentUntilEnd | main.go:181-191 | when the loop stops, each source's share is the start-bound filter of its records up to the first one past the end bound, or all of them |
| Merge.Conclude | main.go:181-188 | when the loop stops, because no source is live or the earliest pending record is past the end bound, each record is in the window and its origin names a started file; each source's share is the start-bound filter of its records up to the first one past the end bound, or all of them; without bounds it is exactly its records; with sorted files the output is sorted with equal instants in source order; without an end bound the line counter counts every line read and the hit counter every cache hit among them; the remaining count promises of the merge hold |
| Merge.MergeLogs | main.go:155-209 | every record is in the window and its origin is a started file whose name it carries; the records from each file appear in file order and are its line records filtered by the start bound, up to its first record past the end bound or all of them; without bounds they are exactly its records; with sorted files the output is sorted and records with equal instants appear in the order of their files; without an end bound every line of a started file, and the first line of every other non-empty file, is read, and the hit counter equals the number of those lines that took the hinted path and parsed; hits never exceed lines read |

## Left out

- `main` is not modelled: flag parsing, glob expansion, the one-second widening of the end bound, printing and timing. The merge receives resolved bounds. A zero-time sentinel bound is modelled as `None`.
- Opening files, `defer f.Close()` and `filepath.Base` are not modelled: a source arrives as a base name plus lines, or `None` when opening failed.
- `bufio.Scanner` is not modelled: a file is its sequence of lines, and a scanner error is not distinguished from the end of the file.
- The goroutine and the channel are not modelled: records are appended to a returned sequence, and `close(ch)` has no counterpart.
- Regular-expression semantics and `time.Parse`, `Year` and `AddDate` are not modelled: they are fields of `Env`, with only the contracts stated by `Env.Valid()`.
- `time.Time` is not modelled: an instant is an integer, so `Before` and `After` are `<` and `>` on integers, and `IsZero` of a bound is the bound being `None`.
- The pattern table's regular expressions and layouts are data only (`Patterns.Table`): the model uses an entry's index, never its text.
- `slog` logging, `logErrorf`, `logWarnf`, `PrintfStderr` and the verbose warning are diagnostics and are not modelled.
- Go's panic on a hint outside the table cannot occur: every stored hint indexes the table (`Classifier.ValidCache`).
- Merge.MergeLogs: the count of sent records is stated only without start and end bounds, and the counts of lines read and of cache hits only without an end bound. With an end bound, how many lines are read is not stated, although where each file stops sending is.
- Merge.MergeLogs: sortedness of the output is promised only when every file's own readings are non-decreasing. The loop always sends the earliest pending record, but a file whose timestamps go backwards still sends its records in file order, so the output is then in general not sorted.
- Merge.MergeLogs: with files that are not sorted, how the records of different files interleave is not a postcondition. What each file contributes, and in which order, is stated; the choice made at each turn is stated by `Merge.Earliest`. With sorted files the interleaving is fixed: the output is sorted, records with equal instants appear in the order of their files, and each file's records appear in file order.
- Merge.Conclude: it gives the promises of `Merge.MergeLogs` and has the same limits listed above.
