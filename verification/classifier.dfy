/** `parseLogLine` and `readNextTimestamp`: classify one line with the
    per-file format hint, and the cache of hints and counters they share. */
module Classifier {
  import opened Base
  import opened Patterns
  import opened Matching
  import opened Extraction

  /** The hinted pattern applies: the file has a hint and that pattern
      matches the line (the fast path of `parseLogLine`). */
  predicate HintApplies(e: Env, hint: Option<nat>, line: string) {
    hint.Some? && hint.value < PatternCount && MatchOf(e, line, hint.value).Some?
  }

  /** The outcome of classifying one line against a hint: the reading, the
      pattern index to store as the file's new hint (if any), and whether the
      fast path succeeded (a cache hit). */
  datatype Classified = Classified(reading: Reading, learned: Option<nat>, hit: bool)

  /** The classification core of `parseLogLine` for the file's hint `hint`.
      - A continuation comes back with the whole line, and only when the
        hinted pattern matched but did not parse, or when (no hint applying)
        no pattern of the table matches at all.
      - A cache hit happens only on the fast path, and only with a timestamp.
      - A hint is learned only when the fast path did not apply, and it names
        a pattern that matches the line.
      - After a full scan whose winner did not parse, the line is reported as
        timestamped at the zero instant with its text kept whole. */
  function Classify(e: Env, hint: Option<nat>, line: string): (c: Classified)
    requires e.Valid()
    requires hint.Some? ==> hint.value < PatternCount
    ensures !c.reading.EndOfFile?
    ensures c.reading.Continuation? ==> c.reading.rest == line
    ensures c.reading.Continuation? <==>
      if HintApplies(e, hint, line)
      then e.parse(hint.value, line[MatchOf(e, line, hint.value).value.lo..MatchOf(e, line, hint.value).value.hi]).None?
      else NoneMatch(e, line)
    ensures c.hit ==> HintApplies(e, hint, line) && c.reading.Timestamped?
    ensures HintApplies(e, hint, line) && c.reading.Timestamped? ==> c.hit
    ensures c.learned.Some? ==> !HintApplies(e, hint, line) && c.learned.value < PatternCount
                                && MatchOf(e, line, c.learned.value).Some?
    ensures c.learned.Some? ==> c.reading.Timestamped? && c.reading.rest == Cut(line, MatchOf(e, line, c.learned.value).value)
    ensures c.reading.Timestamped? && !c.hit && c.learned.None? ==> c.reading == Timestamped(e.zero, line)
  {
    if HintApplies(e, hint, line) then
      var loc := MatchOf(e, line, hint.value).value;
      var r := ExtractTimestamp(e, line, loc, hint.value);
      Classified(r, None, r.Timestamped?)
    else
      match FindBestMatch(e, line)
      case None => Classified(Continuation(line), None, false)
      case Some(m) =>
        var r := ExtractTimestamp(e, line, m.loc, m.index);
        if r.Timestamped? then
          RestIsUnique(line, m.loc, r.rest);
          Classified(r, Some(m.index), false)
        else Classified(Timestamped(e.zero, line), None, false)
  }

  /** Fast path: when the hinted pattern matches, the reading is exactly
      `extractTimestamp` on that pattern, even if another pattern would have
      matched earlier or parsed where this one does not. */
  lemma HintPath(e: Env, hint: Option<nat>, line: string)
    requires e.Valid() && HintApplies(e, hint, line)
    ensures Classify(e, hint, line).reading
         == ExtractTimestamp(e, line, MatchOf(e, line, hint.value).value, hint.value)
    ensures Classify(e, hint, line).learned.None?
  {
  }

  /** Full scan: with no applicable hint the reading comes from the scan's
      winner, and that winner becomes the hint exactly when it parses. */
  lemma FullScan(e: Env, hint: Option<nat>, line: string)
    requires e.Valid() && (hint.Some? ==> hint.value < PatternCount)
    requires !HintApplies(e, hint, line) && !NoneMatch(e, line)
    ensures var m := FindBestMatch(e, line).value;
            var x := ExtractTimestamp(e, line, m.loc, m.index);
            && (x.Timestamped? ==> Classify(e, hint, line) == Classified(x, Some(m.index), false))
            && (x.Continuation? ==> Classify(e, hint, line) == Classified(Timestamped(e.zero, line), None, false))
  {
  }

  /** A learned hint is reused: classifying the same line again with the
      hint just learned takes the fast path, hits the cache and yields the
      same reading, so the cache never changes what a line means. */
  lemma LearnedHintReproduces(e: Env, hint: Option<nat>, line: string)
    requires e.Valid() && (hint.Some? ==> hint.value < PatternCount)
    requires Classify(e, hint, line).learned.Some?
    ensures var c := Classify(e, hint, line);
            var again := Classify(e, c.learned, line);
            again.reading == c.reading && again.hit && again.learned.None?
  {
    var c := Classify(e, hint, line);
    var m := FindBestMatch(e, line).value;
    assert c.learned == Some(m.index);
  }

  /** The hint stays where it was unless a fresh scan parsed. */
  function NextHint(e: Env, hint: Option<nat>, line: string): (h: Option<nat>)
    requires e.Valid()
    requires hint.Some? ==> hint.value < PatternCount
    ensures h.Some? ==> h.value < PatternCount
  {
    var c := Classify(e, hint, line);
    if c.learned.Some? then c.learned else hint
  }

  /** The package-level state of `parseLogLine`: `logFormatIndexes` keyed by
      file index, `processedLines` and `cacheHits`. */
  datatype Cache = Cache(hints: map<nat, nat>, processed: nat, hits: nat)

  /** `logFormatIndexes[k]` with the comma-ok idiom: `None` when file `k`
      has no hint yet. */
  function HintOf(hints: map<nat, nat>, k: nat): (r: Option<nat>)
    ensures r.Some? <==> k in hints
    ensures r.Some? ==> r.value == hints[k]
  {
    if k in hints then Some(hints[k]) else None
  }

  /** Every stored hint indexes the pattern table. */
  predicate ValidCache(c: Cache) {
    forall k :: k in c.hints ==> c.hints[k] < PatternCount
  }

  /** A reading together with the cache after producing it. */
  datatype Parsed = Parsed(reading: Reading, cache: Cache)

  /** `parseLogLine(line, fileIndex)`: classify with the file's own hint,
      count the line, count a hit, and store a learned hint for this file
      index and no other. */
  function ParseLogLine(e: Env, cache: Cache, line: string, fileIndex: nat): (p: Parsed)
    requires e.Valid() && ValidCache(cache)
    ensures ValidCache(p.cache)
    ensures !p.reading.EndOfFile?
    ensures p.reading == Classify(e, HintOf(cache.hints, fileIndex), line).reading
    ensures p.cache.processed == cache.processed + 1
    ensures p.cache.hits == cache.hits + (if Classify(e, HintOf(cache.hints, fileIndex), line).hit then 1 else 0)
    ensures p.cache.hits <= cache.hits + 1
    ensures HintOf(p.cache.hints, fileIndex) == NextHint(e, HintOf(cache.hints, fileIndex), line)
    ensures forall k :: k != fileIndex ==> HintOf(p.cache.hints, k) == HintOf(cache.hints, k)
  {
    var c := Classify(e, HintOf(cache.hints, fileIndex), line);
    var hints := if c.learned.Some? then cache.hints[fileIndex := c.learned.value] else cache.hints;
    Parsed(c.reading, Cache(hints, cache.processed + 1, cache.hits + (if c.hit then 1 else 0)))
  }

  /** On the fast path `parseLogLine` is exactly `extractTimestamp` on the
      hinted pattern: the hint map is left as it was and the hit counter
      grows by one exactly when the timestamp parsed. */
  lemma HintedParse(e: Env, cache: Cache, line: string, fileIndex: nat)
    requires e.Valid() && ValidCache(cache) && HintApplies(e, HintOf(cache.hints, fileIndex), line)
    ensures var p := ParseLogLine(e, cache, line, fileIndex);
      var h := HintOf(cache.hints, fileIndex).value;
      && p.reading == ExtractTimestamp(e, line, MatchOf(e, line, h).value, h)
      && p.cache.hints == cache.hints
      && p.cache.hits == cache.hits + (if p.reading.Timestamped? then 1 else 0)
  {
  }

  /** Off the fast path `parseLogLine` never counts a hit, and it stores the
      scan's winner as this file's hint exactly when the winner parsed,
      changing no other entry. */
  lemma ScannedParse(e: Env, cache: Cache, line: string, fileIndex: nat)
    requires e.Valid() && ValidCache(cache) && !HintApplies(e, HintOf(cache.hints, fileIndex), line)
    ensures var p := ParseLogLine(e, cache, line, fileIndex);
      && p.cache.hits == cache.hits
      && (NoneMatch(e, line) ==> p.reading == Continuation(line) && p.cache.hints == cache.hints)
      && (!NoneMatch(e, line) ==>
            var m := FindBestMatch(e, line).value;
            var x := ExtractTimestamp(e, line, m.loc, m.index);
            && (x.Timestamped? ==> p.reading == x && p.cache.hints == cache.hints[fileIndex := m.index])
            && (x.Continuation? ==> p.reading == Timestamped(e.zero, line) && p.cache.hints == cache.hints))
  {
    if !NoneMatch(e, line) {
      FullScan(e, HintOf(cache.hints, fileIndex), line);
    }
  }

  /** `readNextTimestamp`: reads exactly one line (the next one, at `pos`)
      and classifies it; past the last line it reports the end of the file
      and leaves the cache alone. A scanner error is not distinguished from
      the end of the file. */
  function ReadNext(e: Env, cache: Cache, lines: seq<string>, pos: nat, fileIndex: nat): (p: Parsed)
    requires e.Valid() && ValidCache(cache)
    ensures ValidCache(p.cache)
    ensures p.reading.EndOfFile? <==> pos >= |lines|
    ensures p.reading.EndOfFile? ==> p.cache == cache
    ensures pos < |lines| ==> p == ParseLogLine(e, cache, lines[pos], fileIndex)
  {
    if pos < |lines| then ParseLogLine(e, cache, lines[pos], fileIndex)
    else Parsed(EndOfFile, cache)
  }

  /** One line of a file as the engine reads it: the reading and the file's
      hint once the line has been read. */
  datatype TraceStep = TraceStep(reading: Reading, hint: Option<nat>)

  /** The readings of `lines` in order, starting from hint `hint`. Only reads
      of the file itself move its hint, so this is what the engine sees of
      the file however reads of other files are interleaved. */
  function TraceFrom(e: Env, lines: seq<string>, hint: Option<nat>): (t: seq<TraceStep>)
    requires e.Valid()
    requires hint.Some? ==> hint.value < PatternCount
    ensures |t| == |lines|
    ensures forall n :: 0 <= n < |t| ==> !t[n].reading.EndOfFile?
    ensures forall n :: 0 <= n < |t| && t[n].hint.Some? ==> t[n].hint.value < PatternCount
    decreases |lines|
  {
    if |lines| == 0 then []
    else
      var h := NextHint(e, hint, lines[0]);
      var rest := TraceFrom(e, lines[1..], h);
      var first := TraceStep(Classify(e, hint, lines[0]).reading, h);
      assert forall n :: 0 < n <= |rest| ==> ([first] + rest)[n] == rest[n - 1];
      [first] + rest
  }

  /** The hint a file has after `n` of its lines were read from `hint`. */
  function HintFrom(e: Env, lines: seq<string>, hint: Option<nat>, n: nat): (h: Option<nat>)
    requires e.Valid() && n <= |lines|
    requires hint.Some? ==> hint.value < PatternCount
    ensures h.Some? ==> h.value < PatternCount
  {
    if n == 0 then hint else TraceFrom(e, lines, hint)[n - 1].hint
  }

  /** Line `n` of the trace is the classification of that line under the hint
      the earlier lines left behind, and its hint is the one that
      classification moves to. */
  lemma {:induction false} TraceFromStep(e: Env, lines: seq<string>, hint: Option<nat>, n: nat)
    requires e.Valid() && n < |lines|
    requires hint.Some? ==> hint.value < PatternCount
    ensures var h := HintFrom(e, lines, hint, n);
            TraceFrom(e, lines, hint)[n] == TraceStep(Classify(e, h, lines[n]).reading, NextHint(e, h, lines[n]))
    decreases n
  {
    if n > 0 {
      var h1 := NextHint(e, hint, lines[0]);
      var rest := lines[1..];
      TraceFromStep(e, rest, h1, n - 1);
      assert TraceFrom(e, lines, hint)[n] == TraceFrom(e, rest, h1)[n - 1];
      assert HintFrom(e, lines, hint, n) == HintFrom(e, rest, h1, n - 1) by {
        if n > 1 {
          assert TraceFrom(e, lines, hint)[n - 1] == TraceFrom(e, rest, h1)[n - 2];
        }
      }
      assert rest[n - 1] == lines[n];
    }
  }

  /** The hint file `lines` has after its first `n` lines, starting from no
      hint. */
  function HintAfter(e: Env, lines: seq<string>, n: nat): (h: Option<nat>)
    requires e.Valid() && n <= |lines|
    ensures h.Some? ==> h.value < PatternCount
  {
    HintFrom(e, lines, None, n)
  }

  /** What the engine reads for line `n` of a file. */
  function TraceReading(e: Env, lines: seq<string>, n: nat): Reading
    requires e.Valid() && n < |lines|
  {
    TraceFrom(e, lines, None)[n].reading
  }

  /** Whether line `n` of a file, read in turn, is a cache hit: 1 when the
      hint its earlier lines left applies and the hinted parse succeeds. */
  ghost function HitAt(e: Env, lines: seq<string>, n: nat): (r: nat)
    requires e.Valid() && n < |lines|
    ensures r <= 1
  {
    if Classify(e, HintAfter(e, lines, n), lines[n]).hit then 1 else 0
  }

  /** Line `n` is a hit exactly when the hint its earlier lines left applies
      to it and the line reads as timestamped. */
  lemma HitAtMeans(e: Env, lines: seq<string>, n: nat)
    requires e.Valid() && n < |lines|
    ensures HitAt(e, lines, n) == 1 <==>
      HintApplies(e, HintAfter(e, lines, n), lines[n]) && TraceReading(e, lines, n).Timestamped?
  {
    TraceFromStep(e, lines, None, n);
  }

  /** The cache hits among the first `n` lines of a file read in order. */
  ghost function HitsUpTo(e: Env, lines: seq<string>, n: nat): (r: nat)
    requires e.Valid() && n <= |lines|
    ensures r <= n
    decreases n
  {
    if n == 0 then 0 else HitsUpTo(e, lines, n - 1) + HitAt(e, lines, n - 1)
  }

  /** The file's timestamps, as the engine reads them, never go backwards. */
  ghost predicate SourceSorted(e: Env, lines: seq<string>)
    requires e.Valid()
  {
    forall p, q :: 0 <= p < q < |lines| && TraceReading(e, lines, p).Timestamped? && TraceReading(e, lines, q).Timestamped? ==>
      TraceReading(e, lines, p).instant <= TraceReading(e, lines, q).instant
  }

  /** What one read of file `fileIndex` at position `pos` does, from the
      file's own point of view: past the end it reports the end of the file
      and changes nothing; otherwise it yields the file's own trace reading,
      moves the file's hint on to `HintAfter(pos + 1)`, counts one line and
      a hit exactly when that line is one, and leaves every other file's
      hint alone. */
  ghost predicate FollowsTrace(e: Env, cache: Cache, lines: seq<string>, pos: nat, fileIndex: nat, p: Parsed)
    requires e.Valid()
  {
    && ValidCache(p.cache)
    && (pos >= |lines| ==> p.reading.EndOfFile? && p.cache == cache)
    && (pos < |lines| ==>
          && p.reading == TraceReading(e, lines, pos)
          && HintOf(p.cache.hints, fileIndex) == HintAfter(e, lines, pos + 1)
          && p.cache.processed == cache.processed + 1
          && p.cache.hits == cache.hits + HitAt(e, lines, pos)
          && (forall k :: k != fileIndex ==> HintOf(p.cache.hints, k) == HintOf(cache.hints, k)))
  }

  /** Reading a file line by line through `ReadNext`, whatever other files
      do to the cache in between, follows the file's own trace. */
  lemma ReadNextFollowsTrace(e: Env, cache: Cache, lines: seq<string>, pos: nat, fileIndex: nat)
    requires e.Valid() && ValidCache(cache)
    requires pos <= |lines| ==> HintOf(cache.hints, fileIndex) == HintAfter(e, lines, pos)
    ensures FollowsTrace(e, cache, lines, pos, fileIndex, ReadNext(e, cache, lines, pos, fileIndex))
  {
    if pos < |lines| {
      TraceFromStep(e, lines, None, pos);
    }
  }
}
