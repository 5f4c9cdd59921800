/** `mergeLogs`: seed one pending record per source, then repeatedly emit the
    earliest pending record within the time window and advance its source. */
module Merge {
  import opened Base
  import opened Patterns
  import opened Extraction
  import opened Classifier

  /** One input: its base name and its lines, or `None` when it could not be
      opened. */
  datatype Source = Source(name: string, lines: Option<seq<string>>)

  function LinesOf(s: Source): seq<string> {
    if s.lines.Some? then s.lines.value else []
  }

  /** `fileErrors[i]`: `Open` is nil; the others are the error that stops the
      source (the open error, `NoTimestampError` on the first line, or
      `EndOfFileError`). */
  datatype Status = Open | NotOpened | NoFirstTimestamp | Exhausted

  /** The per-source state of the merge: the lines, how many have been read,
      and the pending record (`timestamps[i]`, `restOfLines[i]`). */
  datatype Cursor = Cursor(lines: seq<string>, pos: nat, instant: int, rest: string, status: Status)

  /** `lineStruct`: what is sent on the output channel. */
  datatype Record = Record(instant: int, filename: string, rest: string)

  /** The first line of the file carries a timestamp, so the file takes part
      in the merge. */
  predicate FirstStamped(e: Env, lines: seq<string>)
    requires e.Valid()
  {
    |lines| > 0 && TraceReading(e, lines, 0).Timestamped?
  }

  predicate Started(e: Env, s: Source)
    requires e.Valid()
  {
    s.lines.Some? && FirstStamped(e, s.lines.value)
  }

  // ---------------------------------------------------------------------
  // The records a source contributes

  /** The instant line `n` of a file is merged under: its own timestamp, or,
      for a line without one, the instant of the nearest timestamped line
      before it (the zero instant when there is none). */
  function InstantAt(e: Env, lines: seq<string>, n: nat): int
    requires e.Valid() && n < |lines|
    decreases n
  {
    var r := TraceReading(e, lines, n);
    if r.Timestamped? then r.instant
    else if n == 0 then e.zero
    else InstantAt(e, lines, n - 1)
  }

  /** The record line `q` of source `s` stands for on the output. */
  function RecordAt(e: Env, s: Source, q: nat): Record
    requires e.Valid() && q < |LinesOf(s)|
  {
    Record(InstantAt(e, LinesOf(s), q), s.name, TraceReading(e, LinesOf(s), q).rest)
  }

  /** The records of the first `n` lines of `s`, in file order. */
  function RecordsUpTo(e: Env, s: Source, n: nat): (r: seq<Record>)
    requires e.Valid() && n <= |LinesOf(s)|
    ensures |r| == n
    ensures forall q :: 0 <= q < n ==> r[q] == RecordAt(e, s, q)
    decreases n
  {
    if n == 0 then [] else RecordsUpTo(e, s, n - 1) + [RecordAt(e, s, n - 1)]
  }

  /** Everything source `s` contributes to a merge without bounds: one
      record per line when it started, nothing otherwise. */
  function RecordsOf(e: Env, s: Source): (r: seq<Record>)
    requires e.Valid()
    ensures Started(e, s) ==> |r| == |LinesOf(s)|
    ensures !Started(e, s) ==> r == []
  {
    if Started(e, s) then RecordsUpTo(e, s, |LinesOf(s)|) else []
  }

  /** The records of a started source follow its lines: each carries the
      file's name and the text its line leaves; a timestamped line carries
      its own instant, and a line without a timestamp inherits the instant
      of the record before it. */
  lemma RecordsFollowLines(e: Env, s: Source, q: nat)
    requires e.Valid() && Started(e, s) && q < |LinesOf(s)|
    ensures var rec := RecordsOf(e, s)[q];
            var reading := TraceReading(e, LinesOf(s), q);
      && rec.filename == s.name && rec.rest == reading.rest
      && (reading.Timestamped? ==> rec.instant == reading.instant)
      && (reading.Continuation? ==> q > 0 && rec.instant == RecordsOf(e, s)[q - 1].instant)
  {
  }

  /** Whether a selected record is sent: no start bound, or not before it. */
  predicate Sends(t: int, start: Option<int>) {
    start.None? || t >= start.value
  }

  /** The records of `recs` the start bound lets through, in order. */
  function SinceStart(recs: seq<Record>, start: Option<int>): (r: seq<Record>)
    ensures |r| <= |recs|
    ensures forall j :: 0 <= j < |r| ==> Sends(r[j].instant, start)
  {
    if |recs| == 0 then []
    else
      var n := |recs| - 1;
      SinceStart(recs[..n], start) + (if Sends(recs[n].instant, start) then [recs[n]] else [])
  }

  lemma SinceStartAppend(recs: seq<Record>, x: Record, start: Option<int>)
    ensures SinceStart(recs + [x], start) == SinceStart(recs, start) + (if Sends(x.instant, start) then [x] else [])
  {
    assert (recs + [x])[..|recs|] == recs;
  }

  /** Without a start bound every record gets through. */
  lemma {:induction false} NoStartKeepsAll(recs: seq<Record>)
    ensures SinceStart(recs, None) == recs
  {
    if |recs| > 0 {
      var n := |recs| - 1;
      NoStartKeepsAll(recs[..n]);
      assert recs[..n] + [recs[n]] == recs;
    }
  }

  /** The records of `out` that came from source `i`, in output order. */
  function FromSource(out: seq<Record>, origin: seq<nat>, i: nat): (r: seq<Record>)
    requires |origin| == |out|
    ensures |r| <= |out|
  {
    if |out| == 0 then []
    else
      var n := |out| - 1;
      FromSource(out[..n], origin[..n], i) + (if origin[n] == i then [out[n]] else [])
  }

  lemma FromSourceAppend(out: seq<Record>, origin: seq<nat>, rec: Record, w: nat, i: nat)
    requires |origin| == |out|
    ensures FromSource(out + [rec], origin + [w], i) == FromSource(out, origin, i) + (if w == i then [rec] else [])
  {
    assert (out + [rec])[..|out|] == out;
    assert (origin + [w])[..|origin|] == origin;
  }

  /** `sent` is what the start bound lets through of some prefix of the
      records of `s`. */
  ghost predicate SentPrefix(e: Env, s: Source, start: Option<int>, sent: seq<Record>)
    requires e.Valid()
  {
    exists k :: 0 <= k <= |LinesOf(s)| && sent == SinceStart(RecordsUpTo(e, s, k), start)
  }

  /** A merge that stops taking records from `s` after its first `k`
      records has either taken all of them or reached one past the end
      bound. */
  ghost predicate StopsAt(e: Env, s: Source, end: Option<int>, k: nat)
    requires e.Valid()
  {
    k <= |RecordsOf(e, s)| && (k == |RecordsOf(e, s)| || (end.Some? && RecordsOf(e, s)[k].instant > end.value))
  }

  /** `sent` is what the start bound lets through of the records of `s` up
      to where the merge stops taking from it. */
  ghost predicate SentUntilStop(e: Env, s: Source, start: Option<int>, end: Option<int>, sent: seq<Record>)
    requires e.Valid()
  {
    exists k :: 0 <= k <= |LinesOf(s)| && StopsAt(e, s, end, k) && sent == SinceStart(RecordsUpTo(e, s, k), start)
  }

  // ---------------------------------------------------------------------
  // Selecting the earliest pending record

  /** `best` is the first live cursor among `cs[..i]` holding the smallest
      pending instant, or there is no live cursor there at all. */
  predicate FirstMinimum(cs: seq<Cursor>, i: nat, best: Option<nat>)
    requires i <= |cs|
  {
    match best
    case None => forall j :: 0 <= j < i ==> !cs[j].status.Open?
    case Some(b) =>
      && b < i && cs[b].status.Open?
      && (forall j :: 0 <= j < i && cs[j].status.Open? ==> cs[b].instant <= cs[j].instant)
      && (forall j :: 0 <= j < b && cs[j].status.Open? ==> cs[b].instant < cs[j].instant)
  }

  /** The selection loop from cursor `i` on, with the strict `Before`. */
  function EarliestFrom(cs: seq<Cursor>, i: nat, best: Option<nat>): (r: Option<nat>)
    requires i <= |cs| && FirstMinimum(cs, i, best)
    ensures FirstMinimum(cs, |cs|, r)
    decreases |cs| - i
  {
    if i == |cs| then best
    else if cs[i].status.Open? && (best.None? || cs[i].instant < cs[best.value].instant) then
      EarliestFrom(cs, i + 1, Some(i))
    else
      EarliestFrom(cs, i + 1, best)
  }

  /** The source the merge picks: a live one whose pending instant is no later
      than any other live one's, the lowest index among equals; `None` exactly
      when no source is live. */
  function Earliest(cs: seq<Cursor>): (r: Option<nat>)
    ensures r.None? <==> forall j :: 0 <= j < |cs| ==> !cs[j].status.Open?
    ensures r.Some? ==> r.value < |cs| && cs[r.value].status.Open?
    ensures r.Some? ==> forall j :: 0 <= j < |cs| && cs[j].status.Open? ==> cs[r.value].instant <= cs[j].instant
    ensures r.Some? ==> forall j :: 0 <= j < r.value && cs[j].status.Open? ==> cs[r.value].instant < cs[j].instant
  {
    EarliestFrom(cs, 0, None)
  }

  // ---------------------------------------------------------------------
  // Seeding and advancing a source

  /** A source that could not be opened: never read, never live. */
  function Unopened(e: Env): (c: Cursor)
    ensures c.status.NotOpened? && c.lines == [] && c.pos == 0
  {
    Cursor([], 0, e.zero, "", NotOpened)
  }

  /** The cursor of an opened source after its first read: live with the
      first record pending when the first line has a timestamp; stopped for
      good when it has none (`NoTimestampError`) or the file is empty. */
  function Seed(e: Env, lines: seq<string>, first: Reading): (c: Cursor)
    ensures c.lines == lines
    ensures c.status.Open? <==> first.Timestamped?
    ensures c.status.NoFirstTimestamp? <==> first.Continuation?
    ensures c.status.Exhausted? <==> first.EndOfFile?
    ensures first.Timestamped? ==> c.instant == first.instant
    ensures !first.EndOfFile? ==> c.pos == 1 && c.rest == first.rest
    ensures first.EndOfFile? ==> c.pos == 0
  {
    match first
    case Timestamped(t, rest) => Cursor(lines, 1, t, rest, Open)
    case Continuation(rest) => Cursor(lines, 1, e.zero, rest, NoFirstTimestamp)
    case EndOfFile => Cursor(lines, 0, e.zero, "", Exhausted)
  }

  /** Advance a live cursor with the next reading of its file: a timestamped
      line replaces the pending record; a line without a timestamp keeps the
      source's previous instant and replaces only the text; the end of the
      file retires the source for good. */
  function Advance(c: Cursor, next: Reading): (r: Cursor)
    requires c.status.Open?
    ensures r.lines == c.lines
    ensures next.Timestamped? ==> r == Cursor(c.lines, c.pos + 1, next.instant, next.rest, Open)
    ensures next.Continuation? ==> r == Cursor(c.lines, c.pos + 1, c.instant, next.rest, Open)
    ensures next.EndOfFile? ==> r.status.Exhausted? && r.pos == c.pos
  {
    match next
    case Timestamped(t, rest) => c.(pos := c.pos + 1, instant := t, rest := rest)
    case Continuation(rest) => c.(pos := c.pos + 1, rest := rest)
    case EndOfFile => c.(rest := "", status := Exhausted)
  }

  // ---------------------------------------------------------------------
  // Sums over cursors and sources

  function Total<T>(s: seq<T>, f: T -> nat): nat {
    if |s| == 0 then 0 else Total(s[..|s| - 1], f) + f(s[|s| - 1])
  }

  lemma {:induction false} TotalUpdate<T>(s: seq<T>, k: nat, x: T, f: T -> nat)
    requires k < |s|
    ensures Total(s[k := x], f) == Total(s, f) - f(s[k]) + f(x)
    decreases |s|
  {
    var n := |s| - 1;
    if k < n {
      assert s[k := x][..n] == s[..n][k := x];
      TotalUpdate(s[..n], k, x, f);
    } else {
      assert s[k := x][..n] == s[..n];
    }
  }

  lemma TotalAppend<T>(s: seq<T>, x: T, f: T -> nat)
    ensures Total(s + [x], f) == Total(s, f) + f(x)
  {
    assert (s + [x])[..|s|] == s;
  }

  /** Lines read from a source so far. */
  function Pos(c: Cursor): nat { c.pos }

  /** Records of a source the merge has selected so far: all lines read
      except the pending one while it is live, every line once it ran out. */
  function Selected(c: Cursor): nat {
    match c.status
    case Open => if c.pos > 0 then c.pos - 1 else 0
    case Exhausted => c.pos
    case _ => 0
  }

  /** Work left for a live source: its unread lines plus the final read that
      reports the end of the file. */
  function Pending(c: Cursor): nat {
    if c.status.Open? && c.pos <= |c.lines| then |c.lines| - c.pos + 1 else 0
  }

  /** Records a full merge without bounds emits for one source: every line
      of a source that opened and whose first line has a timestamp. */
  ghost function EmittedBy(e: Env, s: Source): nat {
    if e.Valid() && Started(e, s) then |s.lines.value| else 0
  }

  /** Lines a merge without an end bound reads from one source: all of a
      started source, the first line of one whose first line has no
      timestamp, none of one that did not open. */
  ghost function ReadFrom(e: Env, s: Source): nat {
    if e.Valid() && Started(e, s) then |s.lines.value| else if |LinesOf(s)| > 0 then 1 else 0
  }

  ghost function EmittedCount(e: Env): Source -> nat {
    s => EmittedBy(e, s)
  }

  ghost function ReadCount(e: Env): Source -> nat {
    s => ReadFrom(e, s)
  }

  ghost function ExpectedEmitted(e: Env, sources: seq<Source>): nat {
    Total(sources, EmittedCount(e))
  }

  ghost function ExpectedRead(e: Env, sources: seq<Source>): nat {
    Total(sources, ReadCount(e))
  }

  /** Cache hits so far among the lines a cursor has read. */
  ghost function Hits(e: Env): Cursor -> nat {
    (c: Cursor) => if e.Valid() && c.pos <= |c.lines| then HitsUpTo(e, c.lines, c.pos) else 0
  }

  /** Cache hits among the lines a merge without an end bound reads from one
      source. */
  ghost function HitCount(e: Env): Source -> nat {
    (s: Source) => if e.Valid() && ReadFrom(e, s) <= |LinesOf(s)| then HitsUpTo(e, LinesOf(s), ReadFrom(e, s)) else 0
  }

  ghost function ExpectedHits(e: Env, sources: seq<Source>): nat {
    Total(sources, HitCount(e))
  }

  // ---------------------------------------------------------------------
  // The state the merge keeps

  /** On a sorted source, no timestamp still unread is earlier than the
      pending one. */
  ghost predicate PendingFirst(e: Env, c: Cursor)
    requires e.Valid()
  {
    c.status.Open? && SourceSorted(e, c.lines) ==>
      forall q :: c.pos <= q < |c.lines| && TraceReading(e, c.lines, q).Timestamped? ==>
        c.instant <= TraceReading(e, c.lines, q).instant
  }

  /** A live cursor's pending instant and text are those of the record of
      the last line it read. */
  ghost predicate PendingRecord(e: Env, c: Cursor)
    requires e.Valid()
  {
    c.status.Open? && 1 <= c.pos <= |c.lines| ==>
      c.instant == InstantAt(e, c.lines, c.pos - 1) && c.rest == TraceReading(e, c.lines, c.pos - 1).rest
  }

  /** A cursor agrees with its source: it holds the source's lines, its
      status matches what its reads returned, its pending record is that of
      the last line read, and, when the source is sorted, no later timestamp
      of the source is earlier than the pending one. */
  ghost predicate CursorOk(e: Env, s: Source, c: Cursor)
    requires e.Valid()
  {
    && c.lines == LinesOf(s)
    && c.pos <= |c.lines|
    && (c.status.NotOpened? <==> s.lines.None?)
    && (c.status.NotOpened? ==> c.pos == 0)
    && (c.status.NoFirstTimestamp? ==> c.pos == 1 && !FirstStamped(e, c.lines))
    && (c.status.Open? ==> c.pos >= 1 && FirstStamped(e, c.lines))
    && (c.status.Exhausted? ==> c.pos == |c.lines| && (c.pos == 0 || FirstStamped(e, c.lines)))
    && PendingRecord(e, c)
    && PendingFirst(e, c)
  }

  /** Every file's stored hint is the one its own reads produced. */
  ghost predicate HintsInStep(e: Env, cs: seq<Cursor>, hints: map<nat, nat>)
    requires e.Valid()
  {
    forall i :: 0 <= i < |cs| ==>
      cs[i].pos <= |cs[i].lines| && HintOf(hints, i) == HintAfter(e, cs[i].lines, cs[i].pos)
  }

  /** The whole merge state is consistent with the sources: one cursor per
      source, each file's stored hint is the one its own reads produced, and
      `processedLines` counts the lines read and `cacheHits` the hits among
      them. */
  ghost predicate Inv(e: Env, sources: seq<Source>, cs: seq<Cursor>, cache: Cache)
    requires e.Valid()
  {
    && |cs| == |sources|
    && ValidCache(cache)
    && (forall i :: 0 <= i < |cs| ==> CursorOk(e, sources[i], cs[i]))
    && HintsInStep(e, cs, cache.hints)
    && cache.processed == Total(cs, Pos)
    && cache.hits == Total(cs, Hits(e))
    && cache.hits <= cache.processed
  }

  /** Seeding an opened source leaves a cursor consistent with it whose
      stored hint follows its own first read. */
  lemma SeedCursor(e: Env, s: Source, cache: Cache, k: nat, p: Parsed)
    requires e.Valid() && s.lines.Some? && ValidCache(cache)
    requires HintOf(cache.hints, k).None?
    requires FollowsTrace(e, cache, s.lines.value, 0, k, p)
    ensures var c := Seed(e, s.lines.value, p.reading);
      && CursorOk(e, s, c)
      && (c.status.Open? <==> Started(e, s))
      && Selected(c) == 0
      && ValidCache(p.cache)
      && HintOf(p.cache.hints, k) == HintAfter(e, c.lines, c.pos)
      && (forall j :: j != k ==> HintOf(p.cache.hints, j) == HintOf(cache.hints, j))
      && p.cache.processed == cache.processed + c.pos
      && p.cache.hits <= cache.hits + c.pos
      && p.cache.hits == cache.hits + Hits(e)(c)
  {
  }

  /** A source that could not be opened leaves the cache alone. */
  lemma UnopenedCursor(e: Env, s: Source)
    requires e.Valid() && s.lines.None?
    ensures var c := Unopened(e);
      && CursorOk(e, s, c)
      && !c.status.Open? && !Started(e, s)
      && Selected(c) == 0 && c.pos == 0
      && HintAfter(e, c.lines, c.pos).None?
  {
  }

  /** Advancing keeps the pending record that of the last line read: a
      timestamped line brings its own instant, a continuation keeps the
      instant, which is then the one its line inherits. */
  lemma AdvancePending(e: Env, c: Cursor, r: Reading)
    requires e.Valid() && c.status.Open? && 1 <= c.pos <= |c.lines| && PendingRecord(e, c)
    requires c.pos >= |c.lines| ==> r.EndOfFile?
    requires c.pos < |c.lines| ==> r == TraceReading(e, c.lines, c.pos)
    ensures PendingRecord(e, Advance(c, r))
  {
    if !r.EndOfFile? {
      var c' := Advance(c, r);
      assert c'.pos - 1 == c.pos && c'.rest == r.rest;
      if r.Timestamped? {
        assert c'.instant == InstantAt(e, c.lines, c.pos);
      } else {
        assert c'.instant == InstantAt(e, c.lines, c.pos - 1);
      }
    }
  }

  /** The pending record of a live cursor is the record of its source's
      line just read, the first record not yet selected. */
  lemma PendingIsRecord(e: Env, s: Source, c: Cursor)
    requires e.Valid() && CursorOk(e, s, c) && c.status.Open?
    ensures Selected(c) < |LinesOf(s)|
    ensures Record(c.instant, s.name, c.rest) == RecordAt(e, s, Selected(c))
  {
  }

  /** On a sorted source, advancing keeps the pending instant no later than
      any unread timestamp, and never moves it backwards. */
  lemma AdvanceSorted(e: Env, c: Cursor, r: Reading)
    requires e.Valid() && c.status.Open? && c.pos <= |c.lines| && PendingFirst(e, c)
    requires c.pos >= |c.lines| ==> r.EndOfFile?
    requires c.pos < |c.lines| ==> r == TraceReading(e, c.lines, c.pos)
    ensures var c' := Advance(c, r);
      && PendingFirst(e, c')
      && (c'.status.Open? && SourceSorted(e, c.lines) ==> c.instant <= c'.instant)
  {
  }

  /** Advancing one live cursor with its file's next reading: it stays
      consistent with its source, one more record is selected, less work is
      left, and on a sorted source the pending instant never moves back. */
  lemma AdvanceCursor(e: Env, s: Source, c: Cursor, r: Reading)
    requires e.Valid() && CursorOk(e, s, c) && c.status.Open?
    requires c.pos >= |c.lines| ==> r.EndOfFile?
    requires c.pos < |c.lines| ==> r == TraceReading(e, c.lines, c.pos)
    ensures var c' := Advance(c, r);
      && CursorOk(e, s, c')
      && c'.pos <= |c'.lines|
      && Pending(c') < Pending(c)
      && Selected(c') == Selected(c) + 1
      && (c'.status.Open? && SourceSorted(e, c.lines) ==> c.instant <= c'.instant)
  {
    AdvanceSorted(e, c, r);
    AdvancePending(e, c, r);
  }

  /** The cache after one read of file `k`: only `k`'s hint moved, to the
      one its reads so far produce, and the line count moved with `k`'s
      position. */
  lemma AdvanceCache(e: Env, c: Cursor, cache: Cache, k: nat, p: Parsed)
    requires e.Valid() && c.status.Open? && c.pos <= |c.lines|
    requires ValidCache(cache) && cache.hits <= cache.processed
    requires HintOf(cache.hints, k) == HintAfter(e, c.lines, c.pos)
    requires FollowsTrace(e, cache, c.lines, c.pos, k, p)
    ensures var c' := Advance(c, p.reading);
      && ValidCache(p.cache)
      && HintOf(p.cache.hints, k) == HintAfter(e, c'.lines, c'.pos)
      && (forall j :: j != k ==> HintOf(p.cache.hints, j) == HintOf(cache.hints, j))
      && p.cache.processed == cache.processed - c.pos + c'.pos
      && p.cache.hits <= p.cache.processed
      && p.cache.hits + Hits(e)(c) == cache.hits + Hits(e)(c')
  {
    var c' := Advance(c, p.reading);
    HitsStep(e, c.lines, c.pos, cache.hits, p.cache.hits);
    assert c'.lines == c.lines && c'.pos == if c.pos < |c.lines| then c.pos + 1 else c.pos;
  }

  /** Reading line `pos` of a file, when the hit counter moves from `before`
      to `after` by that line's hit, moves the file's hit count in step. */
  lemma HitsStep(e: Env, lines: seq<string>, pos: nat, before: nat, after: nat)
    requires e.Valid() && pos <= |lines|
    requires pos >= |lines| ==> after == before
    requires pos < |lines| ==> after == before + HitAt(e, lines, pos)
    ensures after + HitsUpTo(e, lines, pos) == before + HitsUpTo(e, lines, if pos < |lines| then pos + 1 else pos)
  {
  }

  /** Replacing one cursor whose hint is in step, while no other file's
      hint moves, keeps every file's hint in step. */
  lemma HintsKept(e: Env, cs: seq<Cursor>, h: map<nat, nat>, h': map<nat, nat>, k: nat, c': Cursor)
    requires e.Valid() && k < |cs| && HintsInStep(e, cs, h)
    requires forall j :: j != k ==> HintOf(h', j) == HintOf(h, j)
    requires c'.pos <= |c'.lines| && HintOf(h', k) == HintAfter(e, c'.lines, c'.pos)
    ensures HintsInStep(e, cs[k := c'], h')
  {
    forall i | 0 <= i < |cs|
      ensures cs[k := c'][i].pos <= |cs[k := c'][i].lines|
      ensures HintOf(h', i) == HintAfter(e, cs[k := c'][i].lines, cs[k := c'][i].pos)
    {
      if i != k {
        assert cs[k := c'][i] == cs[i];
        assert HintOf(h', i) == HintOf(h, i);
      }
    }
  }

  /** Replacing one cursor by one consistent with its source keeps every
      cursor consistent with its source. */
  lemma CursorsUpdated(e: Env, sources: seq<Source>, cs: seq<Cursor>, k: nat, c': Cursor)
    requires e.Valid() && |cs| == |sources| && k < |cs|
    requires forall i :: 0 <= i < |cs| ==> CursorOk(e, sources[i], cs[i])
    requires CursorOk(e, sources[k], c')
    ensures forall i :: 0 <= i < |cs| ==> CursorOk(e, sources[i], cs[k := c'][i])
  {
    forall i | 0 <= i < |cs|
      ensures CursorOk(e, sources[i], cs[k := c'][i])
    {
      if i != k {
        assert cs[k := c'][i] == cs[i];
      }
    }
  }

  /** The line and hit counters follow a cursor replaced in place. */
  lemma CountsUpdated(e: Env, cs: seq<Cursor>, cache: Cache, k: nat, c': Cursor, cache': Cache)
    requires e.Valid() && k < |cs|
    requires cache.processed == Total(cs, Pos) && cache.hits == Total(cs, Hits(e))
    requires cache'.processed == cache.processed - cs[k].pos + c'.pos
    requires cache'.hits + Hits(e)(cs[k]) == cache.hits + Hits(e)(c')
    ensures cache'.processed == Total(cs[k := c'], Pos) && cache'.hits == Total(cs[k := c'], Hits(e))
  {
    TotalUpdate(cs, k, c', Pos);
    TotalUpdate(cs, k, c', Hits(e));
  }

  /** Replacing cursor `k` by one consistent with its source, with a cache
      whose only moved hint is `k`'s own and whose line and hit counts moved with
      `k`'s reads, keeps the whole state consistent. */
  lemma ReplaceKeeps(e: Env, sources: seq<Source>, cs: seq<Cursor>, cache: Cache, k: nat, c': Cursor, cache': Cache)
    requires e.Valid() && Inv(e, sources, cs, cache) && k < |cs|
    requires CursorOk(e, sources[k], c') && c'.pos <= |c'.lines|
    requires ValidCache(cache') && cache'.hits <= cache'.processed
    requires HintOf(cache'.hints, k) == HintAfter(e, c'.lines, c'.pos)
    requires forall j :: j != k ==> HintOf(cache'.hints, j) == HintOf(cache.hints, j)
    requires cache'.processed == cache.processed - cs[k].pos + c'.pos
    requires cache'.hits + Hits(e)(cs[k]) == cache.hits + Hits(e)(c')
    ensures Inv(e, sources, cs[k := c'], cache')
  {
    HintsKept(e, cs, cache.hints, cache'.hints, k, c');
    CursorsUpdated(e, sources, cs, k, c');
    CountsUpdated(e, cs, cache, k, c', cache');
  }

  /** Advancing the selected source keeps the whole state consistent, and
      counts one more selection while leaving less work. */
  lemma AdvanceKeeps(e: Env, sources: seq<Source>, cs: seq<Cursor>, cache: Cache, k: nat, p: Parsed)
    requires e.Valid() && Inv(e, sources, cs, cache)
    requires k < |cs| && cs[k].status.Open?
    requires FollowsTrace(e, cache, cs[k].lines, cs[k].pos, k, p)
    ensures var c' := Advance(cs[k], p.reading);
      && Inv(e, sources, cs[k := c'], p.cache)
      && Total(cs[k := c'], Pending) < Total(cs, Pending)
      && Total(cs[k := c'], Selected) == Total(cs, Selected) + 1
      && Selected(c') == Selected(cs[k]) + 1
      && (c'.status.Open? && SourceSorted(e, cs[k].lines) ==> cs[k].instant <= c'.instant)
  {
    var c' := Advance(cs[k], p.reading);
    assert CursorOk(e, sources[k], cs[k]);
    assert HintOf(cache.hints, k) == HintAfter(e, cs[k].lines, cs[k].pos);
    AdvanceCursor(e, sources[k], cs[k], p.reading);
    AdvanceCache(e, cs[k], cache, k, p);
    ReplaceKeeps(e, sources, cs, cache, k, c', p.cache);
    TotalUpdate(cs, k, c', Pending);
    TotalUpdate(cs, k, c', Selected);
  }

  /** A source that is no longer live has had all its records selected
      and all the lines a merge without an end bound reads. */
  lemma ClosedCursors(e: Env, sources: seq<Source>, cs: seq<Cursor>)
    requires e.Valid() && |cs| == |sources|
    requires forall i :: 0 <= i < |cs| ==> CursorOk(e, sources[i], cs[i])
    requires forall i :: 0 <= i < |cs| ==> !cs[i].status.Open?
    ensures forall i :: 0 <= i < |cs| ==> Selected(cs[i]) == EmittedCount(e)(sources[i])
    ensures forall i :: 0 <= i < |cs| ==> Pos(cs[i]) == ReadCount(e)(sources[i])
  {
    forall i | 0 <= i < |cs|
      ensures Selected(cs[i]) == EmittedCount(e)(sources[i]) && Pos(cs[i]) == ReadCount(e)(sources[i])
    {
      assert CursorOk(e, sources[i], cs[i]);
    }
  }

  /** Two sums agree when their terms agree pointwise. */
  lemma {:induction false} TotalsAgree<T, U>(xs: seq<T>, ys: seq<U>, f: T -> nat, g: U -> nat)
    requires |xs| == |ys|
    requires forall i :: 0 <= i < |xs| ==> f(xs[i]) == g(ys[i])
    ensures Total(xs, f) == Total(ys, g)
    decreases |xs|
  {
    if |xs| > 0 {
      var n := |xs| - 1;
      assert forall i :: 0 <= i < n ==> xs[..n][i] == xs[i] && ys[..n][i] == ys[i];
      TotalsAgree(xs[..n], ys[..n], f, g);
    }
  }

  // ---------------------------------------------------------------------
  // The merge

  predicate InWindow(t: int, start: Option<int>, end: Option<int>) {
    (start.Some? ==> start.value <= t) && (end.Some? ==> t <= end.value)
  }

  predicate Sorted(out: seq<Record>) {
    forall i, j :: 0 <= i < j < |out| ==> out[i].instant <= out[j].instant
  }

  ghost predicate AllSorted(e: Env, sources: seq<Source>)
    requires e.Valid()
  {
    forall i :: 0 <= i < |sources| ==> SourceSorted(e, LinesOf(sources[i]))
  }

  /** Nothing sent is later than any record still pending. */
  predicate NoLaterThanPending(out: seq<Record>, cs: seq<Cursor>) {
    forall j, k :: 0 <= j < |out| && 0 <= k < |cs| && cs[k].status.Open? ==> out[j].instant <= cs[k].instant
  }

  /** Sending the earliest pending record (or dropping it) and advancing its
      source to an instant no earlier keeps the output sorted and no later
      than what is pending. */
  lemma OrderKept(out: seq<Record>, cs: seq<Cursor>, w: nat, rec: Record, sent: bool, c': Cursor)
    requires Sorted(out) && NoLaterThanPending(out, cs)
    requires w < |cs| && cs[w].status.Open?
    requires forall k :: 0 <= k < |cs| && cs[k].status.Open? ==> cs[w].instant <= cs[k].instant
    requires rec.instant == cs[w].instant
    requires c'.status.Open? ==> cs[w].instant <= c'.instant
    ensures var out' := if sent then out + [rec] else out;
            Sorted(out') && NoLaterThanPending(out', cs[w := c'])
  {
  }

  /** Equal instants leave in source order: a record sent is from a source
      no later than any live source pending the same instant, and records
      with equal instants appear in the order of their sources. */
  predicate TiesInOrder(out: seq<Record>, origin: seq<nat>, cs: seq<Cursor>)
    requires |origin| == |out|
  {
    && (forall j, k :: 0 <= j < |out| && 0 <= k < |cs| && cs[k].status.Open? && cs[k].instant == out[j].instant ==>
          origin[j] <= k)
    && (forall j, k :: 0 <= j < k < |out| && out[j].instant == out[k].instant ==> origin[j] <= origin[k])
  }

  /** Sending (or dropping) the record of the first live source holding the
      smallest pending instant, and advancing that source to an instant no
      earlier, keeps equal instants in source order. */
  lemma TiesKept(out: seq<Record>, origin: seq<nat>, cs: seq<Cursor>, w: nat, sent: bool, rec: Record, c': Cursor)
    requires |origin| == |out| && TiesInOrder(out, origin, cs) && NoLaterThanPending(out, cs)
    requires Earliest(cs) == Some(w) && rec.instant == cs[w].instant
    requires c'.status.Open? ==> cs[w].instant <= c'.instant
    ensures var out' := if sent then out + [rec] else out;
      var origin' := if sent then origin + [w] else origin;
      TiesInOrder(out', origin', cs[w := c'])
  {
    var out' := if sent then out + [rec] else out;
    var origin' := if sent then origin + [w] else origin;
    var cs' := cs[w := c'];
    forall j, k | 0 <= j < |out'| && 0 <= k < |cs'| && cs'[k].status.Open? && cs'[k].instant == out'[j].instant
      ensures origin'[j] <= k
    {
      if j < |out| {
        assert out'[j] == out[j] && origin'[j] == origin[j];
        if k == w {
          assert out[j].instant <= cs[w].instant;
        } else {
          assert cs'[k] == cs[k];
        }
      } else {
        assert origin'[j] == w && out'[j].instant == cs[w].instant;
        if k != w {
          assert cs'[k] == cs[k];
        }
      }
    }
    forall j, k | 0 <= j < k < |out'| && out'[j].instant == out'[k].instant
      ensures origin'[j] <= origin'[k]
    {
      assert out'[j] == out[j] && origin'[j] == origin[j];
      if k == |out| {
        assert origin'[k] == w && out'[k].instant == cs[w].instant;
      } else {
        assert out'[k] == out[k] && origin'[k] == origin[k];
      }
    }
  }

  /** What the output sent so far satisfies: each record lies in the window
      and comes from a source that opened with a timestamped first line
      (`origin` names it); without a start bound every selection was sent;
      and, when every source is sorted, the output is sorted and no later
      than anything still pending. */
  ghost predicate OutputOk(e: Env, sources: seq<Source>, start: Option<int>, end: Option<int>,
                           out: seq<Record>, origin: seq<nat>, cs: seq<Cursor>)
    requires e.Valid()
  {
    && |origin| == |out|
    && (forall j :: 0 <= j < |out| ==> InWindow(out[j].instant, start, end))
    && (forall j :: 0 <= j < |out| ==>
          origin[j] < |sources| && out[j].filename == sources[origin[j]].name && Started(e, sources[origin[j]]))
    && (start.None? ==> |out| == Total(cs, Selected))
    && (AllSorted(e, sources) ==> Sorted(out) && NoLaterThanPending(out, cs))
  }

  /** Sending one more record, in the window and from a started source,
      keeps every record in the window and attributed to a started source. */
  lemma RecordsKept(e: Env, sources: seq<Source>, start: Option<int>, end: Option<int>,
                    out: seq<Record>, origin: seq<nat>, w: nat, rec: Record)
    requires e.Valid() && |origin| == |out|
    requires forall j :: 0 <= j < |out| ==> InWindow(out[j].instant, start, end)
    requires forall j :: 0 <= j < |out| ==>
      origin[j] < |sources| && out[j].filename == sources[origin[j]].name && Started(e, sources[origin[j]])
    requires w < |sources| && rec.filename == sources[w].name && Started(e, sources[w])
    requires InWindow(rec.instant, start, end)
    ensures forall j :: 0 <= j < |out| + 1 ==> InWindow((out + [rec])[j].instant, start, end)
    ensures forall j :: 0 <= j < |out| + 1 ==>
      (origin + [w])[j] < |sources| && (out + [rec])[j].filename == sources[(origin + [w])[j]].name
      && Started(e, sources[(origin + [w])[j]])
  {
    forall j | 0 <= j < |out| + 1
      ensures InWindow((out + [rec])[j].instant, start, end)
      ensures (origin + [w])[j] < |sources| && (out + [rec])[j].filename == sources[(origin + [w])[j]].name
      ensures Started(e, sources[(origin + [w])[j]])
    {
      if j < |out| {
        assert (out + [rec])[j] == out[j] && (origin + [w])[j] == origin[j];
      }
    }
  }

  /** Sending (or dropping) the record of the earliest live source `w` and
      replacing its cursor by `c'` keeps the output invariant, given what
      advancing the source guarantees: one more selection, and on a sorted
      source a pending instant that does not move backwards. */
  lemma OutputKept(e: Env, sources: seq<Source>, start: Option<int>, end: Option<int>,
                   out: seq<Record>, origin: seq<nat>, cs: seq<Cursor>, w: nat, c': Cursor)
    requires e.Valid() && OutputOk(e, sources, start, end, out, origin, cs)
    requires |cs| == |sources| && Earliest(cs) == Some(w)
    requires Started(e, sources[w])
    requires end.None? || cs[w].instant <= end.value
    requires Total(cs[w := c'], Selected) == Total(cs, Selected) + 1
    requires c'.status.Open? && SourceSorted(e, LinesOf(sources[w])) ==> cs[w].instant <= c'.instant
    ensures var sent := Sends(cs[w].instant, start);
      var out' := if sent then out + [Record(cs[w].instant, sources[w].name, cs[w].rest)] else out;
      var origin' := if sent then origin + [w] else origin;
      OutputOk(e, sources, start, end, out', origin', cs[w := c'])
  {
    var sent := Sends(cs[w].instant, start);
    var rec := Record(cs[w].instant, sources[w].name, cs[w].rest);
    if AllSorted(e, sources) {
      assert SourceSorted(e, LinesOf(sources[w]));
      OrderKept(out, cs, w, rec, sent, c');
    }
    if sent {
      RecordsKept(e, sources, start, end, out, origin, w, rec);
    }
  }

  /** Each source's records on the output are, in output order, those of
      its selected records that the start bound lets through. */
  ghost predicate SentPerSource(e: Env, sources: seq<Source>, start: Option<int>,
                                out: seq<Record>, origin: seq<nat>, cs: seq<Cursor>)
    requires e.Valid()
  {
    && |origin| == |out|
    && (forall i :: 0 <= i < |cs| && i < |sources| && Selected(cs[i]) <= |LinesOf(sources[i])| ==>
          FromSource(out, origin, i) == SinceStart(RecordsUpTo(e, sources[i], Selected(cs[i])), start))
  }

  /** Sending (or dropping) the record of line `n` of source `s`, when its
      output so far is what the start bound lets through of its first `n`
      records, makes it that of its first `n + 1`. */
  lemma SentNext(e: Env, s: Source, start: Option<int>, out: seq<Record>, origin: seq<nat>, w: nat, n: nat)
    requires e.Valid() && |origin| == |out| && n < |LinesOf(s)|
    requires FromSource(out, origin, w) == SinceStart(RecordsUpTo(e, s, n), start)
    ensures var rec := RecordAt(e, s, n);
      var sent := Sends(rec.instant, start);
      var out' := if sent then out + [rec] else out;
      var origin' := if sent then origin + [w] else origin;
      FromSource(out', origin', w) == SinceStart(RecordsUpTo(e, s, n + 1), start)
  {
    var rec := RecordAt(e, s, n);
    if Sends(rec.instant, start) {
      FromSourceAppend(out, origin, rec, w, w);
    }
    SinceStartAppend(RecordsUpTo(e, s, n), rec, start);
  }

  /** A record sent for source `w` is not another source's output. */
  lemma SentElsewhere(out: seq<Record>, origin: seq<nat>, rec: Record, w: nat, sent: bool, i: nat)
    requires |origin| == |out| && i != w
    ensures var out' := if sent then out + [rec] else out;
      var origin' := if sent then origin + [w] else origin;
      FromSource(out', origin', i) == FromSource(out, origin, i)
  {
    if sent {
      FromSourceAppend(out, origin, rec, w, i);
    }
  }

  /** Selecting the pending record of source `w`, which is the record of
      its next unselected line, and sending it when the start bound allows,
      extends that source's output by exactly that record and leaves every
      other source's output alone. */
  lemma SentKept(e: Env, sources: seq<Source>, start: Option<int>,
                 out: seq<Record>, origin: seq<nat>, cs: seq<Cursor>, w: nat, c': Cursor)
    requires e.Valid() && SentPerSource(e, sources, start, out, origin, cs)
    requires |cs| == |sources| && w < |cs|
    requires Selected(cs[w]) < |LinesOf(sources[w])|
    requires Record(cs[w].instant, sources[w].name, cs[w].rest) == RecordAt(e, sources[w], Selected(cs[w]))
    requires Selected(c') == Selected(cs[w]) + 1
    ensures var sent := Sends(cs[w].instant, start);
      var out' := if sent then out + [Record(cs[w].instant, sources[w].name, cs[w].rest)] else out;
      var origin' := if sent then origin + [w] else origin;
      SentPerSource(e, sources, start, out', origin', cs[w := c'])
  {
    forall i | 0 <= i < |cs| && i < |sources| && Selected(cs[w := c'][i]) <= |LinesOf(sources[i])|
      ensures var sent := Sends(cs[w].instant, start);
        var out' := if sent then out + [Record(cs[w].instant, sources[w].name, cs[w].rest)] else out;
        var origin' := if sent then origin + [w] else origin;
        FromSource(out', origin', i) == SinceStart(RecordsUpTo(e, sources[i], Selected(cs[w := c'][i])), start)
    {
      if i == w {
        SentNext(e, sources[w], start, out, origin, w, Selected(cs[w]));
      } else {
        assert cs[w := c'][i] == cs[i];
        SentElsewhere(out, origin, Record(cs[w].instant, sources[w].name, cs[w].rest), w, Sends(cs[w].instant, start), i);
      }
    }
  }

  /** The state of the merge loop between turns: the cursors and the cache
      are consistent and the output so far is in order. */
  ghost predicate Running(e: Env, sources: seq<Source>, start: Option<int>, end: Option<int>,
                          out: seq<Record>, origin: seq<nat>, cs: seq<Cursor>, cache: Cache)
    requires e.Valid()
  {
    && Inv(e, sources, cs, cache)
    && OutputOk(e, sources, start, end, out, origin, cs)
    && (AllSorted(e, sources) ==> TiesInOrder(out, origin, cs))
    && SentPerSource(e, sources, start, out, origin, cs)
  }

  /** One turn of the merge loop once the earliest source `w` is known and
      the end bound has not been passed: send its record unless it is before
      the start bound, then advance it with the reading `p`. */
  lemma TurnKeeps(e: Env, sources: seq<Source>, start: Option<int>, end: Option<int>,
                  out: seq<Record>, origin: seq<nat>, cs: seq<Cursor>, cache: Cache, w: nat, p: Parsed)
    requires e.Valid() && Running(e, sources, start, end, out, origin, cs, cache)
    requires Earliest(cs) == Some(w)
    requires end.None? || cs[w].instant <= end.value
    requires FollowsTrace(e, cache, cs[w].lines, cs[w].pos, w, p)
    ensures var sent := Sends(cs[w].instant, start);
      var out' := if sent then out + [Record(cs[w].instant, sources[w].name, cs[w].rest)] else out;
      var origin' := if sent then origin + [w] else origin;
      var cs' := cs[w := Advance(cs[w], p.reading)];
      && Running(e, sources, start, end, out', origin', cs', p.cache)
      && Total(cs', Pending) < Total(cs, Pending)
  {
    AdvanceKeeps(e, sources, cs, cache, w, p);
    assert CursorOk(e, sources[w], cs[w]);
    OutputKept(e, sources, start, end, out, origin, cs, w, Advance(cs[w], p.reading));
    if AllSorted(e, sources) {
      assert SourceSorted(e, LinesOf(sources[w]));
      TiesKept(out, origin, cs, w, Sends(cs[w].instant, start), Record(cs[w].instant, sources[w].name, cs[w].rest),
               Advance(cs[w], p.reading));
    }
    PendingIsRecord(e, sources[w], cs[w]);
    SentKept(e, sources, start, out, origin, cs, w, Advance(cs[w], p.reading));
  }

  /** The seeding loop's state after the first `|cs|` sources: each has a
      cursor consistent with it, live exactly when the source started, with
      its hint in step; later files have no hint yet and nothing is selected. */
  ghost predicate Seeded(e: Env, sources: seq<Source>, cs: seq<Cursor>, cache: Cache)
    requires e.Valid()
  {
    && |cs| <= |sources|
    && ValidCache(cache)
    && (forall j :: 0 <= j < |cs| ==> CursorOk(e, sources[j], cs[j]))
    && (forall j :: 0 <= j < |cs| ==> (cs[j].status.Open? <==> Started(e, sources[j])))
    && HintsInStep(e, cs, cache.hints)
    && (forall j: nat :: |cs| <= j ==> HintOf(cache.hints, j).None?)
    && cache.processed == Total(cs, Pos) && cache.hits <= cache.processed
    && cache.hits == Total(cs, Hits(e))
    && Total(cs, Selected) == 0
  }

  /** Appending a cursor consistent with the next source keeps every cursor
      consistent with its source. */
  lemma CursorsAppended(e: Env, sources: seq<Source>, cs: seq<Cursor>, c: Cursor)
    requires e.Valid() && |cs| < |sources|
    requires forall j :: 0 <= j < |cs| ==> CursorOk(e, sources[j], cs[j])
    requires forall j :: 0 <= j < |cs| ==> (cs[j].status.Open? <==> Started(e, sources[j]))
    requires CursorOk(e, sources[|cs|], c) && (c.status.Open? <==> Started(e, sources[|cs|]))
    ensures forall j :: 0 <= j < |cs| + 1 ==> CursorOk(e, sources[j], (cs + [c])[j])
    ensures forall j :: 0 <= j < |cs| + 1 ==> ((cs + [c])[j].status.Open? <==> Started(e, sources[j]))
  {
    forall j | 0 <= j < |cs| + 1
      ensures CursorOk(e, sources[j], (cs + [c])[j])
      ensures (cs + [c])[j].status.Open? <==> Started(e, sources[j])
    {
      if j < |cs| {
        assert (cs + [c])[j] == cs[j];
      }
    }
  }

  /** Appending a cursor whose hint is in step, when no earlier file's hint
      moved, keeps every file's hint in step. */
  lemma HintsAppended(e: Env, cs: seq<Cursor>, h: map<nat, nat>, h': map<nat, nat>, c: Cursor)
    requires e.Valid() && HintsInStep(e, cs, h)
    requires forall j :: j != |cs| ==> HintOf(h', j) == HintOf(h, j)
    requires c.pos <= |c.lines| && HintOf(h', |cs|) == HintAfter(e, c.lines, c.pos)
    ensures HintsInStep(e, cs + [c], h')
  {
    forall j | 0 <= j < |cs| + 1
      ensures (cs + [c])[j].pos <= |(cs + [c])[j].lines|
      ensures HintOf(h', j) == HintAfter(e, (cs + [c])[j].lines, (cs + [c])[j].pos)
    {
      if j < |cs| {
        assert (cs + [c])[j] == cs[j];
        assert HintOf(h', j) == HintOf(h, j);
      }
    }
  }

  /** Appending the cursor of the next source extends the seeding state,
      when that cursor is consistent with its source and its reads moved only
      its own hint and counted its own lines. */
  lemma SeedKeeps(e: Env, sources: seq<Source>, cs: seq<Cursor>, cache: Cache, c: Cursor, cache': Cache)
    requires e.Valid() && Seeded(e, sources, cs, cache) && |cs| < |sources|
    requires CursorOk(e, sources[|cs|], c) && (c.status.Open? <==> Started(e, sources[|cs|]))
    requires Selected(c) == 0 && ValidCache(cache')
    requires HintOf(cache'.hints, |cs|) == HintAfter(e, c.lines, c.pos)
    requires forall j :: j != |cs| ==> HintOf(cache'.hints, j) == HintOf(cache.hints, j)
    requires cache'.processed == cache.processed + c.pos && cache'.hits <= cache.hits + c.pos
    requires cache'.hits == cache.hits + Hits(e)(c)
    ensures Seeded(e, sources, cs + [c], cache')
  {
    CursorsAppended(e, sources, cs, c);
    HintsAppended(e, cs, cache.hints, cache'.hints, c);
    TotalAppend(cs, c, Pos);
    TotalAppend(cs, c, Hits(e));
    TotalAppend(cs, c, Selected);
  }

  /** The first read of every source, in file order (the seeding loop of
      `mergeLogs`): one cursor per source, consistent with it, nothing
      selected yet. */
  method SeedAll(e: Env, sources: seq<Source>) returns (cs: seq<Cursor>, cache: Cache)
    requires e.Valid()
    ensures Inv(e, sources, cs, cache)
    ensures Total(cs, Selected) == 0
    ensures forall i :: 0 <= i < |cs| ==> (cs[i].status.Open? <==> Started(e, sources[i]))
  {
    cache := Cache(map[], 0, 0);
    cs := [];
    while |cs| < |sources|
      invariant Seeded(e, sources, cs, cache)
      decreases |sources| - |cs|
    {
      var i := |cs|;
      var c: Cursor;
      var cache': Cache;
      match sources[i].lines {
        case None =>
          UnopenedCursor(e, sources[i]);
          c, cache' := Unopened(e), cache;
        case Some(lines) =>
          var p := ReadNext(e, cache, lines, 0, i);
          ReadNextFollowsTrace(e, cache, lines, 0, i);
          SeedCursor(e, sources[i], cache, i, p);
          c, cache' := Seed(e, lines, p.reading), p.cache;
      }
      SeedKeeps(e, sources, cs, cache, c, cache');
      cs, cache := cs + [c], cache';
    }
  }

  /** Once no source is live, every record of a started source has been
      selected. */
  lemma ClosedEmitted(e: Env, sources: seq<Source>, cs: seq<Cursor>)
    requires |cs| == |sources|
    requires forall i :: 0 <= i < |cs| ==> Selected(cs[i]) == EmittedCount(e)(sources[i])
    ensures Total(cs, Selected) == ExpectedEmitted(e, sources)
  {
    TotalsAgree(cs, sources, Selected, EmittedCount(e));
  }

  /** Once no source is live, every line a merge without an end bound reads
      was read. */
  lemma ClosedRead(e: Env, sources: seq<Source>, cs: seq<Cursor>)
    requires |cs| == |sources|
    requires forall i :: 0 <= i < |cs| ==> Pos(cs[i]) == ReadCount(e)(sources[i])
    ensures Total(cs, Pos) == ExpectedRead(e, sources)
  {
    TotalsAgree(cs, sources, Pos, ReadCount(e));
  }

  /** Once no source is live, the cache hits add up to the hits among every
      line a merge without an end bound reads. */
  lemma ClosedHits(e: Env, sources: seq<Source>, cs: seq<Cursor>)
    requires e.Valid() && |cs| == |sources|
    requires forall i :: 0 <= i < |cs| ==> cs[i].lines == LinesOf(sources[i])
    requires forall i :: 0 <= i < |cs| ==> Pos(cs[i]) == ReadCount(e)(sources[i])
    ensures Total(cs, Hits(e)) == ExpectedHits(e, sources)
  {
    TotalsAgree(cs, sources, Hits(e), HitCount(e));
  }

  /** A sum of naturals is zero only when every term is. */
  lemma {:induction false} TotalZero<T>(xs: seq<T>, f: T -> nat)
    requires Total(xs, f) == 0
    ensures forall i :: 0 <= i < |xs| ==> f(xs[i]) == 0
    decreases |xs|
  {
    if |xs| > 0 {
      var n := |xs| - 1;
      TotalZero(xs[..n], f);
      assert forall i :: 0 <= i < n ==> xs[..n][i] == xs[i];
    }
  }

  /** Before the first turn nothing has been sent and nothing selected. */
  lemma Begin(e: Env, sources: seq<Source>, start: Option<int>, end: Option<int>, cs: seq<Cursor>, cache: Cache)
    requires e.Valid() && Inv(e, sources, cs, cache) && Total(cs, Selected) == 0
    ensures Running(e, sources, start, end, [], [], cs, cache)
  {
    TotalZero(cs, Selected);
  }

  /** At any point, what each source has sent is the start-bound filter of a
      prefix of its records. */
  lemma SentSoFar(e: Env, sources: seq<Source>, start: Option<int>,
                  out: seq<Record>, origin: seq<nat>, cs: seq<Cursor>)
    requires e.Valid() && SentPerSource(e, sources, start, out, origin, cs) && |cs| == |sources|
    requires forall i :: 0 <= i < |cs| ==> CursorOk(e, sources[i], cs[i])
    ensures forall i :: 0 <= i < |sources| ==> SentPrefix(e, sources[i], start, FromSource(out, origin, i))
  {
    forall i | 0 <= i < |sources|
      ensures SentPrefix(e, sources[i], start, FromSource(out, origin, i))
    {
      assert CursorOk(e, sources[i], cs[i]);
      var k := Selected(cs[i]);
      assert FromSource(out, origin, i) == SinceStart(RecordsUpTo(e, sources[i], k), start);
    }
  }

  /** Once no source is live, each source has sent every record the start
      bound lets through. */
  lemma SentAll(e: Env, sources: seq<Source>, start: Option<int>,
                out: seq<Record>, origin: seq<nat>, cs: seq<Cursor>)
    requires e.Valid() && SentPerSource(e, sources, start, out, origin, cs) && |cs| == |sources|
    requires forall i :: 0 <= i < |cs| ==> Selected(cs[i]) == EmittedCount(e)(sources[i])
    ensures forall i :: 0 <= i < |sources| ==> FromSource(out, origin, i) == SinceStart(RecordsOf(e, sources[i]), start)
  {
    forall i | 0 <= i < |sources|
      ensures FromSource(out, origin, i) == SinceStart(RecordsOf(e, sources[i]), start)
    {
      assert Selected(cs[i]) == EmittedBy(e, sources[i]);
    }
  }

  /** Without a start bound, each source has sent exactly its records. */
  lemma SentEverything(e: Env, sources: seq<Source>, out: seq<Record>, origin: seq<nat>)
    requires e.Valid() && |origin| == |out|
    requires forall i :: 0 <= i < |sources| ==> FromSource(out, origin, i) == SinceStart(RecordsOf(e, sources[i]), None)
    ensures forall i :: 0 <= i < |sources| ==> FromSource(out, origin, i) == RecordsOf(e, sources[i])
  {
    forall i | 0 <= i < |sources|
      ensures FromSource(out, origin, i) == RecordsOf(e, sources[i])
    {
      NoStartKeepsAll(RecordsOf(e, sources[i]));
    }
  }

  /** Where a cursor left its source when the loop stopped: a source that
      is still live holds a record past the end bound, and any other source
      had all of its records selected, or has none. */
  lemma StopPoint(e: Env, s: Source, c: Cursor, end: Option<int>)
    requires e.Valid() && CursorOk(e, s, c)
    requires c.status.Open? ==> end.Some? && c.instant > end.value
    ensures Selected(c) <= |LinesOf(s)| && StopsAt(e, s, end, Selected(c))
  {
    if c.status.Open? {
      PendingIsRecord(e, s, c);
      assert RecordsOf(e, s)[Selected(c)] == RecordAt(e, s, Selected(c));
    }
  }

  /** When the loop stops, each source has sent what the start bound lets
      through of its records up to its stopping point. */
  lemma SentUntilEnd(e: Env, sources: seq<Source>, start: Option<int>, end: Option<int>,
                     out: seq<Record>, origin: seq<nat>, cs: seq<Cursor>, cache: Cache)
    requires e.Valid() && Running(e, sources, start, end, out, origin, cs, cache)
    requires Earliest(cs).None? || (end.Some? && cs[Earliest(cs).value].instant > end.value)
    ensures forall i :: 0 <= i < |sources| ==> SentUntilStop(e, sources[i], start, end, FromSource(out, origin, i))
  {
    forall i | 0 <= i < |sources|
      ensures SentUntilStop(e, sources[i], start, end, FromSource(out, origin, i))
    {
      assert CursorOk(e, sources[i], cs[i]);
      if cs[i].status.Open? {
        assert cs[Earliest(cs).value].instant <= cs[i].instant;
      }
      StopPoint(e, sources[i], cs[i], end);
      var k := Selected(cs[i]);
      assert FromSource(out, origin, i) == SinceStart(RecordsUpTo(e, sources[i], k), start);
    }
  }

  /** When the merge loop stops, because no source is live or because the
      earliest pending record is past the end bound, the state it leaves
      gives every promise `MergeLogs` makes. */
  lemma Conclude(e: Env, sources: seq<Source>, start: Option<int>, end: Option<int>,
                 out: seq<Record>, origin: seq<nat>, cs: seq<Cursor>, cache: Cache)
    requires e.Valid() && Running(e, sources, start, end, out, origin, cs, cache)
    requires Earliest(cs).None? || (end.Some? && cs[Earliest(cs).value].instant > end.value)
    ensures |origin| == |out|
    ensures forall j :: 0 <= j < |out| ==> InWindow(out[j].instant, start, end)
    ensures forall j :: 0 <= j < |out| ==>
      origin[j] < |sources| && out[j].filename == sources[origin[j]].name && Started(e, sources[origin[j]])
    ensures forall i :: 0 <= i < |sources| ==> SentPrefix(e, sources[i], start, FromSource(out, origin, i))
    ensures forall i :: 0 <= i < |sources| ==> SentUntilStop(e, sources[i], start, end, FromSource(out, origin, i))
    ensures end.None? ==>
      forall i :: 0 <= i < |sources| ==> FromSource(out, origin, i) == SinceStart(RecordsOf(e, sources[i]), start)
    ensures start.None? && end.None? ==>
      forall i :: 0 <= i < |sources| ==> FromSource(out, origin, i) == RecordsOf(e, sources[i])
    ensures AllSorted(e, sources) ==> Sorted(out)
    ensures AllSorted(e, sources) ==>
      forall j, k :: 0 <= j < k < |out| && out[j].instant == out[k].instant ==> origin[j] <= origin[k]
    ensures start.None? && end.None? ==> |out| == ExpectedEmitted(e, sources)
    ensures end.None? ==> cache.processed == ExpectedRead(e, sources)
    ensures end.None? ==> cache.hits == ExpectedHits(e, sources)
    ensures cache.hits <= cache.processed
  {
    SentSoFar(e, sources, start, out, origin, cs);
    SentUntilEnd(e, sources, start, end, out, origin, cs, cache);
    if end.None? {
      ClosedCursors(e, sources, cs);
      ClosedEmitted(e, sources, cs);
      ClosedRead(e, sources, cs);
      assert forall i :: 0 <= i < |cs| ==> CursorOk(e, sources[i], cs[i]);
      ClosedHits(e, sources, cs);
      SentAll(e, sources, start, out, origin, cs);
      if start.None? {
        SentEverything(e, sources, out, origin);
      }
    }
  }

  /** One turn of the merge loop for the earliest live source `w`, whose
      pending record is not past the end bound: send that record unless it
      is before the start bound, then read the next line of `w`. */
  method Turn(e: Env, sources: seq<Source>, start: Option<int>, end: Option<int>,
              out0: seq<Record>, origin0: seq<nat>, cs0: seq<Cursor>, cache0: Cache, w: nat)
    returns (out: seq<Record>, origin: seq<nat>, cs: seq<Cursor>, cache: Cache)
    requires e.Valid() && Running(e, sources, start, end, out0, origin0, cs0, cache0)
    requires Earliest(cs0) == Some(w) && (end.None? || cs0[w].instant <= end.value)
    ensures Running(e, sources, start, end, out, origin, cs, cache)
    ensures Total(cs, Pending) < Total(cs0, Pending)
    ensures Sends(cs0[w].instant, start) ==>
      out == out0 + [Record(cs0[w].instant, sources[w].name, cs0[w].rest)] && origin == origin0 + [w]
    ensures !Sends(cs0[w].instant, start) ==> out == out0 && origin == origin0
  {
    var t := cs0[w].instant;
    var p := ReadNext(e, cache0, cs0[w].lines, cs0[w].pos, w);
    ReadNextFollowsTrace(e, cache0, cs0[w].lines, cs0[w].pos, w);
    TurnKeeps(e, sources, start, end, out0, origin0, cs0, cache0, w, p);
    if Sends(t, start) {
      out, origin := out0 + [Record(t, sources[w].name, cs0[w].rest)], origin0 + [w];
    } else {
      out, origin := out0, origin0;
    }
    cs, cache := cs0[w := Advance(cs0[w], p.reading)], p.cache;
  }

  /** The turns of the merge loop, from nothing sent until no source is live
      or the earliest pending record is past the end bound. Returns the
      records sent, their sources, and the final cursors and cache. */
  method Turns(e: Env, sources: seq<Source>, start: Option<int>, end: Option<int>, cs0: seq<Cursor>, cache0: Cache)
    returns (out: seq<Record>, origin: seq<nat>, cs: seq<Cursor>, cache: Cache)
    requires e.Valid() && Running(e, sources, start, end, [], [], cs0, cache0)
    ensures Running(e, sources, start, end, out, origin, cs, cache)
    ensures Earliest(cs).None? || (end.Some? && cs[Earliest(cs).value].instant > end.value)
  {
    out, origin, cs, cache := [], [], cs0, cache0;
    while true
      invariant Running(e, sources, start, end, out, origin, cs, cache)
      decreases Total(cs, Pending)
    {
      var earliest := Earliest(cs);
      if earliest.None? {
        break;
      }
      var w := earliest.value;
      if end.Some? && cs[w].instant > end.value {
        break;
      }
      out, origin, cs, cache := Turn(e, sources, start, end, out, origin, cs, cache, w);
    }
  }

  /** `mergeLogs`, with the channel replaced by the returned sequence and the
      bounds already resolved (`None` for an unset bound). Returns the records
      sent, the index of the source each came from (`earliestIndex` of its
      turn), and the final hint cache with its counters.
      - Every record lies in the window, and comes from a source that opened
        and whose first line has a timestamp.
      - Each source's records appear in file order: what the start bound
        lets through of its records up to where the merge stopped taking
        from it, which is all of them or the first one past the end bound;
        without bounds, exactly its records.
      - If every source is sorted, so is the output, and records with equal
        instants appear in the order of their sources.
      - Without an end bound every line of every such source is read. */
  method MergeLogs(e: Env, sources: seq<Source>, start: Option<int>, end: Option<int>)
    returns (out: seq<Record>, origin: seq<nat>, stats: Cache)
    requires e.Valid()
    ensures |origin| == |out|
    ensures forall j :: 0 <= j < |out| ==> InWindow(out[j].instant, start, end)
    ensures forall j :: 0 <= j < |out| ==>
      origin[j] < |sources| && out[j].filename == sources[origin[j]].name && Started(e, sources[origin[j]])
    ensures forall i :: 0 <= i < |sources| ==> SentPrefix(e, sources[i], start, FromSource(out, origin, i))
    ensures forall i :: 0 <= i < |sources| ==> SentUntilStop(e, sources[i], start, end, FromSource(out, origin, i))
    ensures end.None? ==>
      forall i :: 0 <= i < |sources| ==> FromSource(out, origin, i) == SinceStart(RecordsOf(e, sources[i]), start)
    ensures start.None? && end.None? ==>
      forall i :: 0 <= i < |sources| ==> FromSource(out, origin, i) == RecordsOf(e, sources[i])
    ensures AllSorted(e, sources) ==> Sorted(out)
    ensures AllSorted(e, sources) ==>
      forall j, k :: 0 <= j < k < |out| && out[j].instant == out[k].instant ==> origin[j] <= origin[k]
    ensures start.None? && end.None? ==> |out| == ExpectedEmitted(e, sources)
    ensures end.None? ==> stats.processed == ExpectedRead(e, sources)
    ensures end.None? ==> stats.hits == ExpectedHits(e, sources)
    ensures stats.hits <= stats.processed
  {
    var cs, cache := SeedAll(e, sources);
    Begin(e, sources, start, end, cs, cache);
    out, origin, cs, cache := Turns(e, sources, start, end, cs, cache);
    Conclude(e, sources, start, end, out, origin, cs, cache);
    stats := cache;
  }
}
