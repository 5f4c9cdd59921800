/** `extractTimestamp`: cut the matched text out of a line and parse it. */
module Extraction {
  import opened Base
  import opened Patterns

  /** What reading one line yields: a fresh timestamp with the rest of the
      line, a line without a timestamp (`NoTimestampError`, the text is kept
      whole), or the end of the source (`EndOfFileError`). */
  datatype Reading =
    | Timestamped(instant: int, rest: string)
    | Continuation(rest: string)
    | EndOfFile

  /** The line with the span removed: `line[:lo] + line[hi:]`. */
  function Cut(line: string, loc: Loc): (r: string)
    requires Within(loc, line)
    ensures |r| == |line| - Span(loc)
  {
    line[..loc.lo] + line[loc.hi..]
  }

  /** Put `piece` back into `rest` at offset `at`. */
  function Reinsert(rest: string, at: nat, piece: string): (r: string)
    requires at <= |rest|
    ensures |r| == |rest| + |piece|
  {
    rest[..at] + piece + rest[at..]
  }

  /** Re-inserting the matched text where it was cut reproduces the line. */
  lemma ReinsertCut(line: string, loc: Loc)
    requires Within(loc, line)
    ensures Reinsert(Cut(line, loc), loc.lo, line[loc.lo..loc.hi]) == line
  {
    var rest := Cut(line, loc);
    assert rest[..loc.lo] == line[..loc.lo];
    assert rest[loc.lo..] == line[loc.hi..];
    assert line[..loc.lo] + line[loc.lo..loc.hi] + line[loc.hi..] == line;
  }

  /** Cutting out what was inserted gives the remainder back. */
  lemma CutReinsert(rest: string, at: nat, piece: string)
    requires at <= |rest|
    ensures Within(Loc(at, at + |piece|), Reinsert(rest, at, piece))
    ensures Cut(Reinsert(rest, at, piece), Loc(at, at + |piece|)) == rest
  {
    var line := Reinsert(rest, at, piece);
    assert line[..at] == rest[..at];
    assert line[at + |piece|..] == rest[at..];
  }

  /** The year correction for year-less layouts: an instant whose year is 0
      is moved forward by the current year's number of years, which puts it
      in the current year; any other instant is kept. */
  function InCurrentYear(e: Env, t: int): (r: int)
    requires e.Valid()
    ensures e.yearOf(t) != 0 ==> r == t
    ensures e.yearOf(t) == 0 ==> r == e.addYears(t, e.currentYear)
    ensures e.yearOf(t) == 0 ==> e.yearOf(r) == e.currentYear
  {
    if e.yearOf(t) == 0 then e.addYears(t, e.currentYear) else t
  }

  /** `extractTimestamp(line, loc, layout)`, with the layout named by the
      index `format` of its table entry. On success the remainder is the line
      with exactly the matched span removed: it is shorter by the span and
      putting the matched text back at `loc.lo` restores the line. On a parse
      error the line comes back untouched as a continuation. */
  function ExtractTimestamp(e: Env, line: string, loc: Loc, format: nat): (r: Reading)
    requires e.Valid() && Within(loc, line)
    ensures !r.EndOfFile?
    ensures r.Timestamped? <==> e.parse(format, line[loc.lo..loc.hi]).Some?
    ensures r.Continuation? ==> r.rest == line
    ensures r.Timestamped? ==>
      && |r.rest| == |line| - Span(loc)
      && loc.lo <= |r.rest|
      && Reinsert(r.rest, loc.lo, line[loc.lo..loc.hi]) == line
    ensures r.Timestamped? ==>
      var t := e.parse(format, line[loc.lo..loc.hi]).value;
      && (e.yearOf(t) != 0 ==> r.instant == t)
      && r.instant == InCurrentYear(e, t)
      && (e.yearOf(t) == 0 ==> e.yearOf(r.instant) == e.currentYear)
  {
    match e.parse(format, line[loc.lo..loc.hi])
    case None => Continuation(line)
    case Some(t) =>
      ReinsertCut(line, loc);
      Timestamped(InCurrentYear(e, t), Cut(line, loc))
  }

  /** The remainder is determined by the round trip: a string of the right
      length that restores the line when the matched text is put back is the
      cut line itself. */
  lemma {:induction false} RestIsUnique(line: string, loc: Loc, rest: string)
    requires Within(loc, line)
    requires |rest| == |line| - Span(loc) && loc.lo <= |rest|
    requires Reinsert(rest, loc.lo, line[loc.lo..loc.hi]) == line
    ensures rest == Cut(line, loc)
  {
    var piece := line[loc.lo..loc.hi];
    calc {
      rest;
      rest[..loc.lo] + rest[loc.lo..];
      { assert rest[..loc.lo] == Reinsert(rest, loc.lo, piece)[..loc.lo];
        assert rest[loc.lo..] == Reinsert(rest, loc.lo, piece)[loc.hi..]; }
      line[..loc.lo] + line[loc.hi..];
    }
  }
}
