/** The ordered timestamp pattern table and the foreign libraries it leans on
    (regular expressions and the calendar), as the rest of the model sees them. */
module Patterns {
  import opened Base

  /** One table entry: the regular expression that finds a timestamp in a line
      and the Go reference layout that parses the matched text. */
  datatype Pattern = Pattern(regex: string, layout: string)

  /** The twelve entries of `timestampPatterns`, in scan order. */
  const Table: seq<Pattern> := [
    Pattern("([A-Za-z]{3} +\\d+ \\d{2}:\\d{2}:\\d{2})", "Jan _2 15:04:05"),
    Pattern("(\\d{4}-\\d{2}-\\d{2} \\d{2}:\\d{2}:\\d{2} [+-]\\d{4})", "2006-01-02 15:04:05 -0700"),
    Pattern("(\\d{4}-\\d{2}-\\d{2} \\d{2}:\\d{2}:\\d{2},\\d{3})", "2006-01-02 15:04:05.000"),
    Pattern("(\\d{4}-\\d{2}-\\d{2} \\d{2}:\\d{2}:\\d{2}\\.\\d{3})", "2006-01-02 15:04:05.000"),
    Pattern("(\\d{4}-\\d{2}-\\d{2} \\d{2}:\\d{2}:\\d{2})", "2006-01-02 15:04:05"),
    Pattern("(\\d{4}-\\d{2}-\\d{2}T\\d{2}:\\d{2}:\\d{2},\\d{3})", "2006-01-02T15:04:05.000"),
    Pattern("(\\d{4}-\\d{2}-\\d{2}T\\d{2}:\\d{2}:\\d{2}\\.\\d{3})", "2006-01-02T15:04:05.000"),
    Pattern("(\\d{4}-\\d{2}-\\d{2}T\\d{2}:\\d{2}:\\d{2})", "2006-01-02T15:04:05"),
    Pattern("(\\d{2}/[A-Za-z]{3}/\\d{4} \\d{2}:\\d{2}:\\d{2})", "02/Jan/2006 15:04:05"),
    Pattern("(\\d{2}/[A-Za-z]{3}/\\d{4}:\\d{2}:\\d{2}:\\d{2} [+-]\\d{4})", "02/Jan/2006:15:04:05 -0700"),
    Pattern("(\\d{2}:\\d{2}:\\d{2}\\.\\d{6})", "15:04:05.000000"),
    Pattern("(\\d+) (\\d{2}:\\d{2}:\\d{2}\\.\\d{6})", "15:04:05.000000")
  ]

  /** The number of entries of `Table`, which the engine indexes and stores
      as format hints. */
  const PatternCount: nat := 12

  lemma TableSize()
    ensures |Table| == PatternCount
  {
  }

  /** The half-open span `[lo, hi)` that `FindStringIndex` reports for the
      leftmost match of a regular expression. */
  datatype Loc = Loc(lo: nat, hi: nat)

  predicate Within(loc: Loc, line: string) {
    loc.lo <= loc.hi <= |line|
  }

  /** Length of the matched text. */
  function Span(loc: Loc): int {
    loc.hi - loc.lo
  }

  /** The environment the engine runs in. Instants are integers ordered as
      `time.Time.Before` orders them. The pattern libraries are keyed by the
      index `j` of the table entry they are applied to:
      - `find(j, line)`: `Table[j].regex.FindStringIndex(line)`, `None` for nil;
      - `parse(j, text)`: `time.Parse(Table[j].layout, text)`, `None` on a
        parse error;
      - `yearOf(t)`: `t.Year()`; `addYears(t, y)`: `t.AddDate(y, 0, 0)`;
      - `currentYear`: the year the process started in;
      - `zero`: the instant of the zero `time.Time{}`. */
  datatype Env = Env(
    find: (nat, string) -> Option<Loc>,
    parse: (nat, string) -> Option<int>,
    yearOf: int -> int,
    addYears: (int, int) -> int,
    currentYear: int,
    zero: int)
  {
    /** What the libraries promise: a reported match lies inside the line,
        and adding `y` years moves the calendar year by exactly `y`. */
    ghost predicate Valid() {
      && (forall j, line :: find(j, line).Some? ==> Within(find(j, line).value, line))
      && (forall t, y :: yearOf(addYears(t, y)) == yearOf(t) + y)
    }
  }
}
