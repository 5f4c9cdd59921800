/** `findBestMatch`: scan every pattern of the table against a line and keep
    the candidate the tie-break rule prefers. */
module Matching {
  import opened Base
  import opened Patterns

  /** A winning pattern: its position in `Table` and where it matched. */
  datatype Match = Match(index: nat, loc: Loc)

  /** The replacement test of the scan: a candidate displaces the current best
      when it starts strictly earlier OR is strictly longer. A later-starting
      but longer match therefore also wins. */
  predicate Beats(cand: Loc, best: Loc) {
    cand.lo < best.lo || Span(cand) > Span(best)
  }

  /** Where pattern `j` matches `line`, if it does. */
  function MatchOf(e: Env, line: string, j: nat): Option<Loc>
    requires j < PatternCount
  {
    e.find(j, line)
  }

  /** No pattern of the table matches the line. */
  predicate NoneMatch(e: Env, line: string) {
    forall j :: 0 <= j < PatternCount ==> MatchOf(e, line, j).None?
  }

  /** One iteration of the scan: pattern `i` replaces `best` when it matches
      and either nothing matched before or it beats the current best. */
  function Step(e: Env, line: string, i: nat, best: Option<Match>): (r: Option<Match>)
    requires i < PatternCount
    requires best.Some? ==> best.value.index < i && MatchOf(e, line, best.value.index) == Some(best.value.loc)
    ensures r.Some? ==> r.value.index <= i && MatchOf(e, line, r.value.index) == Some(r.value.loc)
    ensures best.Some? ==> r.Some?
    ensures r != best ==> MatchOf(e, line, i).Some? && r == Some(Match(i, MatchOf(e, line, i).value))
    ensures MatchOf(e, line, i).Some? && best.Some? ==> (r == best <==> !Beats(MatchOf(e, line, i).value, best.value.loc))
    ensures MatchOf(e, line, i).Some? && best.None? ==> r.Some?
    ensures MatchOf(e, line, i).None? ==> r == best
  {
    match MatchOf(e, line, i)
    case None => best
    case Some(loc) =>
      if best.None? || Beats(loc, best.value.loc) then Some(Match(i, loc)) else best
  }

  /** The scan loop from pattern `i` on, with `best` the winner so far. */
  function ScanFrom(e: Env, line: string, i: nat, best: Option<Match>): (r: Option<Match>)
    requires i <= PatternCount
    requires best.Some? ==> best.value.index < i && MatchOf(e, line, best.value.index) == Some(best.value.loc)
    ensures best.Some? ==> r.Some?
    ensures r.None? ==> forall j :: i <= j < PatternCount ==> MatchOf(e, line, j).None?
    ensures r.Some? ==> r.value.index < PatternCount && MatchOf(e, line, r.value.index) == Some(r.value.loc)
    ensures r.Some? && r != best ==> i <= r.value.index
    ensures r.Some? ==> forall j :: i <= j < PatternCount && r.value.index < j && MatchOf(e, line, j).Some? ==>
                          !Beats(MatchOf(e, line, j).value, r.value.loc)
    decreases PatternCount - i
  {
    if i == PatternCount then best else ScanFrom(e, line, i + 1, Step(e, line, i, best))
  }

  /** The scan's best after patterns `0 .. k-1`: what `findBestMatch`
      holds on entering iteration `k`. */
  function ScanUpTo(e: Env, line: string, k: nat): (r: Option<Match>)
    requires k <= PatternCount
    ensures r.Some? ==> r.value.index < k && MatchOf(e, line, r.value.index) == Some(r.value.loc)
    decreases k
  {
    if k == 0 then None else Step(e, line, k - 1, ScanUpTo(e, line, k - 1))
  }

  /** Running the rest of the scan from the best of the first `i` patterns
      ends where the whole scan ends. */
  lemma {:induction false} ScanFromUpTo(e: Env, line: string, i: nat)
    requires i <= PatternCount
    ensures ScanFrom(e, line, i, ScanUpTo(e, line, i)) == ScanUpTo(e, line, PatternCount)
    decreases PatternCount - i
  {
    if i < PatternCount {
      ScanFromUpTo(e, line, i + 1);
    }
  }

  /** Once the final winner has been scanned, the best no longer moves. */
  lemma {:induction false} SettledFrom(e: Env, line: string, k: nat)
    requires k <= PatternCount && ScanUpTo(e, line, PatternCount).Some?
    requires ScanUpTo(e, line, PatternCount).value.index < k
    ensures ScanUpTo(e, line, k) == ScanUpTo(e, line, PatternCount)
    decreases PatternCount - k
  {
    if k < PatternCount {
      SettledFrom(e, line, k + 1);
    }
  }

  /** The final winner displaced the best of the patterns before it, if
      there was one. */
  lemma WinnerBeatsEarlier(e: Env, line: string)
    ensures var r := ScanUpTo(e, line, PatternCount);
      r.Some? ==> ScanUpTo(e, line, r.value.index).None?
                  || Beats(r.value.loc, ScanUpTo(e, line, r.value.index).value.loc)
  {
    var r := ScanUpTo(e, line, PatternCount);
    if r.Some? {
      SettledFrom(e, line, r.value.index + 1);
    }
  }

  /** `findBestMatch`: `None` plays the role of `NoTimestampError`.
      The winner is a pattern that matched, at exactly the span it matched;
      it beat the best of the patterns before it (if any), and no pattern
      scanned after it starts earlier or is longer. */
  function FindBestMatch(e: Env, line: string): (r: Option<Match>)
    ensures r.None? <==> NoneMatch(e, line)
    ensures r.Some? ==> r.value.index < PatternCount && MatchOf(e, line, r.value.index) == Some(r.value.loc)
    ensures r.Some? && e.Valid() ==> Within(r.value.loc, line)
    ensures r.Some? ==> ScanUpTo(e, line, r.value.index).None?
                        || Beats(r.value.loc, ScanUpTo(e, line, r.value.index).value.loc)
    ensures r.Some? ==> forall j :: r.value.index < j < PatternCount && MatchOf(e, line, j).Some? ==>
                          MatchOf(e, line, j).value.lo >= r.value.loc.lo
                          && Span(MatchOf(e, line, j).value) <= Span(r.value.loc)
  {
    ScanFromUpTo(e, line, 0);
    WinnerBeatsEarlier(e, line);
    ScanFrom(e, line, 0, None)
  }

  /** When no pattern from `i` on matches, the scan keeps `best`. */
  lemma {:induction false} ScanNoneMatchLeft(e: Env, line: string, i: nat, best: Option<Match>)
    requires i <= PatternCount
    requires best.Some? ==> best.value.index < i && MatchOf(e, line, best.value.index) == Some(best.value.loc)
    requires forall j :: i <= j < PatternCount ==> MatchOf(e, line, j).None?
    ensures ScanFrom(e, line, i, best) == best
    decreases PatternCount - i
  {
    if i < PatternCount {
      ScanNoneMatchLeft(e, line, i + 1, Step(e, line, i, best));
    }
  }

  /** The rule is not "earliest start, then longest": when the first pattern
      matches at the front of the line and the second matches further along
      but over a longer span, and nothing else matches, the second one wins. */
  lemma LaterLongerMatchWins(e: Env, line: string, early: Loc, late: Loc)
    requires MatchOf(e, line, 0) == Some(early) && MatchOf(e, line, 1) == Some(late)
    requires early.lo < late.lo && Span(early) < Span(late)
    requires forall j :: 2 <= j < PatternCount ==> MatchOf(e, line, j).None?
    ensures FindBestMatch(e, line) == Some(Match(1, late))
  {
    var r1 := Some(Match(0, early));
    var r2 := Some(Match(1, late));
    assert Step(e, line, 0, None) == r1;
    assert Step(e, line, 1, r1) == r2;
    ScanNoneMatchLeft(e, line, 2, r2);
  }

  /** The replacement rule is not transitive: a pattern whose match is
      identical to an earlier pattern's can still win, when a pattern in
      between displaced the first (by starting earlier) and the third then
      displaces it (by being longer). */
  lemma IdenticalLaterCanWin(e: Env, line: string)
    requires MatchOf(e, line, 0) == Some(Loc(5, 10))
    requires MatchOf(e, line, 1) == Some(Loc(0, 3))
    requires MatchOf(e, line, 2) == Some(Loc(5, 10))
    requires forall j :: 3 <= j < PatternCount ==> MatchOf(e, line, j).None?
    ensures FindBestMatch(e, line) == Some(Match(2, Loc(5, 10)))
  {
    var r1 := Some(Match(0, Loc(5, 10)));
    var r2 := Some(Match(1, Loc(0, 3)));
    var r3 := Some(Match(2, Loc(5, 10)));
    assert Step(e, line, 0, None) == r1;
    assert Step(e, line, 1, r1) == r2;
    assert Step(e, line, 2, r2) == r3;
    ScanNoneMatchLeft(e, line, 3, r3);
  }

  /** The matches of patterns before `i` that `best` has to dominate. */
  ghost predicate LongestSoFar(e: Env, line: string, i: nat, best: Option<Match>)
    requires i <= PatternCount
  {
    match best
    case None => forall j :: 0 <= j < i ==> MatchOf(e, line, j).None?
    case Some(b) =>
      forall j :: 0 <= j < i && MatchOf(e, line, j).Some? ==>
        Span(MatchOf(e, line, j).value) < Span(b.loc)
        || (Span(MatchOf(e, line, j).value) == Span(b.loc) && b.index <= j)
  }

  /** One step of the scan keeps `LongestSoFar` on a line where every match
      starts at `x`. */
  lemma LongestStep(e: Env, line: string, i: nat, best: Option<Match>, x: nat)
    requires i < PatternCount
    requires best.Some? ==> best.value.index < i && MatchOf(e, line, best.value.index) == Some(best.value.loc)
    requires forall j :: 0 <= j < PatternCount && MatchOf(e, line, j).Some? ==> MatchOf(e, line, j).value.lo == x
    requires LongestSoFar(e, line, i, best)
    ensures LongestSoFar(e, line, i + 1, Step(e, line, i, best))
  {
  }

  lemma {:induction false} ScanCommonStart(e: Env, line: string, i: nat, best: Option<Match>, x: nat)
    requires i <= PatternCount
    requires best.Some? ==> best.value.index < i && MatchOf(e, line, best.value.index) == Some(best.value.loc)
    requires forall j :: 0 <= j < PatternCount && MatchOf(e, line, j).Some? ==> MatchOf(e, line, j).value.lo == x
    requires LongestSoFar(e, line, i, best)
    ensures LongestSoFar(e, line, PatternCount, ScanFrom(e, line, i, best))
    decreases PatternCount - i
  {
    if i < PatternCount {
      LongestStep(e, line, i, best, x);
      ScanCommonStart(e, line, i + 1, Step(e, line, i, best), x);
    }
  }

  /** When every match starts at the same offset the scan does pick the
      longest span, and among equally long ones the first pattern in the
      table: on this class of lines the code agrees with "earliest start,
      then longest". */
  lemma CommonStartPicksLongest(e: Env, line: string, s: nat)
    requires forall j :: 0 <= j < PatternCount && MatchOf(e, line, j).Some? ==> MatchOf(e, line, j).value.lo == s
    ensures FindBestMatch(e, line).Some? ==>
      var w := FindBestMatch(e, line).value;
      forall j :: 0 <= j < PatternCount && MatchOf(e, line, j).Some? ==>
        Span(MatchOf(e, line, j).value) < Span(w.loc)
        || (Span(MatchOf(e, line, j).value) == Span(w.loc) && w.index <= j)
  {
    ScanCommonStart(e, line, 0, None, s);
  }

  /** The matches of patterns before `i` that `best` has to precede. */
  ghost predicate EarliestSoFar(e: Env, line: string, i: nat, best: Option<Match>)
    requires i <= PatternCount
  {
    match best
    case None => forall j :: 0 <= j < i ==> MatchOf(e, line, j).None?
    case Some(b) =>
      forall j :: 0 <= j < i && MatchOf(e, line, j).Some? ==>
        b.loc.lo < MatchOf(e, line, j).value.lo
        || (MatchOf(e, line, j).value.lo == b.loc.lo && b.index <= j)
  }

  /** One step of the scan keeps `EarliestSoFar` on a line where every match
      is `x` characters long. */
  lemma EarliestStep(e: Env, line: string, i: nat, best: Option<Match>, x: int)
    requires i < PatternCount
    requires best.Some? ==> best.value.index < i && MatchOf(e, line, best.value.index) == Some(best.value.loc)
    requires forall j :: 0 <= j < PatternCount && MatchOf(e, line, j).Some? ==> Span(MatchOf(e, line, j).value) == x
    requires EarliestSoFar(e, line, i, best)
    ensures EarliestSoFar(e, line, i + 1, Step(e, line, i, best))
  {
  }

  lemma {:induction false} ScanCommonSpan(e: Env, line: string, i: nat, best: Option<Match>, x: int)
    requires i <= PatternCount
    requires best.Some? ==> best.value.index < i && MatchOf(e, line, best.value.index) == Some(best.value.loc)
    requires forall j :: 0 <= j < PatternCount && MatchOf(e, line, j).Some? ==> Span(MatchOf(e, line, j).value) == x
    requires EarliestSoFar(e, line, i, best)
    ensures EarliestSoFar(e, line, PatternCount, ScanFrom(e, line, i, best))
    decreases PatternCount - i
  {
    if i < PatternCount {
      EarliestStep(e, line, i, best, x);
      ScanCommonSpan(e, line, i + 1, Step(e, line, i, best), x);
    }
  }

  /** When every match has the same length the scan picks the earliest start,
      and among matches at that start the first pattern in the table. */
  lemma CommonSpanPicksEarliest(e: Env, line: string, n: int)
    requires forall j :: 0 <= j < PatternCount && MatchOf(e, line, j).Some? ==> Span(MatchOf(e, line, j).value) == n
    ensures FindBestMatch(e, line).Some? ==>
      var w := FindBestMatch(e, line).value;
      forall j :: 0 <= j < PatternCount && MatchOf(e, line, j).Some? ==>
        w.loc.lo < MatchOf(e, line, j).value.lo
        || (MatchOf(e, line, j).value.lo == w.loc.lo && w.index <= j)
  {
    ScanCommonSpan(e, line, 0, None, n);
  }
}
