/**
 * The per-season Elo rating engine: the matches are grouped by year, the
 * years are visited in ascending order, each year's matches are sorted by the
 * integer value of their date, and a fresh rating table (every team at 1500)
 * is updated match by match; after every match a snapshot with both teams'
 * rounded ratings is appended to that year's history.
 *
 * Ratings are exact reals. Python's `10 ** x` and `round(x, 1)` are taken as
 * parameters: `pow10` is only known to be positive, `round1` is arbitrary.
 *
 * A date that `int` rejects, or a score that does not split on " — " into
 * exactly two integers, raises in the source and ends the whole computation
 * without a result; here that is a `Failure`.
 */
module Elo {
  import opened Wrappers
  import opened Text
  import opened Records
  import opened Ordering
  import Scraper

  const InitialElo: real := 1500.0
  const KFactor: real := 30.0
  const HomeAdvantage: real := 100.0

  const EmDash: char := '\U{2014}'
  /** The separator the engine splits scores on: space, em dash, space. */
  const ScoreSeparator: string := [' ', EmDash, ' ']

  /** `pow10` stands for exact `10 ** x`; of it only positivity is used. */
  ghost predicate PowersPositive(pow10: real -> real) {
    forall x :: pow10(x) > 0.0
  }

  datatype EloError = MalformedDate(date: string) | MalformedScore(score: string)

  /** One entry of a year's history. */
  datatype Snapshot = Snapshot(date: string, homeTeam: string, awayTeam: string, homeElo: real, awayElo: real)

  /** The rating table of one season; a team missing from it stands at `InitialElo`. */
  type Ratings = map<string, real>

  /** The running state of one season: the unrounded ratings and the snapshots so far. */
  datatype Season = Season(elo: Ratings, snapshots: seq<Snapshot>)

  /** The result: each year's snapshots, in processing order. */
  type History = map<int, seq<Snapshot>>

  /** Get-or-default lookup of the default-1500 rating table. */
  function Rating(elo: Ratings, team: string): real {
    if team in elo then elo[team] else InitialElo
  }

  // ---------------------------------------------------------------------
  // One match

  /** `map(int, score.split(' — '))` unpacked into two goal counts. */
  function ParseScore(score: string): Option<(int, int)> {
    var pieces := Split(score, ScoreSeparator);
    if |pieces| != 2 then None
    else match (ParseInt(pieces[0]), ParseInt(pieces[1]))
      case (Some(home), Some(away)) => Some((home, away))
      case _ => None
  }

  predicate ScoreParses(m: MatchRecord) {
    ParseScore(m.score).Some?
  }

  /** A text without an em dash has no " — " to split on. */
  lemma NoEmDashSplit(s: string)
    requires EmDash !in s
    ensures Split(s, ScoreSeparator) == [s]
  {
    forall j: nat ensures !OccursAt(s, ScoreSeparator, j) {
      if j + 3 <= |s| {
        assert s[j..j + 3][1] == s[j + 1];
      }
    }
  }

  /** The engine accepts a score written as "<home> — <away>" and reads both numbers back. */
  lemma ScoreRoundTrip(home: int, away: int)
    ensures ParseScore(IntToDecimal(home) + ScoreSeparator + IntToDecimal(away)) == Some((home, away))
  {
    var p, q := IntToDecimal(home), IntToDecimal(away);
    var s := p + ScoreSeparator + q;
    DecimalHasNoEmDash(home);
    DecimalHasNoEmDash(away);
    assert OccursAt(s, ScoreSeparator, |p|) by {
      assert s[|p|..|p| + 3] == ScoreSeparator;
    }
    forall j: nat | j < |p| ensures !OccursAt(s, ScoreSeparator, j) {
      assert s[j..j + 3][1] == s[j + 1];
      if j + 1 < |p| {
        assert s[j + 1] == p[j + 1];
      } else {
        assert s[j + 1] == ' ';
      }
    }
    assert Find(s, ScoreSeparator, 0) == Some(|p|);
    assert s[..|p|] == p && s[|p| + 3..] == q;
    NoEmDashSplit(q);
    assert Split(s, ScoreSeparator) == [s[..|p|]] + Split(s[|p| + 3..], ScoreSeparator);
    assert Split(s, ScoreSeparator) == [p, q];
    ParseIntToDecimal(home);
    ParseIntToDecimal(away);
  }

  lemma DecimalHasNoEmDash(n: int)
    ensures EmDash !in IntToDecimal(n)
  {
    var s := IntToDecimal(n);
    var digits := if n < 0 then NatToDigits(-n) else NatToDigits(n);
    assert EmDash !in digits by {
      forall i | 0 <= i < |digits| ensures digits[i] != EmDash {
        assert IsAsciiDigit(digits[i]);
      }
    }
  }

  /**
   * A score as the scraper stores it is rejected by the engine whenever the
   * page's score cell has no em dash: the scraper's hyphen is not the " — "
   * the engine splits on.
   */
  lemma ScrapedScoreRejected(cell: string)
    requires EmDash !in cell
    ensures ParseScore(Scraper.ScoreText(cell)) == None
  {
    var score := Scraper.ScoreText(cell);
    assert EmDash !in score by {
      forall i | 0 <= i < |score| ensures score[i] != EmDash {
        assert cell[i] != EmDash;
      }
    }
    NoEmDashSplit(score);
  }

  /** The home side's expected result, with the home advantage added to its rating. */
  function ExpectedHome(pow10: real -> real, home: real, away: real): (e: real)
    requires PowersPositive(pow10)
    ensures 0.0 < e < 1.0
  {
    var p := pow10((away - (home + HomeAdvantage)) / 400.0);
    assert p > 0.0;
    1.0 / (1.0 + p)
  }

  /** 1 for a home win, 0.5 for a draw, 0 for a home loss. */
  function Actual(homeGoals: int, awayGoals: int): real {
    if homeGoals == awayGoals then 0.5 else if homeGoals > awayGoals then 1.0 else 0.0
  }

  /** The actual result is a win, a draw or a loss, and the away side's result is its complement. */
  lemma ActualOutcomes(homeGoals: int, awayGoals: int)
    ensures Actual(homeGoals, awayGoals) == 1.0 <==> homeGoals > awayGoals
    ensures Actual(homeGoals, awayGoals) == 0.5 <==> homeGoals == awayGoals
    ensures Actual(homeGoals, awayGoals) == 0.0 <==> homeGoals < awayGoals
    ensures Actual(awayGoals, homeGoals) == 1.0 - Actual(homeGoals, awayGoals)
  {
  }

  /**
   * The two rating updates of one match, home first: the away update reads
   * the table after the home update, which matters only when a team meets
   * itself.
   */
  function Update(elo: Ratings, home: string, away: string, homeGoals: int, awayGoals: int, pow10: real -> real): Ratings
    requires PowersPositive(pow10)
  {
    var expectedHome := ExpectedHome(pow10, Rating(elo, home), Rating(elo, away));
    var expectedAway := 1.0 - expectedHome;
    var actual := Actual(homeGoals, awayGoals);
    var afterHome := elo[home := Rating(elo, home) + KFactor * (actual - expectedHome)];
    afterHome[away := Rating(afterHome, away) + KFactor * ((1.0 - actual) - expectedAway)]
  }

  /**
   * Only the two teams of the match change; the change is zero-sum; a home
   * win raises the home rating and lowers the away rating, a home loss does
   * the opposite; a team meeting itself keeps its rating.
   */
  lemma UpdateProperties(elo: Ratings, home: string, away: string, homeGoals: int, awayGoals: int, pow10: real -> real)
    requires PowersPositive(pow10)
    ensures var r := Update(elo, home, away, homeGoals, awayGoals, pow10);
      && r.Keys == elo.Keys + {home, away}
      && (forall t :: t != home && t != away ==> Rating(r, t) == Rating(elo, t))
      && (home != away ==> (Rating(r, home) - Rating(elo, home)) + (Rating(r, away) - Rating(elo, away)) == 0.0)
      && (home == away ==> Rating(r, home) == Rating(elo, home))
      && (home != away && homeGoals > awayGoals ==> Rating(r, home) > Rating(elo, home) && Rating(r, away) < Rating(elo, away))
      && (home != away && homeGoals < awayGoals ==> Rating(r, home) < Rating(elo, home) && Rating(r, away) > Rating(elo, away))
  {
  }

  /** The history entry for match `m` of `year`, given the ratings after it. */
  function SnapshotOf(year: int, m: MatchRecord, elo: Ratings, round1: real -> real): Snapshot {
    Snapshot(IntToDecimal(year) + "-" + m.date, m.homeTeam, m.awayTeam,
             round1(Rating(elo, m.homeTeam)), round1(Rating(elo, m.awayTeam)))
  }

  /** One iteration of the inner loop. */
  function PlayMatch(year: int, st: Season, m: MatchRecord, pow10: real -> real, round1: real -> real): Result<Season, EloError>
    requires PowersPositive(pow10)
  {
    match ParseScore(m.score)
    case None => Failure(MalformedScore(m.score))
    case Some((homeGoals, awayGoals)) =>
      var elo := Update(st.elo, m.homeTeam, m.awayTeam, homeGoals, awayGoals, pow10);
      Success(Season(elo, st.snapshots + [SnapshotOf(year, m, elo, round1)]))
  }

  // ---------------------------------------------------------------------
  // One season and the whole history

  /** The matches of one season played in the given order from a fresh table. */
  function RunSeason(year: int, ms: seq<Keyed>, pow10: real -> real, round1: real -> real): Result<Season, EloError>
    requires PowersPositive(pow10)
  {
    if ms == [] then Success(Season(map[], []))
    else
      var st :- RunSeason(year, ms[..|ms| - 1], pow10, round1);
      PlayMatch(year, st, ms[|ms| - 1].rec, pow10, round1)
  }

  /** One year: key by `int(date)`, sort stably, play the season. */
  function SeasonHistory(data: seq<MatchRecord>, year: int, pow10: real -> real, round1: real -> real): Result<seq<Snapshot>, EloError>
    requires PowersPositive(pow10)
  {
    match DateKeys(MatchesOfYear(data, year))
    case Failure(date) => Failure(MalformedDate(date))
    case Success(keyed) =>
      var st :- RunSeason(year, StableSort(keyed), pow10, round1);
      Success(st.snapshots)
  }

  function Lookup(h: History, year: int): seq<Snapshot> {
    if year in h then h[year] else []
  }

  /** The history after appending `snaps` to the list of `year` (a key appears on its first append). */
  function Appended(h: History, year: int, snaps: seq<Snapshot>): History {
    if snaps == [] then h else h[year := Lookup(h, year) + snaps]
  }

  /** One iteration of the year loop: the year's snapshots appended to the history. */
  function SeasonStep(data: seq<MatchRecord>, year: int, h: History, pow10: real -> real, round1: real -> real): Result<History, EloError>
    requires PowersPositive(pow10)
  {
    var snaps :- SeasonHistory(data, year, pow10, round1);
    Success(Appended(h, year, snaps))
  }

  /** The history after processing the given years in order. */
  function Histories(data: seq<MatchRecord>, years: seq<int>, pow10: real -> real, round1: real -> real): Result<History, EloError>
    requires PowersPositive(pow10)
  {
    if years == [] then Success(map[])
    else
      var h :- Histories(data, years[..|years| - 1], pow10, round1);
      SeasonStep(data, years[|years| - 1], h, pow10, round1)
  }

  /** What `laske_elo_arvot(data)` computes. */
  function EloHistory(data: seq<MatchRecord>, pow10: real -> real, round1: real -> real): Result<History, EloError>
    requires PowersPositive(pow10)
  {
    Histories(data, Years(data), pow10, round1)
  }

  // ---------------------------------------------------------------------
  // The engine as the source runs it

  /**
   * `laske_elo_arvot`: the loop over the years in ascending order; the body of
   * each iteration is `PlaySeason`.
   */
  method ComputeEloHistory(data: seq<MatchRecord>, pow10: real -> real, round1: real -> real)
    returns (result: Result<History, EloError>)
    requires PowersPositive(pow10)
    ensures result == EloHistory(data, pow10, round1)
  {
    var history: History := map[];
    var years := Years(data);
    for i := 0 to |years|
      invariant Histories(data, years[..i], pow10, round1) == Success(history)
    {
      var step := PlaySeason(data, years[i], history, pow10, round1);
      HistoriesStep(data, years, i, history, pow10, round1);
      if step.Failure? {
        HistoriesSticky(data, years, i + 1, pow10, round1);
        assert years[..|years|] == years;
        return step;
      }
      history := step.value;
    }
    assert years[..|years|] == years;
    result := Success(history);
  }

  /**
   * One year of `laske_elo_arvot`: select the year's matches, sort them by
   * `int(date)`, start a fresh rating table, and for each match update the two
   * ratings in place and append a snapshot to the year's history list.
   */
  method PlaySeason(data: seq<MatchRecord>, year: int, history: History, pow10: real -> real, round1: real -> real)
    returns (result: Result<History, EloError>)
    requires PowersPositive(pow10)
    ensures result == SeasonStep(data, year, history, pow10, round1)
  {
    var keyed := DateKeys(MatchesOfYear(data, year));
    if keyed.Failure? {
      SeasonStepDates(data, year, history, pow10, round1);
      return Failure(MalformedDate(keyed.error));
    }
    SeasonStepRun(data, year, history, pow10, round1);
    var order := StableSort(keyed.value);
    result := PlayMatches(year, order, history, pow10, round1);
  }

  /**
   * The inner loop of one year: a fresh rating table, and for each match in
   * order the two in-place rating updates and one snapshot appended to the
   * year's history list.
   */
  method PlayMatches(year: int, order: seq<Keyed>, history: History, pow10: real -> real, round1: real -> real)
    returns (result: Result<History, EloError>)
    requires PowersPositive(pow10)
    ensures RunSeason(year, order, pow10, round1).Failure? ==>
      result == Failure(RunSeason(year, order, pow10, round1).error)
    ensures RunSeason(year, order, pow10, round1).Success? ==>
      result == Success(Appended(history, year, RunSeason(year, order, pow10, round1).value.snapshots))
  {
    var elo: Ratings := map[];
    var h := history;
    ghost var snaps: seq<Snapshot> := [];
    for j := 0 to |order|
      invariant RunSeason(year, order[..j], pow10, round1) == Success(Season(elo, snaps))
      invariant h == Appended(history, year, snaps)
    {
      var m := order[j].rec;
      var goals := ParseScore(m.score);
      if goals.None? {
        RunSeasonFailsAt(year, order, j, pow10, round1);
        return Failure(MalformedScore(m.score));
      }
      var (homeGoals, awayGoals) := goals.value;
      ghost var eloBefore := elo;
      elo := UpdateRatings(elo, m.homeTeam, m.awayTeam, homeGoals, awayGoals, pow10);
      var snap := SnapshotOf(year, m, elo, round1);
      PlayMatchStep(year, order, j, eloBefore, snaps, pow10, round1);
      AppendedStep(history, year, snaps, snap);
      h := h[year := Lookup(h, year) + [snap]];
      snaps := snaps + [snap];
    }
    assert order[..|order|] == order;
    result := Success(h);
  }

  /** Lines 44-50 of the inner loop: the expected result and the two in-place rating updates. */
  method UpdateRatings(elo: Ratings, home: string, away: string, homeGoals: int, awayGoals: int, pow10: real -> real)
    returns (updated: Ratings)
    requires PowersPositive(pow10)
    ensures updated == Update(elo, home, away, homeGoals, awayGoals, pow10)
  {
    var expectedHome := ExpectedHome(pow10, Rating(elo, home), Rating(elo, away));
    var expectedAway := 1.0 - expectedHome;
    var actual := Actual(homeGoals, awayGoals);
    updated := elo[home := Rating(elo, home) + KFactor * (actual - expectedHome)];
    updated := updated[away := Rating(updated, away) + KFactor * ((1.0 - actual) - expectedAway)];
  }

  // ---------------------------------------------------------------------
  // Properties

  /** One more match of the season, when its score parses. */
  lemma PlayMatchStep(year: int, ms: seq<Keyed>, j: nat, elo: Ratings, snaps: seq<Snapshot>, pow10: real -> real, round1: real -> real)
    requires PowersPositive(pow10)
    requires j < |ms|
    requires RunSeason(year, ms[..j], pow10, round1) == Success(Season(elo, snaps))
    requires ParseScore(ms[j].rec.score).Some?
    ensures var m := ms[j].rec;
      var (hg, ag) := ParseScore(m.score).value;
      var elo' := Update(elo, m.homeTeam, m.awayTeam, hg, ag, pow10);
      RunSeason(year, ms[..j + 1], pow10, round1) == Success(Season(elo', snaps + [SnapshotOf(year, m, elo', round1)]))
  {
    assert ms[..j + 1][..j] == ms[..j];
  }

  /** One more year of the history. */
  lemma HistoriesStep(data: seq<MatchRecord>, years: seq<int>, i: nat, h: History, pow10: real -> real, round1: real -> real)
    requires PowersPositive(pow10)
    requires i < |years|
    requires Histories(data, years[..i], pow10, round1) == Success(h)
    ensures Histories(data, years[..i + 1], pow10, round1) == SeasonStep(data, years[i], h, pow10, round1)
  {
    assert years[..i + 1][..i] == years[..i];
  }

  /** A year with a date that `int` rejects fails with that date. */
  lemma SeasonStepDates(data: seq<MatchRecord>, year: int, history: History, pow10: real -> real, round1: real -> real)
    requires PowersPositive(pow10)
    requires DateKeys(MatchesOfYear(data, year)).Failure?
    ensures SeasonStep(data, year, history, pow10, round1)
         == Failure(MalformedDate(DateKeys(MatchesOfYear(data, year)).error))
  {
  }

  /** A year whose dates all parse is the season played in sorted order, appended to the history. */
  lemma SeasonStepRun(data: seq<MatchRecord>, year: int, history: History, pow10: real -> real, round1: real -> real)
    requires PowersPositive(pow10)
    requires DateKeys(MatchesOfYear(data, year)).Success?
    ensures var run := RunSeason(year, StableSort(DateKeys(MatchesOfYear(data, year)).value), pow10, round1);
      SeasonStep(data, year, history, pow10, round1)
      == if run.Success? then Success(Appended(history, year, run.value.snapshots)) else Failure(run.error)
  {
  }

  /** A score that does not parse, after a prefix that succeeds, is the error of the whole season. */
  lemma RunSeasonFailsAt(year: int, ms: seq<Keyed>, j: nat, pow10: real -> real, round1: real -> real)
    requires PowersPositive(pow10)
    requires j < |ms|
    requires RunSeason(year, ms[..j], pow10, round1).Success?
    requires ParseScore(ms[j].rec.score).None?
    ensures RunSeason(year, ms, pow10, round1) == Failure(MalformedScore(ms[j].rec.score))
  {
    PlayMatchFails(year, ms, j, pow10, round1);
    RunSeasonSticky(year, ms, j + 1, pow10, round1);
  }

  /** A match whose score does not parse ends the season with that score as the error. */
  lemma PlayMatchFails(year: int, ms: seq<Keyed>, j: nat, pow10: real -> real, round1: real -> real)
    requires PowersPositive(pow10)
    requires j < |ms|
    requires RunSeason(year, ms[..j], pow10, round1).Success?
    requires ParseScore(ms[j].rec.score).None?
    ensures RunSeason(year, ms[..j + 1], pow10, round1) == Failure(MalformedScore(ms[j].rec.score))
  {
    assert ms[..j + 1][..j] == ms[..j];
  }

  lemma AppendedStep(h: History, year: int, snaps: seq<Snapshot>, snap: Snapshot)
    ensures Appended(h, year, snaps + [snap])
         == Appended(h, year, snaps)[year := Lookup(Appended(h, year, snaps), year) + [snap]]
  {
    if snaps == [] {
      assert snaps + [snap] == [snap];
    } else {
      assert Lookup(Appended(h, year, snaps), year) == Lookup(h, year) + snaps;
      assert Lookup(h, year) + (snaps + [snap]) == (Lookup(h, year) + snaps) + [snap];
    }
  }

  /** Once a prefix of the season fails, the season fails with the same error. */
  lemma {:induction false} RunSeasonSticky(year: int, ms: seq<Keyed>, k: nat, pow10: real -> real, round1: real -> real)
    requires PowersPositive(pow10)
    requires k <= |ms|
    requires RunSeason(year, ms[..k], pow10, round1).Failure?
    ensures RunSeason(year, ms, pow10, round1) == RunSeason(year, ms[..k], pow10, round1)
    decreases |ms| - k
  {
    if k < |ms| {
      assert ms[..k + 1][..k] == ms[..k];
      RunSeasonSticky(year, ms, k + 1, pow10, round1);
    } else {
      assert ms[..k] == ms;
    }
  }

  /** Once a prefix of the years fails, the whole computation fails with the same error. */
  lemma {:induction false} HistoriesSticky(data: seq<MatchRecord>, ys: seq<int>, k: nat, pow10: real -> real, round1: real -> real)
    requires PowersPositive(pow10)
    requires k <= |ys|
    requires Histories(data, ys[..k], pow10, round1).Failure?
    ensures Histories(data, ys, pow10, round1) == Histories(data, ys[..k], pow10, round1)
    decreases |ys| - k
  {
    if k < |ys| {
      assert ys[..k + 1][..k] == ys[..k];
      HistoriesSticky(data, ys, k + 1, pow10, round1);
    } else {
      assert ys[..k] == ys;
    }
  }
}
