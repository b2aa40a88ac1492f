/**
 * What the rating engine promises about a season and about the whole
 * history: when it succeeds, one snapshot per match in sorted order, a
 * rating table that starts afresh each year, and one history key per year of
 * the input; and exactly which inputs make it fail.
 */
module EloProperties {
  import opened Wrappers
  import opened Text
  import opened Records
  import opened Ordering
  import opened Elo

  /** `team` plays in one of the matches of `ms`. */
  predicate Plays(ms: seq<Keyed>, team: string) {
    exists i :: 0 <= i < |ms| && (ms[i].rec.homeTeam == team || ms[i].rec.awayTeam == team)
  }

  // ---------------------------------------------------------------------
  // One season

  /** `ok` holds for the record of every element of `ms`, checked from the last one back. */
  predicate Every(ms: seq<Keyed>, ok: MatchRecord -> bool) {
    ms == [] || (Every(ms[..|ms| - 1], ok) && ok(ms[|ms| - 1].rec))
  }

  lemma {:induction false} EveryAt(ms: seq<Keyed>, ok: MatchRecord -> bool)
    ensures Every(ms, ok) <==> forall i :: 0 <= i < |ms| ==> ok(ms[i].rec)
  {
    if ms != [] {
      var init := ms[..|ms| - 1];
      EveryAt(init, ok);
      assert forall i :: 0 <= i < |init| ==> init[i] == ms[i];
    }
  }

  lemma {:induction false} RunSeasonScores(year: int, ms: seq<Keyed>, pow10: real -> real, round1: real -> real)
    requires PowersPositive(pow10)
    ensures RunSeason(year, ms, pow10, round1).Success? <==> Every(ms, ScoreParses)
  {
    if ms != [] {
      RunSeasonScores(year, ms[..|ms| - 1], pow10, round1);
      RunSeasonLast(year, ms, pow10, round1);
    }
  }

  /** A season succeeds exactly when every one of its scores parses: no match is skipped. */
  lemma RunSeasonSucceeds(year: int, ms: seq<Keyed>, pow10: real -> real, round1: real -> real)
    requires PowersPositive(pow10)
    ensures RunSeason(year, ms, pow10, round1).Success? <==> forall i :: 0 <= i < |ms| ==> ScoreParses(ms[i].rec)
  {
    RunSeasonScores(year, ms, pow10, round1);
    EveryAt(ms, ScoreParses);
  }

  /** The last match of a season succeeds when the matches before it do and its score parses. */
  lemma RunSeasonLast(year: int, ms: seq<Keyed>, pow10: real -> real, round1: real -> real)
    requires PowersPositive(pow10)
    requires ms != []
    ensures RunSeason(year, ms, pow10, round1).Success? <==>
      RunSeason(year, ms[..|ms| - 1], pow10, round1).Success? && ScoreParses(ms[|ms| - 1].rec)
  {
  }

  /** The first score that does not parse is the error of the whole season. */
  lemma FirstBadScore(year: int, ms: seq<Keyed>, k: nat, pow10: real -> real, round1: real -> real)
    requires PowersPositive(pow10)
    requires k < |ms| && !ScoreParses(ms[k].rec)
    requires forall i :: 0 <= i < k ==> ScoreParses(ms[i].rec)
    ensures RunSeason(year, ms, pow10, round1) == Failure(MalformedScore(ms[k].rec.score))
  {
    RunSeasonSucceeds(year, ms[..k], pow10, round1);
    PlayMatchFails(year, ms, k, pow10, round1);
    RunSeasonSticky(year, ms, k + 1, pow10, round1);
  }

  /** The teams of a season are those of its earlier matches and the two of its last. */
  lemma PlaysLast(ms: seq<Keyed>, t: string)
    requires ms != []
    ensures Plays(ms, t) <==>
      Plays(ms[..|ms| - 1], t) || t == ms[|ms| - 1].rec.homeTeam || t == ms[|ms| - 1].rec.awayTeam
  {
    var init := ms[..|ms| - 1];
    if Plays(init, t) {
      var i :| 0 <= i < |init| && (init[i].rec.homeTeam == t || init[i].rec.awayTeam == t);
      assert ms[i] == init[i];
    }
  }

  /**
   * After a successful season there is one snapshot per match, and the
   * rating table holds exactly the teams that have played.
   */
  lemma {:induction false} RunSeasonState(year: int, ms: seq<Keyed>, pow10: real -> real, round1: real -> real)
    requires PowersPositive(pow10)
    requires RunSeason(year, ms, pow10, round1).Success?
    ensures |RunSeason(year, ms, pow10, round1).value.snapshots| == |ms|
    ensures forall t :: t in RunSeason(year, ms, pow10, round1).value.elo <==> Plays(ms, t)
  {
    if ms != [] {
      var k := |ms| - 1;
      var init := ms[..k];
      var m := ms[k].rec;
      RunSeasonLast(year, ms, pow10, round1);
      RunSeasonState(year, init, pow10, round1);
      var st := RunSeason(year, init, pow10, round1).value;
      PlayMatchStep(year, ms, k, st.elo, st.snapshots, pow10, round1);
      assert ms[..k + 1] == ms;
      var (hg, ag) := ParseScore(m.score).value;
      UpdateProperties(st.elo, m.homeTeam, m.awayTeam, hg, ag, pow10);
      forall t ensures Plays(ms, t) <==> Plays(init, t) || t == m.homeTeam || t == m.awayTeam {
        PlaysLast(ms, t);
      }
    }
  }

  /** Every prefix of a successful season succeeds, and its snapshots are a prefix of the season's. */
  lemma {:induction false} RunSeasonPrefix(year: int, ms: seq<Keyed>, k: nat, pow10: real -> real, round1: real -> real)
    requires PowersPositive(pow10)
    requires RunSeason(year, ms, pow10, round1).Success? && k <= |ms|
    ensures RunSeason(year, ms[..k], pow10, round1).Success?
    ensures RunSeason(year, ms[..k], pow10, round1).value.snapshots <= RunSeason(year, ms, pow10, round1).value.snapshots
  {
    if k == |ms| {
      assert ms[..k] == ms;
    } else {
      var init := ms[..|ms| - 1];
      assert ms[..k] == init[..k];
      RunSeasonPrefix(year, init, k, pow10, round1);
    }
  }

  /**
   * Match k of a successful season: the ratings after it are those before it
   * updated with its parsed score, and snapshot k records its date, its teams
   * and both rounded ratings after it.
   */
  lemma MatchAt(year: int, ms: seq<Keyed>, k: nat, pow10: real -> real, round1: real -> real)
    requires PowersPositive(pow10)
    requires RunSeason(year, ms, pow10, round1).Success? && k < |ms|
    ensures var m := ms[k].rec;
      var before := RunSeason(year, ms[..k], pow10, round1);
      var after := RunSeason(year, ms[..k + 1], pow10, round1);
      var snaps := RunSeason(year, ms, pow10, round1).value.snapshots;
      && before.Success? && after.Success? && ParseScore(m.score).Some?
      && after.value.elo == Update(before.value.elo, m.homeTeam, m.awayTeam,
                                   ParseScore(m.score).value.0, ParseScore(m.score).value.1, pow10)
      && |snaps| == |ms|
      && snaps[k] == SnapshotOf(year, m, after.value.elo, round1)
      && snaps[k].date == IntToDecimal(year) + "-" + m.date
      && snaps[k].homeElo == round1(Rating(after.value.elo, m.homeTeam))
      && snaps[k].awayElo == round1(Rating(after.value.elo, m.awayTeam))
  {
    RunSeasonSucceeds(year, ms, pow10, round1);
    RunSeasonPrefix(year, ms, k, pow10, round1);
    RunSeasonPrefix(year, ms, k + 1, pow10, round1);
    RunSeasonState(year, ms, pow10, round1);
    var before := RunSeason(year, ms[..k], pow10, round1).value;
    RunSeasonState(year, ms[..k], pow10, round1);
    PlayMatchStep(year, ms, k, before.elo, before.snapshots, pow10, round1);
  }

  /**
   * The table is fresh every season: a team that has not yet played in this
   * season stands at 1500, whatever it did in earlier years.
   */
  lemma FreshRating(year: int, ms: seq<Keyed>, k: nat, team: string, pow10: real -> real, round1: real -> real)
    requires PowersPositive(pow10)
    requires RunSeason(year, ms, pow10, round1).Success? && k <= |ms|
    requires !Plays(ms[..k], team)
    ensures RunSeason(year, ms[..k], pow10, round1).Success?
    ensures Rating(RunSeason(year, ms[..k], pow10, round1).value.elo, team) == InitialElo
  {
    RunSeasonPrefix(year, ms, k, pow10, round1);
    RunSeasonState(year, ms[..k], pow10, round1);
  }

  // ---------------------------------------------------------------------
  // One year of the input

  /**
   * A year's snapshots: one per match of that year, in the stable date order,
   * each dated "<year>-<date>" and naming that match's teams.
   */
  lemma SeasonSnapshots(data: seq<MatchRecord>, year: int, pow10: real -> real, round1: real -> real)
    requires PowersPositive(pow10)
    requires SeasonHistory(data, year, pow10, round1).Success?
    ensures var ms := MatchesOfYear(data, year);
      && DateKeys(ms).Success?
      && var order := StableSort(DateKeys(ms).value);
         var snaps := SeasonHistory(data, year, pow10, round1).value;
         && RunSeason(year, order, pow10, round1).Success?
         && snaps == RunSeason(year, order, pow10, round1).value.snapshots
         && |snaps| == |order| == |ms|
         && forall k :: 0 <= k < |snaps| ==>
              && snaps[k].date == IntToDecimal(year) + "-" + order[k].rec.date
              && snaps[k].homeTeam == order[k].rec.homeTeam
              && snaps[k].awayTeam == order[k].rec.awayTeam
  {
    var ms := MatchesOfYear(data, year);
    var order := StableSort(DateKeys(ms).value);
    SortedMatches(ms);
    RunSeasonState(year, order, pow10, round1);
    forall k | 0 <= k < |order| ensures
      var snaps := RunSeason(year, order, pow10, round1).value.snapshots;
      && snaps[k].date == IntToDecimal(year) + "-" + order[k].rec.date
      && snaps[k].homeTeam == order[k].rec.homeTeam
      && snaps[k].awayTeam == order[k].rec.awayTeam
    {
      MatchAt(year, order, k, pow10, round1);
    }
  }

  /** A year succeeds exactly when every match of that year has a parsing date and a parsing score. */
  lemma SeasonSucceeds(data: seq<MatchRecord>, year: int, pow10: real -> real, round1: real -> real)
    requires PowersPositive(pow10)
    ensures SeasonHistory(data, year, pow10, round1).Success? <==>
      forall i :: 0 <= i < |data| && data[i].year == year ==> DateParses(data[i]) && ScoreParses(data[i])
  {
    var ms := MatchesOfYear(data, year);
    MatchesOfYearMembers(data, year);
    DateKeysSucceed(ms);
    if DateKeys(ms).Failure? {
      var j :| 0 <= j < |ms| && !DateParses(ms[j]);
      assert ms[j] in data;
    } else {
      var order := StableSort(DateKeys(ms).value);
      SortedMatches(ms);
      RunSeasonSucceeds(year, order, pow10, round1);
      if forall i :: 0 <= i < |data| && data[i].year == year ==> DateParses(data[i]) && ScoreParses(data[i]) {
        forall k | 0 <= k < |order| ensures ScoreParses(order[k].rec) {
          assert order[k].rec in ms;
        }
      } else {
        var i :| 0 <= i < |data| && data[i].year == year && !(DateParses(data[i]) && ScoreParses(data[i]));
        assert data[i] in ms;
        var k :| 0 <= k < |order| && order[k].rec == data[i];
      }
    }
  }

  // ---------------------------------------------------------------------
  // The whole history

  /** Every one of the given years succeeds on its own. */
  ghost predicate SeasonsSucceed(data: seq<MatchRecord>, years: seq<int>, pow10: real -> real, round1: real -> real)
    requires PowersPositive(pow10)
  {
    years == [] ||
    (SeasonsSucceed(data, years[..|years| - 1], pow10, round1)
     && SeasonHistory(data, years[|years| - 1], pow10, round1).Success?)
  }

  /** The last year succeeds when the years before it do and its own season does. */
  lemma HistoriesLast(data: seq<MatchRecord>, years: seq<int>, pow10: real -> real, round1: real -> real)
    requires PowersPositive(pow10)
    requires years != []
    ensures Histories(data, years, pow10, round1).Success? <==>
      Histories(data, years[..|years| - 1], pow10, round1).Success?
      && SeasonHistory(data, years[|years| - 1], pow10, round1).Success?
  {
  }

  /** The history succeeds exactly when every processed year succeeds. */
  lemma {:induction false} HistoriesSucceed(data: seq<MatchRecord>, years: seq<int>, pow10: real -> real, round1: real -> real)
    requires PowersPositive(pow10)
    ensures Histories(data, years, pow10, round1).Success? <==> SeasonsSucceed(data, years, pow10, round1)
  {
    if years != [] {
      HistoriesSucceed(data, years[..|years| - 1], pow10, round1);
      HistoriesLast(data, years, pow10, round1);
    }
  }

  lemma {:induction false} SeasonsSucceedAt(data: seq<MatchRecord>, years: seq<int>, y: int, pow10: real -> real, round1: real -> real)
    requires PowersPositive(pow10)
    requires SeasonsSucceed(data, years, pow10, round1) && y in years
    ensures SeasonHistory(data, y, pow10, round1).Success?
  {
    var init, last := years[..|years| - 1], years[|years| - 1];
    assert years == init + [last];
    if y != last {
      SeasonsSucceedAt(data, init, y, pow10, round1);
    }
  }

  /** The given years all succeed exactly when every match of those years has a parsing date and score. */
  lemma {:induction false} SeasonsParse(data: seq<MatchRecord>, years: seq<int>, pow10: real -> real, round1: real -> real)
    requires PowersPositive(pow10)
    ensures SeasonsSucceed(data, years, pow10, round1) <==>
      forall i :: 0 <= i < |data| && data[i].year in years ==> DateParses(data[i]) && ScoreParses(data[i])
  {
    if years != [] {
      var init, last := years[..|years| - 1], years[|years| - 1];
      assert years == init + [last];
      SeasonsParse(data, init, pow10, round1);
      SeasonSucceeds(data, last, pow10, round1);
      assert forall i :: 0 <= i < |data| ==> (data[i].year in years <==> data[i].year in init || data[i].year == last);
    }
  }

  /**
   * Processing distinct years, for any year y: y becomes a key exactly when
   * it is processed and yields at least one snapshot, and its list is then
   * that year's snapshots.
   */
  lemma {:induction false} HistoryAt(data: seq<MatchRecord>, years: seq<int>, y: int, pow10: real -> real, round1: real -> real)
    requires PowersPositive(pow10)
    requires StrictlyAscending(years)
    requires Histories(data, years, pow10, round1).Success?
    ensures y in years ==> SeasonHistory(data, y, pow10, round1).Success?
    ensures y in Histories(data, years, pow10, round1).value <==>
      y in years && SeasonHistory(data, y, pow10, round1).value != []
    ensures y in Histories(data, years, pow10, round1).value ==>
      Histories(data, years, pow10, round1).value[y] == SeasonHistory(data, y, pow10, round1).value
  {
    HistoriesSucceed(data, years, pow10, round1);
    if y in years {
      SeasonsSucceedAt(data, years, y, pow10, round1);
    }
    if years != [] {
      var init, last := years[..|years| - 1], years[|years| - 1];
      assert years == init + [last];
      assert StrictlyAscending(init);
      HistoriesLast(data, years, pow10, round1);
      HistoryAt(data, init, y, pow10, round1);
      HistoryAt(data, init, last, pow10, round1);
      var h0 := Histories(data, init, pow10, round1).value;
      var snaps := SeasonHistory(data, last, pow10, round1).value;
      assert Histories(data, years, pow10, round1) == Success(Appended(h0, last, snaps));
      AppendedFresh(h0, last, snaps, y);
    }
  }

  /**
   * Appending to a year that is not yet a key makes it a key exactly when
   * something is appended, gives it exactly the appended list, and leaves
   * every other year as it was.
   */
  lemma AppendedFresh(h: History, year: int, snaps: seq<Snapshot>, y: int)
    requires year !in h
    ensures y in Appended(h, year, snaps) <==> y in h || (y == year && snaps != [])
    ensures y in Appended(h, year, snaps) ==> Appended(h, year, snaps)[y] == if y == year then snaps else h[y]
  {
  }

  /**
   * Every distinct year of the input becomes exactly one history key, whose
   * list is that year's snapshots: one per match of the year.
   */
  lemma HistoryKeys(data: seq<MatchRecord>, pow10: real -> real, round1: real -> real)
    requires PowersPositive(pow10)
    requires EloHistory(data, pow10, round1).Success?
    ensures var h := EloHistory(data, pow10, round1).value;
      forall y :: y in h <==> exists i :: 0 <= i < |data| && data[i].year == y
    ensures var h := EloHistory(data, pow10, round1).value;
      forall y :: y in h ==>
        && SeasonHistory(data, y, pow10, round1) == Success(h[y])
        && |h[y]| == |MatchesOfYear(data, y)|
  {
    var years := Years(data);
    var h := EloHistory(data, pow10, round1).value;
    forall y ensures y in h <==> y in years
      ensures y in h ==> SeasonHistory(data, y, pow10, round1) == Success(h[y]) && |h[y]| == |MatchesOfYear(data, y)|
    {
      HistoryAt(data, years, y, pow10, round1);
      if y in years {
        var i :| 0 <= i < |data| && data[i].year == y;
        MatchesOfYearMembers(data, y);
        assert data[i] in MatchesOfYear(data, y);
        SeasonSnapshots(data, y, pow10, round1);
      }
    }
  }

  /** The whole computation succeeds exactly when every date and every score of the input parses. */
  lemma EloHistorySucceeds(data: seq<MatchRecord>, pow10: real -> real, round1: real -> real)
    requires PowersPositive(pow10)
    ensures EloHistory(data, pow10, round1).Success? <==>
      forall i :: 0 <= i < |data| ==> DateParses(data[i]) && ScoreParses(data[i])
  {
    var years := Years(data);
    HistoriesSucceed(data, years, pow10, round1);
    SeasonsParse(data, years, pow10, round1);
    assert forall i :: 0 <= i < |data| ==> data[i].year in years;
  }
}
