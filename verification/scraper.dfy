/**
 * The row loop of the season-page scraper: every row of the games table with
 * at least eight cells becomes one match record, unless its team cell has no
 * " - " separator, in which case the row is skipped and the loop goes on.
 * Digits are ASCII digits here, so the skip that Python's `int()` raising on
 * an attendance `isdigit()` accepts (a superscript digit) does not arise.
 *
 * HTML parsing is not modelled: the games table is given as an optional
 * sequence of rows, each row the sequence of its cells' stripped texts.
 *
 * The records written here do not fit what the rating engine expects: the
 * score keeps a plain hyphen ("2-1") while the engine splits on " — ", and
 * the date is the raw cell text while the engine calls int() on it
 * (see ScrapedScoreRejected in module Elo).
 */
module Scraper {
  import opened Wrappers
  import opened Text
  import opened Records

  /** The stripped texts of the cells of one table row. */
  type Row = seq<string>

  const TeamSeparator: string := " - "
  const EnDash: char := '\U{2013}'

  /** The first two pieces of the team cell split on " - ", or None when the split has only one piece. */
  function Teams(cell: string): Option<(string, string)> {
    var pieces := Split(cell, TeamSeparator);
    if |pieces| >= 2 then Some((pieces[0], pieces[1])) else None
  }

  /**
   * The team cell yields two names exactly when it contains " - "; the names
   * are then the text before the first separator and the text between the
   * first and the second (or the end of the cell), so the cell starts with
   * "home - away".
   */
  lemma TeamsOfCell(cell: string)
    ensures Teams(cell).Some? <==> Contains(cell, TeamSeparator)
    ensures Teams(cell).Some? ==>
      var (home, away) := Teams(cell).value;
      && !Contains(home, TeamSeparator)
      && !Contains(away, TeamSeparator)
      && |home| + |TeamSeparator| + |away| <= |cell|
      && cell[..|home| + |TeamSeparator| + |away|] == home + TeamSeparator + away
  {
    var pieces := Split(cell, TeamSeparator);
    SplitHasTwoPieces(cell, TeamSeparator);
    if |pieces| >= 2 {
      SplitPiecesFree(cell, TeamSeparator, 0);
      SplitPiecesFree(cell, TeamSeparator, 1);
      SplitJoin(cell, TeamSeparator);
      var tail := pieces[1..];
      var second := if |tail| == 1 then tail[0] else tail[0] + TeamSeparator + Join(tail[1..], TeamSeparator);
      assert Join(tail, TeamSeparator) == second;
      assert cell == pieces[0] + TeamSeparator + second;
      var head := pieces[0] + TeamSeparator + pieces[1];
      assert cell[..|head|] == head by {
        assert cell == pieces[0] + TeamSeparator + pieces[1] + (second[|pieces[1]|..]);
      }
    }
  }

  /**
   * The home name ends at the first " - " of the cell, and the away name ends
   * at the second " - " after it, or at the end of the cell when there is none.
   */
  lemma TeamsAtSeparators(cell: string)
    requires Teams(cell).Some?
    ensures Find(cell, TeamSeparator, 0) == Some(|Teams(cell).value.0|)
    ensures var start := |Teams(cell).value.0| + |TeamSeparator|;
      var next := Find(cell, TeamSeparator, start);
      && (next.None? ==> start + |Teams(cell).value.1| == |cell|)
      && (next.Some? ==> next.value == start + |Teams(cell).value.1|)
  {
    var pieces := Split(cell, TeamSeparator);
    assert Teams(cell).value == (pieces[0], pieces[1]);
    SplitFirstPiece(cell, TeamSeparator);
    SplitSecondPiece(cell, TeamSeparator);
  }

  /** The score cell with every en dash replaced by a hyphen, all else unchanged. */
  function ScoreText(cell: string): (score: string)
    ensures |score| == |cell| && EnDash !in score
    ensures forall i :: 0 <= i < |cell| && cell[i] == EnDash ==> score[i] == '-'
    ensures forall i :: 0 <= i < |cell| && cell[i] != EnDash ==> score[i] == cell[i]
  {
    ReplaceChar(cell, EnDash, '-')
  }

  /**
   * The attendance: the cell with its spaces removed, read as an integer when
   * it is a non-empty string of digits, and 0 otherwise.
   */
  function AudienceValue(cell: string): (n: int)
    ensures n >= 0
    ensures IsDigitString(RemoveChar(cell, ' ')) ==> Some(n) == ParseInt(RemoveChar(cell, ' '))
    ensures !IsDigitString(RemoveChar(cell, ' ')) ==> n == 0
  {
    var digits := RemoveChar(cell, ' ');
    if IsDigitString(digits) then
      ParseDigitString(digits);
      ParseInt(digits).value
    else 0
  }

  /** A spelled-out attendance figure reads back as itself. */
  lemma AudienceOfDigits(n: nat)
    ensures AudienceValue(NatToDigits(n)) == n
  {
    var s := NatToDigits(n);
    assert ' ' !in s by {
      forall i | 0 <= i < |s| ensures s[i] != ' ' {
        assert IsAsciiDigit(s[i]);
      }
    }
    RemoveCharAbsent(s, ' ');
    ParseDigitString(s);
    DigitsRoundTrip(n);
  }

  /**
   * The body of the `try` block for one row of at least eight cells: None
   * stands for the IndexError raised when the team cell has no " - ".
   */
  function ExtractGame(cols: Row, year: int): (r: Option<MatchRecord>)
    requires |cols| >= 8
    ensures r.Some? <==> Contains(cols[4], TeamSeparator)
    ensures r.Some? ==> r.value.year == year && r.value.date == cols[0] && r.value.audience >= 0
    ensures r.Some? ==>
      && r.value.homeTeam == Teams(cols[4]).value.0 && r.value.awayTeam == Teams(cols[4]).value.1
      && r.value.score == ScoreText(cols[6]) && r.value.audience == AudienceValue(cols[7])
  {
    TeamsOfCell(cols[4]);
    match Teams(cols[4])
    case None => None
    case Some((home, away)) =>
      Some(MatchRecord(year, cols[0], home, away, ScoreText(cols[6]), AudienceValue(cols[7])))
  }

  /** The records one row contributes: none for a short row or a skipped row, else one. */
  function RowGames(row: Row, year: int): seq<MatchRecord> {
    if |row| < 8 then []
    else match ExtractGame(row, year)
      case None => []
      case Some(game) => [game]
  }

  /** The records produced from a sequence of rows, in row order. */
  function GamesOf(rows: seq<Row>, year: int): seq<MatchRecord> {
    if rows == [] then [] else GamesOf(rows[..|rows| - 1], year) + RowGames(rows[|rows| - 1], year)
  }

  /** A row yields a record exactly when it has eight cells and its team cell holds " - ". */
  lemma RowAccepted(row: Row, year: int)
    ensures |RowGames(row, year)| <= 1
    ensures |RowGames(row, year)| == 1 <==> |row| >= 8 && Contains(row[4], TeamSeparator)
  {
  }

  /** Processing rows is compositional: the records of a + b are those of a followed by those of b. */
  lemma {:induction false} GamesOfAppend(a: seq<Row>, b: seq<Row>, year: int)
    ensures GamesOf(a + b, year) == GamesOf(a, year) + GamesOf(b, year)
    decreases |b|
  {
    if b == [] {
      assert a + b == a;
    } else {
      var b', row := b[..|b| - 1], b[|b| - 1];
      assert b == b' + [row];
      assert a + b == (a + b') + [row];
      GamesOfAppend(a, b', year);
      GamesOfLast(a + b', row, year);
      GamesOfLast(b', row, year);
    }
  }

  lemma GamesOfLast(rows: seq<Row>, row: Row, year: int)
    ensures GamesOf(rows + [row], year) == GamesOf(rows, year) + RowGames(row, year)
  {
    assert (rows + [row])[..|rows|] == rows;
  }

  /** Every record carries the requested year and a non-negative attendance, and there are at most as many records as rows. */
  lemma {:induction false} GamesOfFacts(rows: seq<Row>, year: int)
    ensures |GamesOf(rows, year)| <= |rows|
    ensures forall g :: g in GamesOf(rows, year) ==> g.year == year && g.audience >= 0
  {
    if rows != [] {
      GamesOfFacts(rows[..|rows| - 1], year);
      RowAccepted(rows[|rows| - 1], year);
    }
  }

  /**
   * `parse_games` after the table lookup: a missing table gives no records;
   * otherwise each row in turn is filtered, extracted and appended, and a
   * failing row is skipped.
   */
  method ParseGames(table: Option<seq<Row>>, year: int) returns (games: seq<MatchRecord>)
    ensures table.None? ==> games == []
    ensures table.Some? ==> games == GamesOf(table.value, year)
    ensures table.Some? ==> |games| <= |table.value|
    ensures forall g :: g in games ==> g.year == year && g.audience >= 0
  {
    games := [];
    if table.None? {
      return;
    }
    var rows := table.value;
    for i := 0 to |rows|
      invariant games == GamesOf(rows[..i], year)
    {
      assert rows[..i + 1][..i] == rows[..i];
      var cols := rows[i];
      if |cols| >= 8 {
        match ExtractGame(cols, year)
        case Some(game) =>
          games := games + [game];
        case None =>
          // the exception is reported and the loop continues
      }
    }
    assert rows[..|rows|] == rows;
    GamesOfFacts(rows, year);
  }
}
