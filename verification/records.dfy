/**
 * The match record shared by the scraper (which produces it) and the
 * analysis (which reads it): one JSON object of the match list with the
 * keys year, date, home_team, away_team, score and audience.
 */
module Records {

  datatype MatchRecord = MatchRecord(
    year: int,
    date: string,
    homeTeam: string,
    awayTeam: string,
    score: string,
    audience: int
  )
}
