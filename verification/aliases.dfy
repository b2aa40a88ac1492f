/**
 * Team-name alias substitution: every home and away team name found in the
 * alias table is replaced by its canonical name, in place. The alias table is
 * a parameter; reading it from its JSON file is not part of this model.
 */
module Aliases {
  import opened Records

  /** `aliases.get(name, name)`. */
  function Canonical(aliases: map<string, string>, name: string): string {
    if name in aliases then aliases[name] else name
  }

  function Renamed(m: MatchRecord, aliases: map<string, string>): MatchRecord {
    m.(homeTeam := Canonical(aliases, m.homeTeam), awayTeam := Canonical(aliases, m.awayTeam))
  }

  /** The whole match list after substitution. */
  function Normalized(s: seq<MatchRecord>, aliases: map<string, string>): (r: seq<MatchRecord>)
    ensures |r| == |s|
  {
    if s == [] then [] else Normalized(s[..|s| - 1], aliases) + [Renamed(s[|s| - 1], aliases)]
  }

  /**
   * Substitution keeps the list's length and order: the k-th record keeps its
   * year, date, score and attendance, and each of its team names is replaced
   * by the alias table's value when it is a key and kept otherwise.
   */
  lemma {:induction false} NormalizedAt(s: seq<MatchRecord>, aliases: map<string, string>, k: nat)
    requires k < |s|
    ensures var m, n := s[k], Normalized(s, aliases)[k];
      && n.year == m.year && n.date == m.date && n.score == m.score && n.audience == m.audience
      && (m.homeTeam in aliases ==> n.homeTeam == aliases[m.homeTeam])
      && (m.homeTeam !in aliases ==> n.homeTeam == m.homeTeam)
      && (m.awayTeam in aliases ==> n.awayTeam == aliases[m.awayTeam])
      && (m.awayTeam !in aliases ==> n.awayTeam == m.awayTeam)
  {
    if k < |s| - 1 {
      NormalizedAt(s[..|s| - 1], aliases, k);
    }
  }

  /** When no canonical name is itself an alias, substituting twice is the same as once. */
  lemma {:induction false} NormalizedIdempotent(s: seq<MatchRecord>, aliases: map<string, string>)
    requires forall name :: name in aliases.Values ==> name !in aliases
    ensures Normalized(Normalized(s, aliases), aliases) == Normalized(s, aliases)
  {
    if s != [] {
      var n := Normalized(s, aliases);
      NormalizedIdempotent(s[..|s| - 1], aliases);
      assert n[..|n| - 1] == Normalized(s[..|s| - 1], aliases);
      var last := s[|s| - 1];
      assert Canonical(aliases, last.homeTeam) !in aliases by {
        if last.homeTeam in aliases {
          assert aliases[last.homeTeam] in aliases.Values;
        }
      }
      assert Canonical(aliases, last.awayTeam) !in aliases by {
        if last.awayTeam in aliases {
          assert aliases[last.awayTeam] in aliases.Values;
        }
      }
    }
  }

  /** `normalisoi_joukkueet` after the alias file is read: overwrite both names of each record in turn. */
  method NormalizeTeams(data: array<MatchRecord>, aliases: map<string, string>)
    modifies data
    ensures data[..] == Normalized(old(data[..]), aliases)
  {
    ghost var original := data[..];
    for i := 0 to data.Length
      invariant data[..i] == Normalized(original[..i], aliases)
      invariant data[i..] == original[i..]
    {
      data[i] := data[i].(homeTeam := Canonical(aliases, data[i].homeTeam));
      data[i] := data[i].(awayTeam := Canonical(aliases, data[i].awayTeam));
      assert original[..i + 1][..i] == original[..i];
      assert data[..i + 1] == data[..i] + [data[i]];
    }
    assert original[..data.Length] == original;
  }
}
