/** The round stub of the draft model/round.py: a round made for a
    score-table tournament, named after its current round. */
module DraftRounds {
  import opened Common
  import opened DraftMatches
  import ScoreTables

  /** The round keeps its tournament by reference, its name, and its
      matches. */
  datatype DraftRound = DraftRound(tournament: ScoreTables.Tournament, name: string, matches: seq<DraftMatch>)

  /** The text after "round ": `str(current_round)`. */
  function RoundName(currentRound: int): (s: string)
    ensures |s| > 6 && s[..6] == "round " && s[6..] == IntToString(currentRound)
  {
    "round " + IntToString(currentRound)
  }

  /** `Round(tournament)`: named after the tournament's current round at
      construction time, with no matches. */
  function NewRound(tournament: ScoreTables.Tournament): (r: DraftRound)
    reads tournament
    ensures r.tournament == tournament && r.matches == []
    ensures r.name == RoundName(tournament.currentRound)
  {
    DraftRound(tournament, RoundName(tournament.currentRound), [])
  }

  /** `get_matches`: the stored list itself. */
  function GetMatches(r: DraftRound): (ms: seq<DraftMatch>)
    ensures ms == r.matches
  {
    r.matches
  }

  /** The decimal text of a non-negative round number reads back as that
      number. */
  lemma RoundNameDigits(currentRound: int)
    requires currentRound >= 0
    ensures AllDigits(RoundName(currentRound)[6..])
    ensures DigitsValue(RoundName(currentRound)[6..]) == currentRound
  {
  }

  /** Rounds made at different current rounds get different names. */
  lemma RoundNameInjective(a: int, b: int)
    requires RoundName(a) == RoundName(b)
    ensures a == b
  {
    var sa := IntToString(a);
    var sb := IntToString(b);
    assert sa == RoundName(a)[6..] && sb == RoundName(b)[6..];
    if a >= 0 && b >= 0 {
      assert DigitsValue(sa) == DigitsValue(sb);
    } else if a < 0 && b < 0 {
      assert DigitsValue(sa[1..]) == DigitsValue(sb[1..]);
    }
  }
}
