/** The earlier drafts' players and matches: the fields of player.py and
    model/player.py that the draft tournaments read, and the two-player,
    two-score match of match.py. */
module DraftMatches {
  import opened Common

  /** A registered player of the drafts, as far as they look into it. */
  datatype DraftPlayer = DraftPlayer(firstname: string, lastname: string)

  /** `f"{player.firstname} {player.lastname}"`. */
  function DisplayName(p: DraftPlayer): (s: string)
    ensures |s| == |p.firstname| + 1 + |p.lastname|
    ensures s[..|p.firstname|] == p.firstname && s[|p.firstname|] == ' ' && s[|p.firstname| + 1..] == p.lastname
  {
    p.firstname + " " + p.lastname
  }

  /** A draft match: the players (by name) and their scores. */
  datatype DraftMatch = DraftMatch(players: seq<string>, scores: seq<int>)

  const TwoPlayersMessage: string := "ValueError: A match must have exactly 2 players."
  const TwoScoresMessage: string := "ValueError: A match must have exactly 2 scores."

  /** `Match(players, scores)`: both lists must have exactly two entries,
      the players checked first; on success they are kept as given. */
  function NewMatch(players: seq<string>, scores: seq<int>): (r: Result<DraftMatch>)
    ensures r.Ok? <==> |players| == 2 && |scores| == 2
    ensures r.Ok? ==> r.value.players == players && r.value.scores == scores
    ensures |players| != 2 ==> r == Err(TwoPlayersMessage)
    ensures |players| == 2 && |scores| != 2 ==> r == Err(TwoScoresMessage)
  {
    if |players| != 2 then Err(TwoPlayersMessage)
    else if |scores| != 2 then Err(TwoScoresMessage)
    else Ok(DraftMatch(players, scores))
  }

  /** What a successful construction guarantees. */
  predicate WellFormedMatch(m: DraftMatch) {
    |m.players| == 2 && |m.scores| == 2
  }

  /** `str(match)`: "Match: P0 vs P1, Scores: s0-s1"; the first player's
      name follows the "Match: " prefix and the second score closes the text. */
  function MatchText(m: DraftMatch): (s: string)
    requires WellFormedMatch(m)
    ensures "Match: " + m.players[0] + " vs " <= s
    ensures |s| == 7 + |m.players[0]| + 4 + |m.players[1]| + 10
                   + |IntToString(m.scores[0])| + 1 + |IntToString(m.scores[1])|
    ensures s[|s| - |IntToString(m.scores[1])| - 1..] == "-" + IntToString(m.scores[1])
  {
    var head := "Match: " + m.players[0] + " vs ";
    var tail := "-" + IntToString(m.scores[1]);
    var middle := m.players[1] + ", Scores: " + IntToString(m.scores[0]);
    assert (head + middle + tail)[|head + middle|..] == tail;
    head + middle + tail
  }
}
