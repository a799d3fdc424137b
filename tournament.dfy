/** The tournament of chess/model/tournament.py: its record fields, the
    pairing of one round, the leaderboard, and the round cursor of
    `play_tournament`. `random.shuffle` and `random.choice` are replaced by
    their results, passed in by the caller: `shuffled` is the shuffled list
    of combinations and `outcome(k)` the result drawn for the k-th match
    created by one call. */
module Tournaments {
  import opened Common
  import opened OrderedDicts
  import opened Players
  import opened Matches
  import opened Scoring
  import opened Pairing
  import opened Rounds

  /** A value `__getitem__` hands back. */
  datatype FieldValue =
    | Text(text: string)
    | Number(number: int)
    | RoundList(rounds: seq<Round>)
    | Scores(scores: Dict<string, real>)
    | PlayerList(players: seq<Player>)
    | PairSet(pairs: set<Pair>)

  /** The keys `__getitem__` answers. */
  const FieldKeys: set<string> := {"name", "place", "date_start", "date_end", "rounds",
                                   "director_note", "current_round", "players_score",
                                   "players_list", "played_pairs"}

  /** Python's `xs[i]` on a list of length `n`: negative indexes count from
      the end, anything else out of range raises IndexError (None). */
  function PyIndex(i: int, n: nat): (r: Option<nat>)
    ensures r.Some? <==> -(n as int) <= i < n
    ensures r.Some? ==> r.value < n && (i >= 0 ==> r.value == i) && (i < 0 ==> r.value == n + i)
  {
    if 0 <= i < n then Some(i) else if -(n as int) <= i < 0 then Some(n + i) else None
  }

  /** The pairs one call of `generate_pairs_for_round` accepts, in order:
      in round 0 the greedy scan of the shuffled combinations, afterwards
      the closest-score pairing of the roster sorted by `score`. */
  function RoundPairs(currentRound: int, roster: seq<Player>, shuffled: seq<Pair>, played: set<Pair>): seq<Pair> {
    if currentRound == 0 then GreedyScan(shuffled, {}) else LaterPairs(SortDesc(roster, Score), played)
  }

  /** Whatever the round and the shuffle, the pairs of one call on a
      roster without repetitions form a matching of roster players. */
  lemma RoundPairsIsMatching(currentRound: int, roster: seq<Player>, shuffled: seq<Pair>, played: set<Pair>)
    requires Distinct(roster)
    requires currentRound == 0 ==> multiset(shuffled) == multiset(Combinations(roster))
    ensures NoSelfPairs(RoundPairs(currentRound, roster, shuffled, played))
    ensures NoSharedPlayer(RoundPairs(currentRound, roster, shuffled, played))
    ensures forall x :: x in Flatten(RoundPairs(currentRound, roster, shuffled, played)) ==> x in roster
  {
    if currentRound == 0 {
      FirstRoundIsMatching(roster, shuffled);
    } else {
      LaterRoundPairing(roster, played);
    }
  }

  /** `matches[k]` is the match created for `pairs[k]`, `{p1: 0, p2: 0}`,
      after one `play_match` with the k-th drawn result. */
  predicate PlayedAsPaired(matches: seq<Match>, pairs: seq<Pair>, outcome: nat -> Outcome)
    reads matches
  {
    |matches| == |pairs|
    && (pairs != [] ==>
          var k := |pairs| - 1;
          PlayedAsPaired(matches[..k], pairs[..k], outcome)
          && matches[k].players == Played(NewPoints(pairs[k].0, pairs[k].1), outcome(k))
          && matches[k].result == Some(outcome(k)))
  }

  /** Read position by position: the k-th match holds the points of the
      k-th pair after the k-th drawn result. */
  lemma {:induction false} PlayedAsPairedAt(matches: seq<Match>, pairs: seq<Pair>, outcome: nat -> Outcome, k: nat)
    requires PlayedAsPaired(matches, pairs, outcome) && k < |pairs|
    ensures matches[k].players == Played(NewPoints(pairs[k].0, pairs[k].1), outcome(k))
    ensures matches[k].result == Some(outcome(k))
    decreases |pairs|
  {
    var n := |pairs| - 1;
    if k < n {
      PlayedAsPairedAt(matches[..n], pairs[..n], outcome, k);
    }
  }

  lemma PlayedAsPairedAppend(ms: seq<Match>, pairs: seq<Pair>, m: Match, q: Pair, outcome: nat -> Outcome)
    requires PlayedAsPaired(ms, pairs, outcome)
    requires m.players == Played(NewPoints(q.0, q.1), outcome(|pairs|)) && m.result == Some(outcome(|pairs|))
    ensures PlayedAsPaired(ms + [m], pairs + [q], outcome)
  {
  }

  /** `Match({player1: 0, player2: 0})` followed by `play_match()` with
      the drawn result. */
  method PlayNewMatch(player1: Player, player2: Player, drawn: Outcome) returns (m: Match)
    ensures fresh(m)
    ensures m.players == Played(NewPoints(player1, player2), drawn) && m.result == Some(drawn)
  {
    m := new Match(NewPoints(player1, player2));
    var result := m.PlayMatch(drawn);
  }

  /** Create the match of pair `q`, play it with the next drawn result and
      append it to the round's matches. */
  method AppendPlayedMatch(roundMatches: seq<Match>, ghost accepted: seq<Pair>, q: Pair, outcome: nat -> Outcome)
    returns (newMatches: seq<Match>)
    requires PlayedAsPaired(roundMatches, accepted, outcome)
    ensures PlayedAsPaired(newMatches, accepted + [q], outcome)
  {
    var matchInstance := PlayNewMatch(q.0, q.1, outcome(|roundMatches|));
    newMatches := roundMatches + [matchInstance];
    PlayedAsPairedAppend(roundMatches, accepted, matchInstance, q, outcome);
  }

  /** A pair of the scan at position `i` with a paired player is skipped. */
  lemma ScanSkip(pairs: seq<Pair>, i: nat, paired: set<Player>, accepted: seq<Pair>)
    requires i < |pairs| && (pairs[i].0 in paired || pairs[i].1 in paired)
    requires accepted + GreedyScan(pairs[i..], paired) == GreedyScan(pairs, {})
    ensures accepted + GreedyScan(pairs[i + 1..], paired) == GreedyScan(pairs, {})
  {
    assert pairs[i..][0] == pairs[i] && pairs[i..][1..] == pairs[i + 1..];
  }

  /** A pair of the scan at position `i` with two free players is taken. */
  lemma ScanTake(pairs: seq<Pair>, i: nat, paired: set<Player>, accepted: seq<Pair>)
    requires i < |pairs| && pairs[i].0 !in paired && pairs[i].1 !in paired
    requires accepted + GreedyScan(pairs[i..], paired) == GreedyScan(pairs, {})
    ensures (accepted + [pairs[i]]) + GreedyScan(pairs[i + 1..], paired + {pairs[i].0, pairs[i].1})
            == GreedyScan(pairs, {})
  {
    assert pairs[i..][0] == pairs[i] && pairs[i..][1..] == pairs[i + 1..];
    var tail := GreedyScan(pairs[i + 1..], paired + {pairs[i].0, pairs[i].1});
    assert GreedyScan(pairs[i..], paired) == [pairs[i]] + tail;
    assert accepted + ([pairs[i]] + tail) == (accepted + [pairs[i]]) + tail;
  }

  /** The later-round loop stops when the head has no legal opponent. */
  lemma LaterStop(s: seq<Player>, played: set<Pair>, accepted: seq<Pair>, all: seq<Pair>)
    requires |s| >= 2 && Opponent(s, played).None?
    requires accepted + LaterPairs(s, played) == all
    ensures accepted == all
  {
    assert accepted + [] == accepted;
  }

  /** The later-round loop pairs the head with its opponent `s[k]`. */
  lemma LaterTake(s: seq<Player>, played: set<Pair>, accepted: seq<Pair>, all: seq<Pair>, k: nat)
    requires |s| >= 2 && Opponent(s, played) == Some(k)
    requires accepted + LaterPairs(s, played) == all
    ensures (accepted + [(s[0], s[k])]) + LaterPairs(AfterPairing(s, k), played + {(s[0], s[k]), (s[k], s[0])})
            == all
  {
    LaterPairsStep(s, played);
    var tail := LaterPairs(AfterPairing(s, k), played + {(s[0], s[k]), (s[k], s[0])});
    assert accepted + ([(s[0], s[k])] + tail) == (accepted + [(s[0], s[k])]) + tail;
  }

  /** `remove(player1)` then, if anything is left, `remove(player2)` is
      the removal the later-round loop is specified with. */
  lemma RemoveHeadThen(s: seq<Player>, k: nat)
    requires 1 <= k < |s|
    ensures s[k] in RemoveFirst(s, s[0])
    ensures |RemoveFirst(s, s[0])| > 0 && RemoveFirst(RemoveFirst(s, s[0]), s[k]) == AfterPairing(s, k)
  {
    assert RemoveFirst(s, s[0]) == s[1..];
  }

  /** Recording one more pair both ways. */
  lemma RecordBoth(played: set<Pair>, pairs: seq<Pair>, q: Pair)
    ensures played + Both(pairs + [q]) == played + Both(pairs) + {(q.0, q.1), (q.1, q.0)}
  {
    assert (pairs + [q])[..|pairs|] == pairs;
  }

  /** The round-0 branch: scan the shuffled pairs, skip a pair with an
      already paired player, otherwise create and play its match and record
      the pair both ways. */
  method PairFirstRound(shuffled: seq<Pair>, played: set<Pair>, outcome: nat -> Outcome)
    returns (roundMatches: seq<Match>, newPlayed: set<Pair>)
    ensures newPlayed == played + Both(GreedyScan(shuffled, {}))
    ensures PlayedAsPaired(roundMatches, GreedyScan(shuffled, {}), outcome)
  {
    roundMatches := [];
    newPlayed := played;
    var pairedPlayers: set<Player> := {};
    ghost var accepted: seq<Pair> := [];
    for i := 0 to |shuffled|
      invariant accepted + GreedyScan(shuffled[i..], pairedPlayers) == GreedyScan(shuffled, {})
      invariant newPlayed == played + Both(accepted)
      invariant PlayedAsPaired(roundMatches, accepted, outcome)
    {
      var (player1, player2) := shuffled[i];
      if player1 in pairedPlayers || player2 in pairedPlayers {
        ScanSkip(shuffled, i, pairedPlayers, accepted);
        continue;
      }
      ScanTake(shuffled, i, pairedPlayers, accepted);
      roundMatches := AppendPlayedMatch(roundMatches, accepted, (player1, player2), outcome);
      RecordBoth(played, accepted, (player1, player2));
      newPlayed := newPlayed + {(player1, player2), (player2, player1)};
      pairedPlayers := pairedPlayers + {player1, player2};
      accepted := accepted + [(player1, player2)];
    }
    assert shuffled[|shuffled|..] == [];
    assert accepted + [] == accepted;
  }

  /** The inner search of the later rounds: the legal candidate with the
      smallest score difference to the head, the first one on ties
      (`min_diff` starts at infinity, None here). */
  method FindOpponent(sortedPlayers: seq<Player>, played: set<Pair>) returns (opponent: Option<nat>)
    requires |sortedPlayers| >= 1
    ensures opponent == BestOpponent(sortedPlayers, played)
  {
    var player1 := sortedPlayers[0];
    opponent := None;
    var minDiff: Option<real> := None;
    for j := 1 to |sortedPlayers|
      invariant opponent.None? ==> forall i :: 1 <= i < j ==> !Legal(player1, sortedPlayers[i], played)
      invariant opponent.Some? ==> BestAmong(sortedPlayers, played, j, opponent.value)
      invariant minDiff == if opponent.None? then None else Some(Diff(player1, sortedPlayers[opponent.value]))
      invariant BestFrom(sortedPlayers, played, j, opponent) == BestOpponent(sortedPlayers, played)
    {
      if (player1, sortedPlayers[j]) !in played && (sortedPlayers[j], player1) !in played {
        var scoreDiff := Abs(player1.score - sortedPlayers[j].score);
        if minDiff.None? || scoreDiff < minDiff.value {
          minDiff := Some(scoreDiff);
          opponent := Some(j);
        }
      }
    }
  }

  /** The later-round branch: sort by `score`, then while two or more
      players remain pair the head with its opponent, play the match,
      record the pair both ways and remove both players; stop when the
      head has no legal opponent. */
  method PairLaterRounds(roster: seq<Player>, played: set<Pair>, outcome: nat -> Outcome)
    returns (roundMatches: seq<Match>, newPlayed: set<Pair>)
    ensures newPlayed == played + Both(LaterPairs(SortDesc(roster, Score), played))
    ensures PlayedAsPaired(roundMatches, LaterPairs(SortDesc(roster, Score), played), outcome)
  {
    var sortedPlayers := SortDesc(roster, Score);
    roundMatches := [];
    newPlayed := played;
    ghost var accepted: seq<Pair> := [];
    while |sortedPlayers| >= 2
      invariant accepted + LaterPairs(sortedPlayers, newPlayed) == LaterPairs(SortDesc(roster, Score), played)
      invariant newPlayed == played + Both(accepted)
      invariant PlayedAsPaired(roundMatches, accepted, outcome)
      decreases |sortedPlayers|
    {
      var player1 := sortedPlayers[0];
      var k: nat;
      if |sortedPlayers| == 2 {
        k := 1;
      } else {
        var found := FindOpponent(sortedPlayers, newPlayed);
        if found.None? {
          LaterStop(sortedPlayers, newPlayed, accepted, LaterPairs(SortDesc(roster, Score), played));
          break;
        }
        k := found.value;
      }
      var player2 := sortedPlayers[k];
      LaterTake(sortedPlayers, newPlayed, accepted, LaterPairs(SortDesc(roster, Score), played), k);
      ghost var before := sortedPlayers;
      roundMatches := AppendPlayedMatch(roundMatches, accepted, (player1, player2), outcome);
      newPlayed := newPlayed + {(player1, player2), (player2, player1)};
      RecordBoth(played, accepted, (player1, player2));
      accepted := accepted + [(player1, player2)];

      RemoveHeadThen(before, k);
      sortedPlayers := RemoveFirst(sortedPlayers, player1);
      if |sortedPlayers| > 0 {
        sortedPlayers := RemoveFirst(sortedPlayers, player2);
      }
    }
    assert accepted + [] == accepted;
  }

  /** The two branches of `generate_pairs_for_round` up to the extension
      of the round's matches. */
  method PairRound(currentRound: int, roster: seq<Player>, shuffled: seq<Pair>, played: set<Pair>,
                   outcome: nat -> Outcome)
    returns (roundMatches: seq<Match>, newPlayed: set<Pair>)
    ensures newPlayed == played + Both(RoundPairs(currentRound, roster, shuffled, played))
    ensures PlayedAsPaired(roundMatches, RoundPairs(currentRound, roster, shuffled, played), outcome)
  {
    if currentRound == 0 {
      roundMatches, newPlayed := PairFirstRound(shuffled, played, outcome);
    } else {
      roundMatches, newPlayed := PairLaterRounds(roster, played, outcome);
    }
  }

  class Tournament {
    var name: string
    var place: string
    var dateStart: string
    var dateEnd: string
    var rounds: seq<Round>
    var directorNote: string
    var currentRound: int
    var playersScore: Dict<string, real>
    var playersList: seq<Player>
    var playedPairs: set<Pair>

    /** `Tournament(...)`: the number of rounds, the score table, the
        played pairs and the player list passed in are all ignored; the
        tournament starts with no rounds, no players, an empty score table
        and no played pairs. */
    constructor (name: string, place: string, dateStart: string, dateEnd: string,
                 roundCount: int := 4, directorNote: string := "", currentRound: int := 0,
                 playersScore: Dict<string, real> := [], playedPairs: set<Pair> := {},
                 playersList: seq<Player> := [])
      ensures this.name == name && this.place == place
      ensures this.dateStart == dateStart && this.dateEnd == dateEnd
      ensures this.directorNote == directorNote && this.currentRound == currentRound
      ensures rounds == [] && this.playersScore == [] && this.playersList == [] && this.playedPairs == {}
    {
      this.name := name;
      this.place := place;
      this.dateStart := dateStart;
      this.dateEnd := dateEnd;
      rounds := [];
      this.directorNote := directorNote;
      this.currentRound := currentRound;
      this.playersScore := [];
      this.playersList := [];
      this.playedPairs := {};
    }

    /** `tournament[key]`: the field of that name, or KeyError for any
        other key. */
    function GetItem(key: string): (r: Result<FieldValue>)
      reads this
      ensures r.Ok? <==> key in FieldKeys
      ensures r.Err? ==> r.error == "KeyError: Invalid key: " + key
    {
      if key == "name" then Ok(Text(name))
      else if key == "place" then Ok(Text(place))
      else if key == "date_start" then Ok(Text(dateStart))
      else if key == "date_end" then Ok(Text(dateEnd))
      else if key == "rounds" then Ok(RoundList(rounds))
      else if key == "director_note" then Ok(Text(directorNote))
      else if key == "current_round" then Ok(Number(currentRound))
      else if key == "players_score" then Ok(Scores(playersScore))
      else if key == "players_list" then Ok(PlayerList(playersList))
      else if key == "played_pairs" then Ok(PairSet(playedPairs))
      else Err("KeyError: Invalid key: " + key)
    }

    /** `get_players`: the roster itself. */
    method GetPlayers() returns (players: seq<Player>)
      ensures players == playersList
    {
      players := playersList;
    }

    /** `add_round` as written: `Round(round_name)` passes one argument to
        a constructor that needs four, so the first iteration raises
        TypeError and no round is ever added; with `num_rounds <= 0` the
        loop does not run. */
    method AddRoundAsWritten(numRounds: int) returns (status: Result<()>)
      ensures status.Err? <==> numRounds >= 1
      ensures status.Err? ==> status.error == "TypeError: __init__() missing 3 required positional arguments"
      ensures rounds == old(rounds)
    {
      if numRounds >= 1 {
        status := Err("TypeError: __init__() missing 3 required positional arguments");
      } else {
        status := Ok(());
      }
    }

    /** `add_round` as intended: append `num_rounds` new empty rounds named
        "Round 1", "Round 2", ...; the rounds already there stay. */
    method AddRound(numRounds: int)
      modifies this
      ensures |rounds| == |old(rounds)| + (if numRounds > 0 then numRounds else 0)
      ensures rounds[..|old(rounds)|] == old(rounds)
      ensures forall i :: |old(rounds)| <= i < |rounds| ==>
                fresh(rounds[i]) && rounds[i].name == "Round " + NatToString(i - |old(rounds)| + 1)
                && rounds[i].matches == []
      ensures name == old(name) && place == old(place) && dateStart == old(dateStart) && dateEnd == old(dateEnd)
      ensures directorNote == old(directorNote) && currentRound == old(currentRound)
      ensures playersScore == old(playersScore) && playersList == old(playersList) && playedPairs == old(playedPairs)
    {
      var i := 0;
      while i < numRounds
        invariant 0 <= i && (numRounds > 0 ==> i <= numRounds) && (numRounds <= 0 ==> i == 0)
        invariant |rounds| == |old(rounds)| + i
        invariant rounds[..|old(rounds)|] == old(rounds)
        invariant forall j :: |old(rounds)| <= j < |rounds| ==>
                    fresh(rounds[j]) && rounds[j].name == "Round " + NatToString(j - |old(rounds)| + 1)
                    && rounds[j].matches == []
        invariant name == old(name) && place == old(place) && dateStart == old(dateStart) && dateEnd == old(dateEnd)
        invariant directorNote == old(directorNote) && currentRound == old(currentRound)
        invariant playersScore == old(playersScore) && playersList == old(playersList) && playedPairs == old(playedPairs)
      {
        var roundInstance := new Round("Round " + NatToString(i + 1), [], None, None);
        rounds := rounds + [roundInstance];
        i := i + 1;
      }
    }

    /** The round the new matches go to, `rounds[current_round]`, when that
        index exists. */
    function TargetRound(): set<Round>
      reads this
    {
      match PyIndex(currentRound, |rounds|)
      case None => {}
      case Some(i) => {rounds[i]}
    }

    /** `generate_pairs_for_round`: make and play this round's pairs,
        record every pair both ways in `played_pairs`, then extend
        `rounds[current_round]` with the new matches. When that index does
        not exist the extension raises IndexError, after the played pairs
        were already recorded. `newMatches` names the matches created;
        `shuffled` is the order `random.shuffle` gave the combinations
        (only round 0 reads it) and `outcome(k)` the result drawn for the
        k-th match. */
    method GeneratePairsForRound(shuffled: seq<Pair>, outcome: nat -> Outcome)
      returns (status: Result<()>, ghost pairs: seq<Pair>, ghost newMatches: seq<Match>)
      modifies this, TargetRound()
      ensures pairs == RoundPairs(old(currentRound), old(playersList), shuffled, old(playedPairs))
      ensures playedPairs == old(playedPairs) + Both(pairs)
      ensures PlayedAsPaired(newMatches, pairs, outcome)
      ensures name == old(name) && place == old(place) && dateStart == old(dateStart) && dateEnd == old(dateEnd)
      ensures rounds == old(rounds) && directorNote == old(directorNote) && currentRound == old(currentRound)
      ensures playersScore == old(playersScore) && playersList == old(playersList)
      ensures status.Ok? <==> PyIndex(currentRound, |rounds|).Some?
      ensures status.Err? ==> status.error == "IndexError: list index out of range"
      ensures status.Ok? ==>
                var target := rounds[PyIndex(currentRound, |rounds|).value];
                target.matches == old(target.matches) + newMatches
                && target.name == old(target.name) && target.playedPairs == old(target.playedPairs)
                && target.startTime == old(target.startTime) && target.endTime == old(target.endTime)
    {
      pairs := RoundPairs(currentRound, playersList, shuffled, playedPairs);
      var roundMatches, newPlayed := PairRound(currentRound, playersList, shuffled, playedPairs, outcome);
      newMatches := roundMatches;
      var index := PyIndex(currentRound, |rounds|);
      if index.None? {
        status := Err("IndexError: list index out of range");
      } else {
        var target := rounds[index.value];
        assert target in TargetRound();
        target.ExtendMatches(roundMatches);
        status := Ok(());
      }
      playedPairs := newPlayed;
    }
  }

  /** Every `__getitem__` key gives back its own field. */
  lemma GetItemFields(t: Tournament)
    ensures t.GetItem("name") == Ok(Text(t.name)) && t.GetItem("place") == Ok(Text(t.place))
    ensures t.GetItem("date_start") == Ok(Text(t.dateStart)) && t.GetItem("date_end") == Ok(Text(t.dateEnd))
    ensures t.GetItem("rounds") == Ok(RoundList(t.rounds))
    ensures t.GetItem("director_note") == Ok(Text(t.directorNote))
    ensures t.GetItem("current_round") == Ok(Number(t.currentRound))
    ensures t.GetItem("players_score") == Ok(Scores(t.playersScore))
    ensures t.GetItem("players_list") == Ok(PlayerList(t.playersList))
    ensures t.GetItem("played_pairs") == Ok(PairSet(t.playedPairs))
  {
  }

  // ---------------------------------------------------------------------
  // The leaderboard

  /** The points dictionaries of a list of matches. */
  function MatchPoints(ms: seq<Match>): (ps: seq<Points>)
    reads ms
    ensures |ps| == |ms| && forall i :: 0 <= i < |ms| ==> ps[i] == ms[i].players
  {
    if ms == [] then [] else [ms[0].players] + MatchPoints(ms[1..])
  }

  /** Every match of every round. */
  function MatchesOf(rs: seq<Round>): set<Match>
    reads rs
  {
    if rs == [] then {} else (set m | m in rs[0].matches) + MatchesOf(rs[1..])
  }

  /** The history the score model reads: each round's matches' points. */
  function HistoryOf(rs: seq<Round>): (h: History)
    reads rs, MatchesOf(rs)
    ensures |h| == |rs| && forall i :: 0 <= i < |rs| ==> h[i] == MatchPoints(rs[i].matches)
  {
    if rs == [] then [] else [MatchPoints(rs[0].matches)] + HistoryOf(rs[1..])
  }

  /** `calculate_leaderboard(tournament, previous_scores)`: `players_score`
      becomes the full names with their totals, highest first; nothing
      else changes. */
  method CalculateLeaderboard(tournament: Tournament, previousScores: Dict<string, real>)
    modifies tournament
    ensures tournament.playersScore
            == PlayersScore(tournament.playersList, HistoryOf(tournament.rounds), previousScores)
    ensures tournament.playersList == old(tournament.playersList) && tournament.rounds == old(tournament.rounds)
    ensures tournament.playedPairs == old(tournament.playedPairs) && tournament.currentRound == old(tournament.currentRound)
    ensures tournament.name == old(tournament.name) && tournament.directorNote == old(tournament.directorNote)
    ensures tournament.place == old(tournament.place)
    ensures tournament.dateStart == old(tournament.dateStart) && tournament.dateEnd == old(tournament.dateEnd)
  {
    var history := HistoryOf(tournament.rounds);
    var sortedLeaderboard := Leaderboard(tournament.playersList, history, previousScores);
    tournament.playersScore := ScoresByName(sortedLeaderboard);
    assert history == HistoryOf(tournament.rounds);
  }

  // ---------------------------------------------------------------------
  // The round cursor of `play_tournament`

  /** How the round loop of `play_tournament` ends: it stops at the
      save-and-break step with a given `current_round` (where the source
      then calls the repository's `add_tournament`), the loop is not
      entered, or a call raises before that step. */
  datatype PlayEnd = Stopped(currentRound: int) | NotEntered | Raised

  /** The cursor rule of `play_tournament` over `roundCount` rounds, with
      `answers` the operator's valid replies in order (true for "y"): a
      round at an index that does not exist raises; the last round stops
      without asking; "n" moves to the next round and stops; "y" moves to
      the next round and plays it. Running out of replies is an
      end of input, which raises. */
  function PlayCursor(current: int, roundCount: nat, answers: seq<bool>): PlayEnd
    decreases answers
  {
    if current > roundCount then NotEntered
    else if PyIndex(current, roundCount).None? then Raised
    else if current == roundCount - 1 then Stopped(current)
    else if answers == [] then Raised
    else if !answers[0] then Stopped(current + 1)
    else PlayCursor(current + 1, roundCount, answers[1..])
  }

  /** The cursor the loop stops at is always below the number of rounds:
      a played tournament stops at its last round at the latest. */
  lemma {:induction false} PlayCursorBelowRoundCount(current: int, roundCount: nat, answers: seq<bool>)
    requires PlayCursor(current, roundCount, answers).Stopped?
    ensures PlayCursor(current, roundCount, answers).currentRound < roundCount
    ensures current <= PlayCursor(current, roundCount, answers).currentRound
    decreases answers
  {
    if current <= roundCount && PyIndex(current, roundCount).Some? && current != roundCount - 1
       && answers != [] && answers[0] {
      PlayCursorBelowRoundCount(current + 1, roundCount, answers[1..]);
    }
  }

  /** Answering "y" every time plays to the end: the loop stops at
      `current_round == len(rounds) - 1`. */
  lemma {:induction false} PlayCursorToTheEnd(current: int, roundCount: nat, answers: seq<bool>)
    requires 0 <= current < roundCount
    requires |answers| >= roundCount - 1 - current
    requires forall i :: 0 <= i < |answers| ==> answers[i]
    ensures PlayCursor(current, roundCount, answers) == Stopped(roundCount - 1)
    decreases roundCount - current
  {
    if current != roundCount - 1 {
      PlayCursorToTheEnd(current + 1, roundCount, answers[1..]);
    }
  }
}
