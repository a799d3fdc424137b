/** The score-table tournament of the draft model/tournament.py: a roster,
    a table from "first last" to an integer score, and the director's
    notes. */
module ScoreTables {
  import opened Common
  import opened OrderedDicts
  import opened DraftMatches

  /** `update_scores` as a value, from position `i` of the zip on: add
      `scores[i]` to the entry of `players[i]`, position by position, for as
      many positions as both lists have; the first player without an entry
      raises KeyError (the key is returned), with the earlier additions
      already made. */
  function ApplyScoresFrom<K(==,!new)>(table: Dict<K, int>, players: seq<K>, scores: seq<int>, i: nat)
    : (Dict<K, int>, Option<K>)
    decreases |players| - i
  {
    if i >= |players| || i >= |scores| then (table, None)
    else match Get(table, players[i])
      case None => (table, Some(players[i]))
      case Some(v) => ApplyScoresFrom(Put(table, players[i], v + scores[i]), players, scores, i + 1)
  }

  /** The whole zip of `update_scores`. */
  function ApplyScores<K(==,!new)>(table: Dict<K, int>, players: seq<K>, scores: seq<int>)
    : (Dict<K, int>, Option<K>)
  {
    ApplyScoresFrom(table, players, scores, 0)
  }

  /** The first player of the zip, from position `i` on, who has no key
      among `keys`. */
  function FirstMissing<K(==)>(keys: seq<K>, players: seq<K>, scores: seq<int>, i: nat): (r: Option<K>)
    ensures r.None? <==> forall j :: i <= j < |players| && j < |scores| ==> players[j] in keys
    ensures r.Some? ==> r.value !in keys && r.value in players[i..]
    decreases |players| - i
  {
    if i >= |players| || i >= |scores| then None
    else if players[i] !in keys then Some(players[i])
    else FirstMissing(keys, players, scores, i + 1)
  }

  /** The table keeps its keys, in order, whatever happens. */
  lemma {:induction false} ApplyScoresKeys<K(!new)>(table: Dict<K, int>, players: seq<K>, scores: seq<int>, i: nat)
    ensures Keys(ApplyScoresFrom(table, players, scores, i).0) == Keys(table)
    decreases |players| - i
  {
    if i < |players| && i < |scores| && Get(table, players[i]).Some? {
      ApplyScoresKeys(Put(table, players[i], Get(table, players[i]).value + scores[i]), players, scores, i + 1);
    }
  }

  /** The update fails exactly on the first paired player without an
      entry, and reports that player. */
  lemma {:induction false} ApplyScoresMissing<K(!new)>(table: Dict<K, int>, players: seq<K>, scores: seq<int>, i: nat)
    ensures ApplyScoresFrom(table, players, scores, i).1 == FirstMissing(Keys(table), players, scores, i)
    decreases |players| - i
  {
    if i < |players| && i < |scores| && Get(table, players[i]).Some? {
      ApplyScoresMissing(Put(table, players[i], Get(table, players[i]).value + scores[i]), players, scores, i + 1);
    }
  }

  /** One step of the zip: a player with an entry has the score added, and
      the rest of the zip continues from the new table. */
  lemma ApplyScoresStep<K(!new)>(table: Dict<K, int>, start: Dict<K, int>, players: seq<K>, scores: seq<int>, i: nat)
    requires i < |players| && i < |scores| && Get(table, players[i]).Some?
    requires ApplyScoresFrom(table, players, scores, i) == ApplyScores(start, players, scores)
    ensures ApplyScoresFrom(Put(table, players[i], Get(table, players[i]).value + scores[i]), players, scores, i + 1)
            == ApplyScores(start, players, scores)
  {
  }

  /** The zip over a two-player match, step by step. */
  lemma ApplyScoresTwo<K(!new)>(table: Dict<K, int>, players: seq<K>, scores: seq<int>)
    requires |players| == 2 && |scores| == 2
    requires players[0] in Keys(table) && players[1] in Keys(table)
    ensures var first := Put(table, players[0], Get(table, players[0]).value + scores[0]);
            ApplyScores(table, players, scores)
            == (Put(first, players[1], Get(first, players[1]).value + scores[1]), None)
  {
    var first := Put(table, players[0], Get(table, players[0]).value + scores[0]);
    var second := Put(first, players[1], Get(first, players[1]).value + scores[1]);
    assert ApplyScoresFrom(second, players, scores, 2) == (second, None);
    assert ApplyScoresFrom(first, players, scores, 1) == (second, None);
  }

  /** Adding a two-player match to a table where both players have an
      entry succeeds, keeps the keys, adds each player's score to their
      entry (both scores when the two names coincide), and leaves every
      other entry as it was. */
  lemma UpdateTwoPlayers<K(!new)>(table: Dict<K, int>, players: seq<K>, scores: seq<int>)
    requires |players| == 2 && |scores| == 2
    requires players[0] in Keys(table) && players[1] in Keys(table)
    ensures ApplyScores(table, players, scores).1.None?
    ensures Keys(ApplyScores(table, players, scores).0) == Keys(table)
    ensures players[0] != players[1] ==>
              Get(ApplyScores(table, players, scores).0, players[0]) == Some(Get(table, players[0]).value + scores[0])
              && Get(ApplyScores(table, players, scores).0, players[1]) == Some(Get(table, players[1]).value + scores[1])
    ensures players[0] == players[1] ==>
              Get(ApplyScores(table, players, scores).0, players[0]) == Some(Get(table, players[0]).value + scores[0] + scores[1])
    ensures forall k :: k != players[0] && k != players[1] ==>
              Get(ApplyScores(table, players, scores).0, k) == Get(table, k)
  {
    ApplyScoresTwo(table, players, scores);
  }

  /** The text of `get_all_scores` after its header: one "name: score"
      line per entry, in table order. */
  function ScoreLines(table: Dict<string, int>): string {
    if table == [] then ""
    else table[0].0 + ": " + IntToString(table[0].1) + "\n" + ScoreLines(table[1..])
  }

  const ScoresHeader: string := "Tabelau des scores :\n"

  /** A table extended by new entries prints as the old text followed by
      the new entries' lines. */
  lemma {:induction false} ScoreLinesAppend(a: Dict<string, int>, b: Dict<string, int>)
    ensures ScoreLines(a + b) == ScoreLines(a) + ScoreLines(b)
  {
    if a == [] {
      assert a + b == b;
    } else {
      assert (a + b)[0] == a[0] && (a + b)[1..] == a[1..] + b;
      ScoreLinesAppend(a[1..], b);
    }
  }

  /** The text of the first `i + 1` entries, after any `prefix`: that of
      the first `i`, then the line of entry `i`. */
  lemma ScoreLinesSnoc(prefix: string, table: Dict<string, int>, i: nat)
    requires i < |table|
    ensures prefix + ScoreLines(table[..i + 1])
            == (prefix + ScoreLines(table[..i])) + (table[i].0 + ": " + IntToString(table[i].1) + "\n")
  {
    assert table[..i + 1] == table[..i] + [table[i]];
    ScoreLinesAppend(table[..i], [table[i]]);
    assert [table[i]][1..] == [];
  }

  /** The zip loop of `update_scores` on the table itself: each score is
      added in turn, and the loop stops at the first player without an
      entry, returning that key. */
  method AddScores<K(==,!new)>(table: Dict<K, int>, players: seq<K>, scores: seq<int>)
    returns (newTable: Dict<K, int>, missing: Option<K>)
    ensures (newTable, missing) == ApplyScores(table, players, scores)
  {
    newTable := table;
    var i := 0;
    while i < |players| && i < |scores|
      invariant 0 <= i <= |players| && i <= |scores|
      invariant ApplyScoresFrom(newTable, players, scores, i) == ApplyScores(table, players, scores)
    {
      if Get(newTable, players[i]).None? {
        return newTable, Some(players[i]);
      }
      ApplyScoresStep(newTable, table, players, scores, i);
      newTable := Put(newTable, players[i], Get(newTable, players[i]).value + scores[i]);
      i := i + 1;
    }
    missing := None;
  }

  class Tournament {
    var name: string
    var place: string
    var start: string
    var end: string
    var rounds: int
    var currentRound: int
    var playersList: seq<DraftPlayer>
    var playerScore: Dict<string, int>
    var directorNotes: string

    /** The score table is a dictionary: one entry per name. */
    ghost predicate Valid()
      reads this
    {
      WellFormed(playerScore)
    }

    /** `Tournament(name, place, date_start, date_end, rounds=4,
        current_round=1)`: no players, an empty table, empty notes. */
    constructor (name: string, place: string, dateStart: string, dateEnd: string,
                 rounds: int := 4, currentRound: int := 1)
      ensures Valid()
      ensures this.name == name && this.place == place && start == dateStart && end == dateEnd
      ensures this.rounds == rounds && this.currentRound == currentRound
      ensures playersList == [] && playerScore == [] && directorNotes == ""
    {
      this.name := name;
      this.place := place;
      start := dateStart;
      end := dateEnd;
      this.rounds := rounds;
      this.currentRound := currentRound;
      playersList := [];
      playerScore := [];
      directorNotes := "";
    }

    /** `add_player`: the player joins the roster and their name's score
        is set to 0, overwriting any entry of that name; the other entries
        keep their values. */
    method AddPlayer(player: DraftPlayer)
      requires Valid()
      modifies this
      ensures Valid()
      ensures playersList == old(playersList) + [player]
      ensures Get(playerScore, DisplayName(player)) == Some(0)
      ensures forall k :: k != DisplayName(player) ==> Get(playerScore, k) == Get(old(playerScore), k)
      ensures DisplayName(player) in Keys(old(playerScore)) ==> Keys(playerScore) == Keys(old(playerScore))
      ensures DisplayName(player) !in Keys(old(playerScore)) ==> Keys(playerScore) == Keys(old(playerScore)) + [DisplayName(player)]
      ensures name == old(name) && place == old(place) && start == old(start) && end == old(end)
      ensures rounds == old(rounds) && currentRound == old(currentRound) && directorNotes == old(directorNotes)
    {
      playersList := playersList + [player];
      var key := player.firstname + " " + player.lastname;
      if key !in Keys(playerScore) {
        assert Keys(playerScore + [(key, 0)]) == Keys(playerScore) + [key];
      }
      PutWellFormed(playerScore, key, 0);
      playerScore := Put(playerScore, key, 0);
    }

    /** `get_players`: "first last" for every registered player, in order. */
    method GetPlayers() returns (names: seq<string>)
      ensures |names| == |playersList|
      ensures forall i :: 0 <= i < |playersList| ==> names[i] == DisplayName(playersList[i])
    {
      names := [];
      for i := 0 to |playersList|
        invariant |names| == i
        invariant forall j :: 0 <= j < i ==> names[j] == DisplayName(playersList[j])
      {
        var player := playersList[i];
        names := names + [player.firstname + " " + player.lastname];
      }
    }

    /** `add_director_notes`: the note and a line break go at the end. */
    method AddDirectorNotes(note: string)
      modifies this
      ensures directorNotes == old(directorNotes) + note + "\n"
      ensures old(directorNotes) <= directorNotes
      ensures playerScore == old(playerScore) && playersList == old(playersList)
      ensures name == old(name) && place == old(place) && start == old(start) && end == old(end)
      ensures rounds == old(rounds) && currentRound == old(currentRound)
    {
      directorNotes := directorNotes + note + "\n";
    }

    /** `update_scores(match)`: the zip loop over the match's players and
        scores, adding each score into the table; a player without an entry
        raises KeyError and leaves the earlier additions in place. */
    method UpdateScores(m: DraftMatch) returns (status: Result<()>)
      requires Valid()
      modifies this
      ensures Valid()
      ensures playerScore == ApplyScores(old(playerScore), m.players, m.scores).0
      ensures status.Ok? <==> ApplyScores(old(playerScore), m.players, m.scores).1.None?
      ensures status.Err? ==> status.error == "KeyError: '" + ApplyScores(old(playerScore), m.players, m.scores).1.value + "'"
      ensures playersList == old(playersList) && directorNotes == old(directorNotes)
      ensures name == old(name) && place == old(place) && start == old(start) && end == old(end)
      ensures rounds == old(rounds) && currentRound == old(currentRound)
    {
      var newTable, missing := AddScores(playerScore, m.players, m.scores);
      ApplyScoresKeys(playerScore, m.players, m.scores, 0);
      playerScore := newTable;
      if missing.Some? {
        return Err("KeyError: '" + missing.value + "'");
      }
      status := Ok(());
    }

    /** `get_player_score(name)`: the stored score, 0 for an unknown name. */
    function GetPlayerScore(player: string): (score: int)
      reads this
      ensures player !in Keys(playerScore) ==> score == 0
      ensures Valid() ==> forall i :: 0 <= i < |playerScore| && playerScore[i].0 == player ==> score == playerScore[i].1
    {
      GetItems(playerScore);
      Get(playerScore, player).GetOr(0)
    }

    /** `get_all_scores`: the header, then one "name: score" line per
        entry in table order. */
    method GetAllScores() returns (scoresString: string)
      ensures scoresString == ScoresHeader + ScoreLines(playerScore)
    {
      var table := playerScore;
      scoresString := ScoresHeader;
      for i := 0 to |table|
        invariant scoresString == ScoresHeader + ScoreLines(table[..i])
      {
        var (playerName, score) := table[i];
        var line := playerName + ": " + IntToString(score) + "\n";
        ScoreLinesSnoc(ScoresHeader, table, i);
        scoresString := scoresString + line;
      }
      assert table[..|table|] == table;
    }
  }
}
