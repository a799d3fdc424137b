/** The registration-list tournament of the draft tournament.py: the
    tournament's details, the rounds added so far, the registered players
    and the director's notes. */
module Registrations {
  import opened DraftMatches

  /** What `add_player` is handed: a `Player` instance, or any other value. */
  datatype Candidate = PlayerValue(player: DraftPlayer) | OtherValue

  /** The players a run of `add_player` calls registers, in call order:
      the `Player` instances, every other value dropped. */
  function Registered(candidates: seq<Candidate>): (players: seq<DraftPlayer>)
    ensures |players| <= |candidates|
  {
    if candidates == [] then []
    else
      var last := candidates[|candidates| - 1];
      Registered(candidates[..|candidates| - 1]) + (if last.PlayerValue? then [last.player] else [])
  }

  /** Two runs of calls, one after the other, register the players of the
      first run followed by those of the second. */
  lemma {:induction false} RegisteredAppend(a: seq<Candidate>, b: seq<Candidate>)
    ensures Registered(a + b) == Registered(a) + Registered(b)
    decreases |b|
  {
    if b != [] {
      var n := |b| - 1;
      var tail := if b[n].PlayerValue? then [b[n].player] else [];
      assert (a + b)[..|a + b| - 1] == a + b[..n] && (a + b)[|a + b| - 1] == b[n];
      assert Registered(a + b) == Registered(a + b[..n]) + tail;
      RegisteredAppend(a, b[..n]);
      assert Registered(b) == Registered(b[..n]) + tail;
      assert Registered(a) + (Registered(b[..n]) + tail) == (Registered(a) + Registered(b[..n])) + tail;
    } else {
      assert a + b == a;
    }
  }

  /** Every registered player was handed to `add_player` as a `Player`. */
  lemma {:induction false} RegisteredFromCandidates(candidates: seq<Candidate>)
    ensures forall p :: p in Registered(candidates) ==> PlayerValue(p) in candidates
    decreases |candidates|
  {
    if candidates != [] {
      var init := candidates[..|candidates| - 1];
      RegisteredFromCandidates(init);
      forall p | p in Registered(candidates) ensures PlayerValue(p) in candidates {
        if p in Registered(init) {
          assert PlayerValue(p) in init;
        } else {
          assert candidates[|candidates| - 1] == PlayerValue(p);
        }
      }
    }
  }

  /** The tournament of tournament.py; `Round` is whatever `add_round` is
      given, as the draft never looks into it. */
  class Tournament<Round> {
    var name: string
    var place: string
    var start: string
    var end: string
    var rounds: int
    var currentRound: int
    var roundsList: seq<Round>
    var registeredPlayersList: seq<DraftPlayer>
    var directorNotes: string

    /** `Tournament(name, place, start, end, rounds=4, current_round=1)`:
        no rounds, no players and empty notes. */
    constructor (name: string, place: string, start: string, end: string,
                 rounds: int := 4, currentRound: int := 1)
      ensures this.name == name && this.place == place && this.start == start && this.end == end
      ensures this.rounds == rounds && this.currentRound == currentRound
      ensures roundsList == [] && registeredPlayersList == [] && directorNotes == ""
    {
      this.name := name;
      this.place := place;
      this.start := start;
      this.end := end;
      this.rounds := rounds;
      this.currentRound := currentRound;
      roundsList := [];
      registeredPlayersList := [];
      directorNotes := "";
    }

    /** `add_player`: a `Player` goes at the end of the list; any other
        value changes nothing (the error message is printed). */
    method AddPlayer(candidate: Candidate)
      modifies this
      ensures registeredPlayersList == old(registeredPlayersList) + Registered([candidate])
      ensures candidate.OtherValue? ==> registeredPlayersList == old(registeredPlayersList)
      ensures roundsList == old(roundsList) && directorNotes == old(directorNotes)
      ensures name == old(name) && place == old(place) && start == old(start) && end == old(end)
      ensures rounds == old(rounds) && currentRound == old(currentRound)
    {
      assert [candidate][..0] == [];
      if candidate.PlayerValue? {
        registeredPlayersList := registeredPlayersList + [candidate.player];
      }
    }

    /** `add_director_notes`: the note and a line break go at the end. */
    method AddDirectorNotes(note: string)
      modifies this
      ensures directorNotes == old(directorNotes) + note + "\n"
      ensures old(directorNotes) <= directorNotes
      ensures roundsList == old(roundsList) && registeredPlayersList == old(registeredPlayersList)
      ensures name == old(name) && place == old(place) && start == old(start) && end == old(end)
      ensures rounds == old(rounds) && currentRound == old(currentRound)
    {
      directorNotes := directorNotes + note + "\n";
    }

    /** `add_round`: the round goes at the end of the list, nothing else
        changes. */
    method AddRound(round: Round)
      modifies this
      ensures roundsList == old(roundsList) + [round]
      ensures registeredPlayersList == old(registeredPlayersList) && directorNotes == old(directorNotes)
      ensures name == old(name) && place == old(place) && start == old(start) && end == old(end)
      ensures rounds == old(rounds) && currentRound == old(currentRound)
    {
      roundsList := roundsList + [round];
    }
  }
}
