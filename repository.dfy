/** The record logic of chess/repository/tournament_repository.py over an
    in-memory list of tournament records: the JSON file becomes the field
    `tournaments`, loading it reads the field and dumping it assigns it. */
module TournamentRepository {
  import opened Common
  import opened OrderedDicts
  import opened Rounds
  import opened Tournaments

  /** One stored tournament, as far as the repository looks into it. */
  datatype TournamentRecord = TournamentRecord(
    name: string,
    place: string,
    dateStart: string,
    dateEnd: string,
    directorNote: string,
    currentRound: int,
    rounds: seq<RoundRecord>,
    playersScore: Dict<string, real>)

  // ---------------------------------------------------------------------
  // Upsert by name

  /** The index of the first record with this name, if any. */
  function FindByName(ts: seq<TournamentRecord>, name: string): (r: Option<nat>)
    ensures r.None? <==> forall i :: 0 <= i < |ts| ==> ts[i].name != name
    ensures r.Some? ==> r.value < |ts| && ts[r.value].name == name
                        && forall j :: 0 <= j < r.value ==> ts[j].name != name
  {
    if ts == [] then None
    else if ts[0].name == name then Some(0)
    else match FindByName(ts[1..], name)
      case None => None
      case Some(i) => Some(i + 1)
  }

  /** The list after storing `d`: the first record of the same name is
      replaced where it stands, otherwise `d` goes at the end. */
  function Upsert(ts: seq<TournamentRecord>, d: TournamentRecord): (r: seq<TournamentRecord>)
    ensures FindByName(ts, d.name).None? ==> r == ts + [d]
    ensures FindByName(ts, d.name).Some? ==>
              |r| == |ts| && r[FindByName(ts, d.name).value] == d
              && forall j :: 0 <= j < |ts| && j != FindByName(ts, d.name).value ==> r[j] == ts[j]
  {
    match FindByName(ts, d.name)
    case None => ts + [d]
    case Some(i) => ts[i := d]
  }

  /** After an upsert the record is stored, at the first index of its name. */
  lemma UpsertStores(ts: seq<TournamentRecord>, d: TournamentRecord)
    ensures FindByName(Upsert(ts, d), d.name).Some?
    ensures Upsert(ts, d)[FindByName(Upsert(ts, d), d.name).value] == d
  {
    var r := Upsert(ts, d);
    match FindByName(ts, d.name)
    case None =>
      assert r[|ts|] == d;
      assert forall j :: 0 <= j < |ts| ==> r[j] == ts[j];
    case Some(i) =>
      assert r[i] == d;
      assert forall j :: 0 <= j < i ==> r[j] == ts[j];
  }

  /** Storing the same record twice is storing it once. */
  lemma UpsertIdempotent(ts: seq<TournamentRecord>, d: TournamentRecord)
    ensures Upsert(Upsert(ts, d), d) == Upsert(ts, d)
  {
    var r := Upsert(ts, d);
    UpsertStores(ts, d);
    var i := FindByName(r, d.name).value;
    assert r[i := d] == r;
  }

  // ---------------------------------------------------------------------
  // Unfinished tournaments, listing and status

  /** The rule of `find_unfinished_tournaments`. */
  predicate IsUnfinished(t: TournamentRecord) {
    t.currentRound < |t.rounds| - 1
  }

  /** The records kept by `find_unfinished_tournaments`, in stored order. */
  function Unfinished(ts: seq<TournamentRecord>): (r: seq<TournamentRecord>)
    ensures |r| <= |ts|
  {
    if ts == [] then []
    else if IsUnfinished(ts[0]) then [ts[0]] + Unfinished(ts[1..])
    else Unfinished(ts[1..])
  }

  /** A record is listed iff it is stored and unfinished. */
  lemma {:induction false} UnfinishedMembers(ts: seq<TournamentRecord>, t: TournamentRecord)
    ensures t in Unfinished(ts) <==> t in ts && IsUnfinished(t)
  {
    if ts != [] {
      UnfinishedMembers(ts[1..], t);
      assert ts == [ts[0]] + ts[1..];
    }
  }

  /** The listing keeps the stored order: it distributes over concatenation. */
  lemma {:induction false} UnfinishedAppend(a: seq<TournamentRecord>, b: seq<TournamentRecord>)
    ensures Unfinished(a + b) == Unfinished(a) + Unfinished(b)
  {
    if a == [] {
      assert a + b == b;
    } else {
      assert (a + b)[1..] == a[1..] + b;
      UnfinishedAppend(a[1..], b);
    }
  }

  /** Python's `<=` on strings: code point by code point, a proper prefix
      first. */
  predicate LexLe(a: string, b: string) {
    a == [] || (b != [] && (a[0] < b[0] || (a[0] == b[0] && LexLe(a[1..], b[1..]))))
  }

  lemma {:induction false} LexLeTotal(a: string, b: string)
    ensures LexLe(a, b) || LexLe(b, a)
  {
    if a != [] && b != [] && a[0] == b[0] {
      LexLeTotal(a[1..], b[1..]);
    }
  }

  lemma {:induction false} LexLeTransitive(a: string, b: string, c: string)
    requires LexLe(a, b) && LexLe(b, c)
    ensures LexLe(a, c)
  {
    if a != [] && b != [] && c != [] && a[0] == b[0] && b[0] == c[0] {
      LexLeTransitive(a[1..], b[1..], c[1..]);
    }
  }

  predicate SortedNames(s: seq<string>) {
    forall i, j :: 0 <= i < j < |s| ==> LexLe(s[i], s[j])
  }

  /** One step of the sort: `x` goes before the first name it does not
      exceed. */
  function InsertName(x: string, s: seq<string>): (r: seq<string>)
    ensures multiset(r) == multiset(s) + multiset{x}
  {
    if s == [] then [x]
    else if LexLe(x, s[0]) then [x] + s
    else
      assert s == [s[0]] + s[1..];
      [s[0]] + InsertName(x, s[1..])
  }

  lemma {:induction false} InsertNameSorted(x: string, s: seq<string>)
    requires SortedNames(s)
    ensures SortedNames(InsertName(x, s))
  {
    if s != [] {
      if LexLe(x, s[0]) {
        var r := [x] + s;
        forall i, j | 0 <= i < j < |r| ensures LexLe(r[i], r[j]) {
          if i == 0 && j > 1 {
            LexLeTransitive(x, s[0], s[j - 1]);
          }
        }
      } else {
        LexLeTotal(x, s[0]);
        InsertNameSorted(x, s[1..]);
        var rest := InsertName(x, s[1..]);
        var r := [s[0]] + rest;
        assert multiset(rest) == multiset(s[1..]) + multiset{x};
        forall j | 0 <= j < |rest| ensures LexLe(s[0], rest[j]) {
          assert rest[j] in multiset(rest);
          if rest[j] != x {
            assert rest[j] in multiset(s[1..]);
            var k :| 0 <= k < |s[1..]| && s[1..][k] == rest[j];
            assert s[k + 1] == rest[j];
          }
        }
        forall i, j | 0 <= i < j < |r| ensures LexLe(r[i], r[j]) {
          if i > 0 {
            assert r[i] == rest[i - 1] && r[j] == rest[j - 1];
          }
        }
      }
    }
  }

  /** `sorted` on names. */
  function SortNames(s: seq<string>): (r: seq<string>)
    ensures multiset(r) == multiset(s)
  {
    if s == [] then []
    else
      assert s == s[..|s| - 1] + [s[|s| - 1]];
      InsertName(s[|s| - 1], SortNames(s[..|s| - 1]))
  }

  lemma {:induction false} SortNamesSorted(s: seq<string>)
    ensures SortedNames(SortNames(s))
  {
    if s != [] {
      SortNamesSorted(s[..|s| - 1]);
      InsertNameSorted(s[|s| - 1], SortNames(s[..|s| - 1]));
    }
  }

  function Names(ts: seq<TournamentRecord>): (names: seq<string>)
    ensures |names| == |ts| && forall i :: 0 <= i < |ts| ==> names[i] == ts[i].name
  {
    if ts == [] then [] else [ts[0].name] + Names(ts[1..])
  }

  /** `get_tournaments_by_alphabetical_order`: the stored names, each as
      often as stored, in ascending order. */
  function TournamentsByAlphabeticalOrder(ts: seq<TournamentRecord>): (r: seq<string>)
    ensures multiset(r) == multiset(Names(ts))
    ensures SortedNames(r)
  {
    SortNamesSorted(Names(ts));
    SortNames(Names(ts))
  }

  const Finished: string := " Tournoi terminé"

  /** The `tournament_status` of `get_tournament_details`. */
  function TournamentStatus(t: TournamentRecord): (status: string)
    ensures status == Finished <==> t.currentRound == |t.rounds|
    ensures status != Finished ==>
              status == "Round actuel : " + IntToString(t.currentRound) + " sur " + NatToString(|t.rounds|)
  {
    if t.currentRound == |t.rounds| then Finished
    else
      var s := "Round actuel : " + IntToString(t.currentRound) + " sur " + NatToString(|t.rounds|);
      assert s[0] == 'R' && Finished[0] == ' ';
      s
  }

  /** A record at its last round is in neither group: not offered for
      resuming, and not reported finished. */
  lemma LastRoundInLimbo(t: TournamentRecord)
    requires t.currentRound == |t.rounds| - 1
    ensures !IsUnfinished(t)
    ensures TournamentStatus(t) != Finished
  {
  }

  /** A tournament played with "y" to every question stops at its last
      round, so a record with that cursor is neither unfinished nor
      finished. */
  lemma PlayedToTheEndInLimbo(t: TournamentRecord, answers: seq<bool>)
    requires 0 <= t.currentRound < |t.rounds|
    requires |answers| >= |t.rounds| - 1 - t.currentRound
    requires forall i :: 0 <= i < |answers| ==> answers[i]
    ensures PlayCursor(t.currentRound, |t.rounds|, answers).Stopped?
    ensures var stopped := t.(currentRound := PlayCursor(t.currentRound, |t.rounds|, answers).currentRound);
            !IsUnfinished(stopped) && TournamentStatus(stopped) != Finished
  {
    PlayCursorToTheEnd(t.currentRound, |t.rounds|, answers);
    LastRoundInLimbo(t.(currentRound := |t.rounds| - 1));
  }

  /** Whatever the answers, a record carrying the cursor at which the loop
      of `play_tournament` stops is never reported finished. */
  lemma StoppedNeverFinished(t: TournamentRecord, answers: seq<bool>)
    requires PlayCursor(t.currentRound, |t.rounds|, answers).Stopped?
    ensures TournamentStatus(t.(currentRound := PlayCursor(t.currentRound, |t.rounds|, answers).currentRound))
            != Finished
  {
    PlayCursorBelowRoundCount(t.currentRound, |t.rounds|, answers);
  }

  /** What `get_tournament_details` returns for a chosen tournament. */
  datatype Details = Details(
    name: string,
    place: string,
    dateStart: string,
    dateEnd: string,
    directorNote: string,
    playersScore: Dict<string, real>,
    rounds: seq<RoundRecord>,
    tournamentStatus: string)

  function DetailsOf(t: TournamentRecord): Details {
    Details(t.name, t.place, t.dateStart, t.dateEnd, t.directorNote, t.playersScore, t.rounds, TournamentStatus(t))
  }

  class TournamentStore {
    var tournaments: seq<TournamentRecord>

    constructor ()
      ensures tournaments == []
    {
      tournaments := [];
    }

    /** The upsert of `add_tournament`: scan for the first record of the
        same name and replace it, or append when the scan finds none. */
    method AddTournament(tournamentData: TournamentRecord)
      modifies this
      ensures tournaments == Upsert(old(tournaments), tournamentData)
    {
      var i := 0;
      while i < |tournaments|
        invariant 0 <= i <= |tournaments| && tournaments == old(tournaments)
        invariant forall j :: 0 <= j < i ==> tournaments[j].name != tournamentData.name
      {
        if tournaments[i].name == tournamentData.name {
          tournaments := tournaments[i := tournamentData];
          return;
        }
        i := i + 1;
      }
      tournaments := tournaments + [tournamentData];
    }

    /** `find_unfinished_tournaments`: one pass appending every record
        whose current round is below the last one. */
    method FindUnfinishedTournaments() returns (unfinishedTournaments: seq<TournamentRecord>)
      ensures unfinishedTournaments == Unfinished(tournaments)
    {
      unfinishedTournaments := [];
      for i := 0 to |tournaments|
        invariant unfinishedTournaments == Unfinished(tournaments[..i])
      {
        var tournament := tournaments[i];
        assert tournaments[..i + 1] == tournaments[..i] + [tournament];
        UnfinishedAppend(tournaments[..i], [tournament]);
        if tournament.currentRound < |tournament.rounds| - 1 {
          unfinishedTournaments := unfinishedTournaments + [tournament];
        }
      }
      assert tournaments[..|tournaments|] == tournaments;
    }

    /** `get_tournament_details` after the prompt: the first record whose
        normalised name equals the normalised choice. `normalize` stands
        for `unidecode` after `capitalize`. */
    method GetTournamentDetails(choice: string, normalize: string -> string) returns (details: Option<Details>)
      ensures details.None? <==> forall i :: 0 <= i < |tournaments| ==> normalize(tournaments[i].name) != normalize(choice)
      ensures details.Some? ==>
                exists i :: 0 <= i < |tournaments| && normalize(tournaments[i].name) == normalize(choice)
                            && details.value == DetailsOf(tournaments[i])
                            && forall j :: 0 <= j < i ==> normalize(tournaments[j].name) != normalize(choice)
    {
      var userChoice := normalize(choice);
      for i := 0 to |tournaments|
        invariant forall j :: 0 <= j < i ==> normalize(tournaments[j].name) != userChoice
      {
        if normalize(tournaments[i].name) == userChoice {
          var tournamentData := tournaments[i];
          var status: string;
          if tournamentData.currentRound == |tournamentData.rounds| {
            status := Finished;
          } else {
            status := "Round actuel : " + IntToString(tournamentData.currentRound) + " sur "
                      + NatToString(|tournamentData.rounds|);
          }
          details := Some(Details(tournamentData.name, tournamentData.place, tournamentData.dateStart,
                                  tournamentData.dateEnd, tournamentData.directorNote,
                                  tournamentData.playersScore, tournamentData.rounds, status));
          return;
        }
      }
      details := None;
    }
  }
}
