/** The round of chess/model/round.py: a name, the matches played in it,
    an unused set of played pairs and optional start and end times. */
module Rounds {
  import opened Common
  import opened Matches
  import opened Pairing

  /** What `from_json` reads: the name, the two times (absent keys give
      None); the matches arrive already decoded. */
  datatype RoundRecord = RoundRecord(name: string, startTime: Option<string>, endTime: Option<string>)

  class Round {
    var name: string
    var matches: seq<Match>
    var playedPairs: set<Pair>
    var startTime: Option<string>
    var endTime: Option<string>

    /** `Round(name, matches, start_time, end_time)` keeps only the name:
        the match list starts empty, the times at None, whatever is passed. */
    constructor (name: string, matches: seq<Match>, startTime: Option<string>, endTime: Option<string>)
      ensures this.name == name && this.matches == [] && playedPairs == {}
      ensures this.startTime == None && this.endTime == None
    {
      this.name := name;
      this.matches := [];
      playedPairs := {};
      this.startTime := None;
      this.endTime := None;
    }

    /** `add_match`: append at the end, nothing else changes. */
    method AddMatch(m: Match)
      modifies this
      ensures matches == old(matches) + [m]
      ensures name == old(name) && playedPairs == old(playedPairs)
      ensures startTime == old(startTime) && endTime == old(endTime)
    {
      matches := matches + [m];
    }

    /** `matches.extend(ms)`: append the matches in order, nothing else
        changes. */
    method ExtendMatches(ms: seq<Match>)
      modifies this
      ensures matches == old(matches) + ms
      ensures name == old(name) && playedPairs == old(playedPairs)
      ensures startTime == old(startTime) && endTime == old(endTime)
    {
      matches := matches + ms;
    }

    /** `get_matches`: the current match list itself. */
    method GetMatches() returns (ms: seq<Match>)
      ensures ms == matches
    {
      ms := matches;
    }

    /** `from_json` with the decoded matches: the constructor discards the
        matches and times it is given, and the body puts them back. */
    static method FromJson(record: RoundRecord, decoded: seq<Match>) returns (r: Round)
      ensures fresh(r)
      ensures r.name == record.name && r.matches == decoded && r.playedPairs == {}
      ensures r.startTime == record.startTime && r.endTime == record.endTime
    {
      r := new Round(record.name, decoded, record.startTime, record.endTime);
      r.matches := r.matches + decoded;
      r.startTime := record.startTime;
      r.endTime := record.endTime;
    }
  }
}
