/** The player record of chess/model/player.py. A Python `Player` is an
    object compared by identity; `id` stands for that identity, so two
    players built from the same fields are still different players. */
module Players {

  type PlayerId = nat

  datatype Player = Player(
    id: PlayerId,
    firstname: string,
    lastname: string,
    birth: string,
    nationalChessId: string,
    score: real)

  /** The JSON shape `to_json` produces and `from_json` reads back. */
  datatype PlayerRecord = PlayerRecord(
    firstname: string,
    lastname: string,
    birth: string,
    nationalChessId: string)

  predicate IsUpper(c: char) { 'A' <= c <= 'Z' }
  predicate IsLower(c: char) { 'a' <= c <= 'z' }
  predicate IsCased(c: char) { IsUpper(c) || IsLower(c) }

  function ToUpper(c: char): (u: char)
    ensures IsCased(u) == IsCased(c) && (IsCased(c) ==> IsUpper(u))
  {
    if IsLower(c) then (c as int - 32) as char else c
  }

  function ToLower(c: char): (l: char)
    ensures IsCased(l) == IsCased(c) && (IsCased(c) ==> IsLower(l))
  {
    if IsUpper(c) then (c as int + 32) as char else c
  }

  /** The character `str.title` puts at position `i`: a cased character
      opens a word when it is first or follows an uncased one, and is then
      upper-cased; inside a word it is lower-cased; anything else is kept. */
  function TitleCharAt(s: string, i: nat): char
    requires i < |s|
  {
    if !IsCased(s[i]) then s[i]
    else if i == 0 || !IsCased(s[i - 1]) then ToUpper(s[i])
    else ToLower(s[i])
  }

  /** `str.title` as a left-to-right scan that remembers whether the
      previous character was cased. */
  function TitleFrom(s: string, previousCased: bool): (t: string)
    ensures |t| == |s|
  {
    if s == [] then []
    else
      var c := if !IsCased(s[0]) then s[0]
               else if previousCased then ToLower(s[0])
               else ToUpper(s[0]);
      [c] + TitleFrom(s[1..], IsCased(s[0]))
  }

  function Title(s: string): string {
    TitleFrom(s, false)
  }

  lemma {:induction false} TitleFromAt(s: string, previousCased: bool, i: nat)
    requires i < |s|
    ensures TitleFrom(s, previousCased)[i]
            == if !IsCased(s[i]) then s[i]
               else if (if i == 0 then previousCased else IsCased(s[i - 1])) then ToLower(s[i])
               else ToUpper(s[i])
  {
    if i > 0 {
      TitleFromAt(s[1..], IsCased(s[0]), i - 1);
    }
  }

  /** The scan agrees, position by position, with the word rule. */
  lemma TitleAt(s: string)
    ensures |Title(s)| == |s|
    ensures forall i :: 0 <= i < |s| ==> Title(s)[i] == TitleCharAt(s, i)
  {
    forall i | 0 <= i < |s|
      ensures Title(s)[i] == TitleCharAt(s, i)
    {
      TitleFromAt(s, false, i);
    }
  }

  /** `title` is idempotent: a title-cased name is left as it is. */
  lemma TitleIdempotent(s: string)
    ensures Title(Title(s)) == Title(s)
  {
    var t := Title(s);
    TitleAt(s);
    TitleAt(t);
    assert forall i :: 0 <= i < |s| ==> IsCased(t[i]) == IsCased(s[i]);
    forall i | 0 <= i < |s|
      ensures Title(t)[i] == t[i]
    {
      assert Title(t)[i] == TitleCharAt(t, i);
    }
  }

  /** `Player.__init__` of chess/model/player.py: names title-cased, the
      other fields kept, and the score starting at 0. */
  function NewPlayer(id: PlayerId, firstname: string, lastname: string, birth: string,
                     nationalChessId: string): (p: Player)
    ensures p.id == id && p.birth == birth && p.nationalChessId == nationalChessId
    ensures p.score == 0.0
    ensures Title(p.firstname) == p.firstname && Title(p.lastname) == p.lastname
    ensures |p.firstname| == |firstname| && |p.lastname| == |lastname|
  {
    TitleIdempotent(firstname);
    TitleIdempotent(lastname);
    Player(id, Title(firstname), Title(lastname), birth, nationalChessId, 0.0)
  }

  /** `fullname()`: the first name, one space, the last name. */
  function Fullname(p: Player): (s: string)
    ensures |s| == |p.firstname| + 1 + |p.lastname|
    ensures s[..|p.firstname|] == p.firstname && s[|p.firstname|] == ' '
    ensures s[|p.firstname| + 1..] == p.lastname
  {
    p.firstname + " " + p.lastname
  }

  function ToJson(p: Player): (r: PlayerRecord)
    ensures r.firstname == p.firstname && r.lastname == p.lastname
    ensures r.birth == p.birth && r.nationalChessId == p.nationalChessId
  {
    PlayerRecord(p.firstname, p.lastname, p.birth, p.nationalChessId)
  }

  /** `from_json` builds a new object through the constructor; `id` is the
      identity the new object receives. */
  function FromJson(r: PlayerRecord, id: PlayerId): Player {
    NewPlayer(id, r.firstname, r.lastname, r.birth, r.nationalChessId)
  }

  /** Reading back what `to_json` wrote keeps the birth date and the ID,
      title-cases the names and resets the score; the result is a different
      player unless it is given the original identity. */
  lemma FromJsonToJson(p: Player, id: PlayerId)
    ensures var q := FromJson(ToJson(p), id);
            q.birth == p.birth && q.nationalChessId == p.nationalChessId
            && q.firstname == Title(p.firstname) && q.lastname == Title(p.lastname)
            && q.score == 0.0
            && (id != p.id ==> q != p)
  {
  }

  /** For a player the constructor built, writing it out and reading it back
      gives the same player up to its identity. */
  lemma {:induction false} RoundTripOfConstructedPlayer(id: PlayerId, firstname: string, lastname: string,
                                                       birth: string, nationalChessId: string, newId: PlayerId)
    ensures var p := NewPlayer(id, firstname, lastname, birth, nationalChessId);
            FromJson(ToJson(p), newId) == p.(id := newId)
  {
    TitleIdempotent(firstname);
    TitleIdempotent(lastname);
  }
}
