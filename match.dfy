/** The match of chess/model/match.py: a dictionary from the two players to
    their points, and the result of the one play. The random choice of the
    result is a parameter of `PlayMatch`. */
module Matches {
  import opened Common
  import opened OrderedDicts
  import opened Players

  datatype Outcome = Win | Loss | Draw

  /** `match.players`: each player's points in this match, in key order. */
  type Points = Dict<Player, real>

  /** `{player1: 0, player2: 0}`: one key when both are the same player. */
  function NewPoints(player1: Player, player2: Player): (d: Points)
    ensures WellFormed(d)
    ensures Keys(d) == if player1 == player2 then [player1] else [player1, player2]
    ensures forall i :: 0 <= i < |d| ==> d[i].1 == 0.0
  {
    if player1 == player2 then [(player1, 0.0)] else [(player1, 0.0), (player2, 0.0)]
  }

  /** The literal is what assigning 0 to `player1`, then to `player2`, in an
      empty dictionary gives. */
  lemma NewPointsByAssignment(player1: Player, player2: Player)
    ensures NewPoints(player1, player2) == Put(Put([], player1, 0.0), player2, 0.0)
  {
    var e: Points := [];
    assert Keys(e) == [];
    var d := Put(e, player1, 0.0);
    assert d == [(player1, 0.0)];
    assert Keys(d) == [player1];
    if player1 == player2 {
      assert IndexOf(d, player2) == Some(0);
    }
  }

  function Sum(d: Points): real {
    if d == [] then 0.0 else d[0].1 + Sum(d[1..])
  }

  /** `w` is where `max(d, key=d.get)` lands: a greatest value, and the first one. */
  predicate IsFirstMax(d: Points, w: nat) {
    w < |d| && (forall j :: 0 <= j < |d| ==> d[j].1 <= d[w].1)
            && (forall j :: 0 <= j < w ==> d[j].1 < d[w].1)
  }

  /** `w` is where `min(d, key=d.get)` lands: a least value, and the first one. */
  predicate IsFirstMin(d: Points, w: nat) {
    w < |d| && (forall j :: 0 <= j < |d| ==> d[w].1 <= d[j].1)
            && (forall j :: 0 <= j < w ==> d[w].1 < d[j].1)
  }

  /** The scan `max` performs: keep the best so far, replace it only on a
      strictly greater value. */
  function MaxFrom(d: Points, j: nat, best: nat): (w: nat)
    requires best < j <= |d| || (best == 0 && j == 0 < |d|)
    requires forall i :: 0 <= i < j ==> d[i].1 <= d[best].1
    requires forall i :: 0 <= i < best ==> d[i].1 < d[best].1
    ensures IsFirstMax(d, w)
    decreases |d| - j
  {
    if j == |d| then best
    else if d[j].1 > d[best].1 then MaxFrom(d, j + 1, j)
    else MaxFrom(d, j + 1, best)
  }

  function MinFrom(d: Points, j: nat, best: nat): (w: nat)
    requires best < j <= |d| || (best == 0 && j == 0 < |d|)
    requires forall i :: 0 <= i < j ==> d[best].1 <= d[i].1
    requires forall i :: 0 <= i < best ==> d[best].1 < d[i].1
    ensures IsFirstMin(d, w)
    decreases |d| - j
  {
    if j == |d| then best
    else if d[j].1 < d[best].1 then MinFrom(d, j + 1, j)
    else MinFrom(d, j + 1, best)
  }

  function FirstMax(d: Points): (w: nat)
    requires |d| > 0
    ensures IsFirstMax(d, w)
  {
    MaxFrom(d, 0, 0)
  }

  function FirstMin(d: Points): (w: nat)
    requires |d| > 0
    ensures IsFirstMin(d, w)
  {
    MinFrom(d, 0, 0)
  }

  /** Add `x` to the points of the player at position `i`. */
  function Credit(d: Points, i: nat, x: real): (r: Points)
    requires i < |d|
    ensures Keys(r) == Keys(d)
  {
    var r := d[i := (d[i].0, d[i].1 + x)];
    assert forall j :: 0 <= j < |d| ==> Keys(r)[j] == Keys(d)[j];
    r
  }

  /** Half a point more for every player. */
  function CreditAll(d: Points): (r: Points)
    ensures Keys(r) == Keys(d)
  {
    var r := seq(|d|, i requires 0 <= i < |d| => (d[i].0, d[i].1 + 0.5));
    assert forall j :: 0 <= j < |d| ==> Keys(r)[j] == Keys(d)[j];
    r
  }

  /** The points after one call of `play_match` with result `o`: the body of
      the loop over the items runs once, because of the `return` inside it,
      and not at all on an empty dictionary. */
  function Played(d: Points, o: Outcome): (r: Points)
    ensures Keys(r) == Keys(d)
  {
    if d == [] then d
    else match o
      case Win => Credit(d, FirstMax(d), 1.0)
      case Loss => Credit(d, FirstMin(d), 1.0)
      case Draw => CreditAll(d)
  }

  lemma {:induction false} SumCredit(d: Points, i: nat, x: real)
    requires i < |d|
    ensures Sum(Credit(d, i, x)) == Sum(d) + x
  {
    if i > 0 {
      SumCredit(d[1..], i - 1, x);
      assert Credit(d, i, x)[1..] == Credit(d[1..], i - 1, x);
    } else {
      assert Credit(d, i, x)[1..] == d[1..];
    }
  }

  lemma {:induction false} SumCreditAll(d: Points)
    ensures Sum(CreditAll(d)) == Sum(d) + 0.5 * |d| as real
  {
    if d != [] {
      SumCreditAll(d[1..]);
      assert CreditAll(d)[1..] == CreditAll(d[1..]);
    }
  }

  /** Each call adds exactly one point in all to a two-player match:
      1/0, 0/1 or 0.5/0.5. */
  lemma TwoPlayerTotalRisesByOne(d: Points, o: Outcome)
    requires |d| == 2
    ensures Sum(Played(d, o)) == Sum(d) + 1.0
  {
    match o
    case Win => SumCredit(d, FirstMax(d), 1.0);
    case Loss => SumCredit(d, FirstMin(d), 1.0);
    case Draw => SumCreditAll(d);
  }

  /** On "draw" every player gets exactly half a point more. */
  lemma DrawAddsHalfToEveryone(d: Points)
    ensures |Played(d, Draw)| == |d|
    ensures forall i :: 0 <= i < |d| ==> Played(d, Draw)[i] == (d[i].0, d[i].1 + 0.5)
  {
  }

  /** On "win" the first player with the highest points gets one more
      point and nobody else changes. */
  lemma WinCreditsFirstHighest(d: Points, w: nat)
    requires IsFirstMax(d, w)
    ensures |Played(d, Win)| == |d|
    ensures Played(d, Win)[w].1 == d[w].1 + 1.0
    ensures forall i :: 0 <= i < |d| && i != w ==> Played(d, Win)[i] == d[i]
  {
    assert FirstMax(d) == w;
  }

  /** On "loss" the first player with the lowest points gets one more
      point and nobody else changes. */
  lemma LossCreditsFirstLowest(d: Points, w: nat)
    requires IsFirstMin(d, w)
    ensures |Played(d, Loss)| == |d|
    ensures Played(d, Loss)[w].1 == d[w].1 + 1.0
    ensures forall i :: 0 <= i < |d| && i != w ==> Played(d, Loss)[i] == d[i]
  {
    assert FirstMin(d) == w;
  }

  /** On a fresh `{p1: 0, p2: 0}` the tie goes to the first key for both
      "win" and "loss", so the second player never gets the point. */
  lemma FreshMatchCreditsFirstPlayer(p1: Player, p2: Player)
    requires p1 != p2
    ensures Played(NewPoints(p1, p2), Win) == [(p1, 1.0), (p2, 0.0)]
    ensures Played(NewPoints(p1, p2), Loss) == [(p1, 1.0), (p2, 0.0)]
    ensures Played(NewPoints(p1, p2), Draw) == [(p1, 0.5), (p2, 0.5)]
  {
    var d := NewPoints(p1, p2);
    assert IsFirstMax(d, 0) && IsFirstMin(d, 0);
    WinCreditsFirstHighest(d, 0);
    LossCreditsFirstLowest(d, 0);
  }

  class Match {
    var players: Points
    var result: Option<Outcome>

    /** `Match(players)`: the dictionary is kept as given, no result yet. */
    constructor (players: Points)
      ensures this.players == players && result == None
    {
      this.players := players;
      result := None;
    }

    /** `play_match` with the drawn result `o`: records `o`, updates the
      points once and returns `o`; on an empty dictionary the loop body
      never runs and the call returns None. */
    method PlayMatch(o: Outcome) returns (r: Option<Outcome>)
      modifies this
      ensures result == Some(o)
      ensures r == if old(players) == [] then None else Some(o)
      ensures players == Played(old(players), o)
      ensures Keys(players) == Keys(old(players))
    {
      result := Some(o);
      if players == [] {
        return None;
      }
      match o {
        case Win =>
          var w := FirstMax(players);
          players := players[w := (players[w].0, players[w].1 + 1.0)];
        case Loss =>
          var w := FirstMin(players);
          players := players[w := (players[w].0, players[w].1 + 1.0)];
        case Draw =>
          ghost var before := players;
          var i := 0;
          while i < |players|
            invariant 0 <= i <= |players| == |before| && result == Some(o)
            invariant forall j :: 0 <= j < i ==> players[j] == (before[j].0, before[j].1 + 0.5)
            invariant forall j :: i <= j < |players| ==> players[j] == before[j]
          {
            players := players[i := (players[i].0, players[i].1 + 0.5)];
            i := i + 1;
          }
      }
      r := Some(o);
    }

    /** `has_player`: whether `p` is a key of the dictionary. */
    predicate HasPlayer(p: Player)
      reads this
      ensures HasPlayer(p) <==> exists i :: 0 <= i < |players| && players[i].0 == p
    {
      p in Keys(players)
    }
  }
}
