/** The pairing rules of `Tournament.generate_pairs_for_round`
    (chess/model/tournament.py) as functions of the roster: the greedy scan
    of the first round over the shuffled unordered pairs, and the
    closest-score search of the later rounds. The methods that run these
    loops, create the matches and record the pairs are in module
    Tournaments; here are the rules and what they guarantee. */
module Pairing {
  import opened Common
  import opened Players
  import opened Scoring

  type Pair = (Player, Player)

  // ---------------------------------------------------------------------
  // Pairs and the players they hold

  /** `itertools.combinations(s, 2)`: `(s[i], s[j])` for every `i < j`,
      ordered by `i` and then by `j`. */
  function Combinations(s: seq<Player>): seq<Pair> {
    if s == [] then []
    else seq(|s| - 1, j requires 0 <= j < |s| - 1 => (s[0], s[j + 1])) + Combinations(s[1..])
  }

  lemma {:induction false} CombinationsMembers(s: seq<Player>)
    ensures forall i, j :: 0 <= i < j < |s| ==> (s[i], s[j]) in Combinations(s)
    ensures forall q :: q in Combinations(s) ==> exists i, j :: 0 <= i < j < |s| && q == (s[i], s[j])
  {
    if s != [] {
      var head := seq(|s| - 1, j requires 0 <= j < |s| - 1 => (s[0], s[j + 1]));
      var tail := s[1..];
      CombinationsMembers(tail);
      assert Combinations(s) == head + Combinations(tail);
      forall i, j | 0 <= i < j < |s| ensures (s[i], s[j]) in Combinations(s) {
        if i == 0 {
          assert head[j - 1] == (s[i], s[j]);
        } else {
          assert (tail[i - 1], tail[j - 1]) in Combinations(tail);
        }
      }
      forall q | q in Combinations(s) ensures exists i, j :: 0 <= i < j < |s| && q == (s[i], s[j]) {
        if q in head {
          var j :| 0 <= j < |head| && head[j] == q;
          assert q == (s[0], s[j + 1]);
        } else {
          assert q in Combinations(tail);
          var i, j :| 0 <= i < j < |tail| && q == (tail[i], tail[j]);
          assert q == (s[i + 1], s[j + 1]);
        }
      }
    }
  }

  /** The players of a list of pairs, both members of each pair in turn. */
  function Flatten(pairs: seq<Pair>): (r: seq<Player>)
    ensures |r| == 2 * |pairs|
  {
    if pairs == [] then [] else [pairs[0].0, pairs[0].1] + Flatten(pairs[1..])
  }

  lemma {:induction false} FlattenMembers(pairs: seq<Pair>, x: Player)
    ensures x in Flatten(pairs) <==> exists k :: 0 <= k < |pairs| && (x == pairs[k].0 || x == pairs[k].1)
  {
    if pairs != [] {
      var rest := pairs[1..];
      FlattenMembers(rest, x);
      assert Flatten(pairs) == [pairs[0].0, pairs[0].1] + Flatten(rest);
      if exists k :: 0 <= k < |rest| && (x == rest[k].0 || x == rest[k].1) {
        var k :| 0 <= k < |rest| && (x == rest[k].0 || x == rest[k].1);
        assert rest[k] == pairs[k + 1];
      }
      if exists k :: 0 <= k < |pairs| && (x == pairs[k].0 || x == pairs[k].1) {
        var k :| 0 <= k < |pairs| && (x == pairs[k].0 || x == pairs[k].1);
        if k > 0 {
          assert pairs[k] == rest[k - 1];
        }
      }
    }
  }

  /** No pair has the same player twice. */
  predicate NoSelfPairs(pairs: seq<Pair>) {
    forall k :: 0 <= k < |pairs| ==> pairs[k].0 != pairs[k].1
  }

  /** No player is in two different pairs. */
  predicate NoSharedPlayer(pairs: seq<Pair>) {
    forall k, l :: 0 <= k < l < |pairs| ==>
      pairs[k].0 != pairs[l].0 && pairs[k].0 != pairs[l].1
      && pairs[k].1 != pairs[l].0 && pairs[k].1 != pairs[l].1
  }

  /** A list of pairs whose players are all different is a matching: no
      pair with itself, no player in two pairs. */
  lemma {:induction false} DistinctFlattenIsMatching(pairs: seq<Pair>)
    requires Distinct(Flatten(pairs))
    ensures NoSelfPairs(pairs) && NoSharedPlayer(pairs)
  {
    if pairs != [] {
      var f := Flatten(pairs);
      var rest := pairs[1..];
      var fr := Flatten(rest);
      assert f == [pairs[0].0, pairs[0].1] + fr;
      assert Distinct(fr) by {
        forall i, j | 0 <= i < j < |fr| ensures fr[i] != fr[j] {
          assert fr[i] == f[i + 2] && fr[j] == f[j + 2];
        }
      }
      DistinctFlattenIsMatching(rest);
      assert pairs[0].0 != pairs[0].1 by {
        assert f[0] != f[1];
      }
      assert f[0] == pairs[0].0 && f[1] == pairs[0].1;
      assert pairs[0].0 !in fr && pairs[0].1 !in fr by {
        forall t | 0 <= t < |fr| ensures fr[t] != pairs[0].0 && fr[t] != pairs[0].1 {
          assert fr[t] == f[t + 2];
        }
      }
      forall l | 1 <= l < |pairs|
        ensures pairs[0].0 != pairs[l].0 && pairs[0].0 != pairs[l].1
                && pairs[0].1 != pairs[l].0 && pairs[0].1 != pairs[l].1
      {
        assert pairs[l] == rest[l - 1];
        FlattenMembers(rest, pairs[l].0);
        FlattenMembers(rest, pairs[l].1);
      }
      forall k | 0 <= k < |pairs| ensures pairs[k].0 != pairs[k].1 {
        if k > 0 {
          assert pairs[k] == rest[k - 1];
        }
      }
      forall k, l | 1 <= k < l < |pairs|
        ensures pairs[k].0 != pairs[l].0 && pairs[k].0 != pairs[l].1
                && pairs[k].1 != pairs[l].0 && pairs[k].1 != pairs[l].1
      {
        assert pairs[k] == rest[k - 1] && pairs[l] == rest[l - 1];
      }
    }
  }

  /** `played_pairs.add((p1, p2)); played_pairs.add((p2, p1))` for every pair. */
  function Both(pairs: seq<Pair>): set<Pair> {
    if pairs == [] then {}
    else
      var last := pairs[|pairs| - 1];
      Both(pairs[..|pairs| - 1]) + {last, (last.1, last.0)}
  }

  lemma {:induction false} BothMembers(pairs: seq<Pair>, q: Pair)
    ensures q in Both(pairs) <==> exists k :: 0 <= k < |pairs| && (q == pairs[k] || q == (pairs[k].1, pairs[k].0))
  {
    if pairs != [] {
      var init := pairs[..|pairs| - 1];
      BothMembers(init, q);
      if q in Both(init) {
        var k :| 0 <= k < |init| && (q == init[k] || q == (init[k].1, init[k].0));
        assert pairs[k] == init[k];
      }
      if exists k :: 0 <= k < |pairs| && (q == pairs[k] || q == (pairs[k].1, pairs[k].0)) {
        var k :| 0 <= k < |pairs| && (q == pairs[k] || q == (pairs[k].1, pairs[k].0));
        if k < |init| {
          assert pairs[k] == init[k];
        }
      }
    }
  }

  /** The whole seen set: every pair is there in both orientations. */
  lemma BothSymmetric(pairs: seq<Pair>)
    ensures forall k :: 0 <= k < |pairs| ==> pairs[k] in Both(pairs) && (pairs[k].1, pairs[k].0) in Both(pairs)
    ensures forall a, b :: (a, b) in Both(pairs) ==> (b, a) in Both(pairs)
  {
    forall k | 0 <= k < |pairs| ensures pairs[k] in Both(pairs) && (pairs[k].1, pairs[k].0) in Both(pairs) {
      BothMembers(pairs, pairs[k]);
      BothMembers(pairs, (pairs[k].1, pairs[k].0));
    }
    forall a, b | (a, b) in Both(pairs) ensures (b, a) in Both(pairs) {
      BothMembers(pairs, (a, b));
      BothMembers(pairs, (b, a));
    }
  }

  // ---------------------------------------------------------------------
  // Round 0: the greedy scan

  /** The scan over the shuffled pairs: a pair is taken when neither of its
      players is paired yet, and both then become paired. */
  function GreedyScan(pairs: seq<Pair>, paired: set<Player>): seq<Pair> {
    if pairs == [] then []
    else if pairs[0].0 in paired || pairs[0].1 in paired then GreedyScan(pairs[1..], paired)
    else [pairs[0]] + GreedyScan(pairs[1..], paired + {pairs[0].0, pairs[0].1})
  }

  /** Taken pairs come from the input, and none of their players was
      paired before the scan. */
  lemma {:induction false} GreedyScanFresh(pairs: seq<Pair>, paired: set<Player>)
    ensures forall x :: x in Flatten(GreedyScan(pairs, paired)) ==> x !in paired
    ensures forall q :: q in GreedyScan(pairs, paired) ==> q in pairs
  {
    if pairs != [] {
      var a, b := pairs[0].0, pairs[0].1;
      if a in paired || b in paired {
        GreedyScanFresh(pairs[1..], paired);
      } else {
        var paired' := paired + {a, b};
        GreedyScanFresh(pairs[1..], paired');
        assert Flatten(GreedyScan(pairs, paired)) == [a, b] + Flatten(GreedyScan(pairs[1..], paired'));
      }
    }
  }

  /** The players of the taken pairs are all different. */
  lemma {:induction false} GreedyScanDistinct(pairs: seq<Pair>, paired: set<Player>)
    requires NoSelfPairs(pairs)
    ensures Distinct(Flatten(GreedyScan(pairs, paired)))
  {
    if pairs != [] {
      var a, b := pairs[0].0, pairs[0].1;
      assert NoSelfPairs(pairs[1..]) by {
        forall k | 0 <= k < |pairs| - 1 ensures pairs[1..][k].0 != pairs[1..][k].1 {
          assert pairs[1..][k] == pairs[k + 1];
        }
      }
      if a in paired || b in paired {
        GreedyScanDistinct(pairs[1..], paired);
      } else {
        var paired' := paired + {a, b};
        GreedyScanDistinct(pairs[1..], paired');
        GreedyScanFresh(pairs[1..], paired');
        var rest := Flatten(GreedyScan(pairs[1..], paired'));
        assert a != b;
        DistinctPrepend(b, rest);
        DistinctPrepend(a, [b] + rest);
        assert Flatten(GreedyScan(pairs, paired)) == [a] + ([b] + rest);
      }
    }
  }

  /** Taken pairs come from the input, their players are all different and
      none was paired before the scan. */
  lemma GreedyScanDisjoint(pairs: seq<Pair>, paired: set<Player>)
    requires NoSelfPairs(pairs)
    ensures var r := GreedyScan(pairs, paired);
            Distinct(Flatten(r))
            && (forall x :: x in Flatten(r) ==> x !in paired)
            && (forall q :: q in r ==> q in pairs)
  {
    GreedyScanFresh(pairs, paired);
    GreedyScanDistinct(pairs, paired);
  }

  /** The scan leaves no input pair with both players unpaired. */
  lemma {:induction false} GreedyScanMaximal(pairs: seq<Pair>, paired: set<Player>, q: Pair)
    requires q in pairs
    ensures q.0 in paired || q.0 in Flatten(GreedyScan(pairs, paired))
            || q.1 in paired || q.1 in Flatten(GreedyScan(pairs, paired))
  {
    var a, b := pairs[0].0, pairs[0].1;
    if a in paired || b in paired {
      if q != pairs[0] {
        assert q in pairs[1..];
        GreedyScanMaximal(pairs[1..], paired, q);
      }
    } else {
      var paired' := paired + {a, b};
      assert Flatten(GreedyScan(pairs, paired)) == [a, b] + Flatten(GreedyScan(pairs[1..], paired'));
      if q != pairs[0] {
        assert q in pairs[1..];
        GreedyScanMaximal(pairs[1..], paired', q);
      }
    }
  }

  /** A set in which any two elements are equal has at most one element. */
  lemma AtMostOne<T>(u: set<T>)
    requires forall x, y :: x in u && y in u ==> x == y
    ensures |u| <= 1
  {
    if u != {} {
      var x :| x in u;
      assert u == {x};
    }
  }

  /** Two sequences with the same multiset have the same members. */
  lemma SameMembers<T>(a: seq<T>, b: seq<T>)
    requires multiset(a) == multiset(b)
    ensures forall x :: x in a <==> x in b
  {
    forall x ensures x in a <==> x in b {
      assert x in a <==> x in multiset(a);
      assert x in b <==> x in multiset(b);
    }
  }

  /** A shuffle of the roster's combinations holds exactly those pairs, so
      none pairs a player with itself when the roster has no repetitions. */
  lemma ShuffledCombinations(roster: seq<Player>, shuffled: seq<Pair>)
    requires Distinct(roster)
    requires multiset(shuffled) == multiset(Combinations(roster))
    ensures forall i, j :: 0 <= i < j < |roster| ==> (roster[i], roster[j]) in shuffled
    ensures forall q :: q in shuffled ==> q.0 in roster && q.1 in roster
    ensures NoSelfPairs(shuffled)
  {
    CombinationsMembers(roster);
    SameMembers(shuffled, Combinations(roster));
    forall q | q in shuffled ensures q.0 in roster && q.1 in roster && q.0 != q.1 {
      var i, j :| 0 <= i < j < |roster| && q == (roster[i], roster[j]);
    }
    forall k | 0 <= k < |shuffled| ensures shuffled[k].0 != shuffled[k].1 {
      assert shuffled[k] in shuffled;
    }
  }

  /** Two different roster players, whose pair is among the shuffled
      ones, are not both left out by the scan. */
  lemma PairCovered(roster: seq<Player>, shuffled: seq<Pair>, x: Player, y: Player)
    requires x in roster && y in roster && x != y
    requires forall i, j :: 0 <= i < j < |roster| ==> (roster[i], roster[j]) in shuffled
    ensures x in Flatten(GreedyScan(shuffled, {})) || y in Flatten(GreedyScan(shuffled, {}))
  {
    var i :| 0 <= i < |roster| && roster[i] == x;
    var j :| 0 <= j < |roster| && roster[j] == y;
    if i < j {
      GreedyScanMaximal(shuffled, {}, (x, y));
    } else {
      GreedyScanMaximal(shuffled, {}, (y, x));
    }
  }

  /** After the scan, of any two different roster players at least one is
      paired. */
  lemma FirstRoundLeavesOneAtMost(roster: seq<Player>, shuffled: seq<Pair>)
    requires Distinct(roster)
    requires multiset(shuffled) == multiset(Combinations(roster))
    ensures forall x, y :: x in roster && y in roster && x != y ==>
              x in Flatten(GreedyScan(shuffled, {})) || y in Flatten(GreedyScan(shuffled, {}))
  {
    ShuffledCombinations(roster, shuffled);
    forall x, y | x in roster && y in roster && x != y
      ensures x in Flatten(GreedyScan(shuffled, {})) || y in Flatten(GreedyScan(shuffled, {}))
    {
      PairCovered(roster, shuffled, x, y);
    }
  }

  /** Counting: `taken` players out of a roster without repetitions, with
      at most one roster player not taken. */
  lemma CountTaken(roster: seq<Player>, f: seq<Player>)
    requires Distinct(roster) && Distinct(f)
    requires forall x :: x in f ==> x in roster
    requires forall x, y :: x in roster && y in roster && x != y ==> x in f || y in f
    ensures |f| <= |roster| <= |f| + 1
  {
    var all := set x | x in roster;
    var taken := set x | x in f;
    var left := all - taken;
    AtMostOne(left);
    DistinctCard(roster);
    DistinctCard(f);
    assert all == left + taken && left * taken == {};
  }

  /** The players the scan pairs are roster players, each paired once. */
  lemma FirstRoundPlayersFromRoster(roster: seq<Player>, shuffled: seq<Pair>)
    requires Distinct(roster)
    requires multiset(shuffled) == multiset(Combinations(roster))
    ensures Distinct(Flatten(GreedyScan(shuffled, {})))
    ensures forall x :: x in Flatten(GreedyScan(shuffled, {})) ==> x in roster
  {
    var r := GreedyScan(shuffled, {});
    ShuffledCombinations(roster, shuffled);
    GreedyScanDisjoint(shuffled, {});
    forall x | x in Flatten(r) ensures x in roster {
      FlattenMembers(r, x);
      var k :| 0 <= k < |r| && (x == r[k].0 || x == r[k].1);
      assert r[k] in shuffled;
    }
  }

  /** The scan leaves at most one roster player without a match. */
  lemma FirstRoundCount(roster: seq<Player>, shuffled: seq<Pair>)
    requires Distinct(roster)
    requires multiset(shuffled) == multiset(Combinations(roster))
    ensures 2 * |GreedyScan(shuffled, {})| <= |roster| <= 2 * |GreedyScan(shuffled, {})| + 1
  {
    FirstRoundPlayersFromRoster(roster, shuffled);
    FirstRoundLeavesOneAtMost(roster, shuffled);
    CountTaken(roster, Flatten(GreedyScan(shuffled, {})));
  }

  /** Round 0 on a roster without repetitions, whatever the shuffle: the
      taken pairs form a matching of roster players. */
  lemma FirstRoundIsMatching(roster: seq<Player>, shuffled: seq<Pair>)
    requires Distinct(roster)
    requires multiset(shuffled) == multiset(Combinations(roster))
    ensures NoSelfPairs(GreedyScan(shuffled, {})) && NoSharedPlayer(GreedyScan(shuffled, {}))
    ensures forall x :: x in Flatten(GreedyScan(shuffled, {})) ==> x in roster
  {
    FirstRoundPlayersFromRoster(roster, shuffled);
    DistinctFlattenIsMatching(GreedyScan(shuffled, {}));
  }

  /** An even number between `2 * g` and `2 * g + 1` is `2 * g`. */
  lemma EvenBetween(n: int, g: int)
    requires 2 * g <= n <= 2 * g + 1 && n % 2 == 0
    ensures n == 2 * g
  {
  }

  /** An even roster of n players gets exactly n/2 first-round matches. */
  lemma FirstRoundEvenRoster(roster: seq<Player>, shuffled: seq<Pair>)
    requires Distinct(roster)
    requires multiset(shuffled) == multiset(Combinations(roster))
    requires |roster| % 2 == 0
    ensures 2 * |GreedyScan(shuffled, {})| == |roster|
  {
    FirstRoundCount(roster, shuffled);
    EvenBetween(|roster|, |GreedyScan(shuffled, {})|);
  }

  // ---------------------------------------------------------------------
  // Later rounds: the closest legal opponent of the head player

  /** `|p.score - q.score|`. */
  function Diff(p: Player, q: Player): real {
    Abs(p.score - q.score)
  }

  /** `(p1, p) not in played_pairs and (p, p1) not in played_pairs`. */
  predicate Legal(p1: Player, p: Player, played: set<Pair>) {
    (p1, p) !in played && (p, p1) !in played
  }

  predicate NoLegalOpponent(s: seq<Player>, played: set<Pair>)
    requires |s| >= 1
  {
    forall j :: 1 <= j < |s| ==> !Legal(s[0], s[j], played)
  }

  /** Among the candidates `s[1..j]`, `k` is the one the search keeps: a
      legal opponent of `s[0]` with the least score difference, and the
      earliest of those, since only a strictly smaller difference replaces
      the current choice. */
  predicate BestAmong(s: seq<Player>, played: set<Pair>, j: nat, k: nat)
    requires |s| >= 1 && j <= |s|
  {
    1 <= k < j && Legal(s[0], s[k], played)
    && (forall i :: 1 <= i < j && Legal(s[0], s[i], played) ==> Diff(s[0], s[k]) <= Diff(s[0], s[i]))
    && (forall i :: 1 <= i < k && Legal(s[0], s[i], played) ==> Diff(s[0], s[k]) < Diff(s[0], s[i]))
  }

  predicate IsBestOpponent(s: seq<Player>, played: set<Pair>, k: nat)
    requires |s| >= 1
  {
    BestAmong(s, played, |s|, k)
  }

  /** The search from position `j` on, `best` being the choice so far
      (None while `min_diff` is still infinite). */
  function BestFrom(s: seq<Player>, played: set<Pair>, j: nat, best: Option<nat>): (r: Option<nat>)
    requires 1 <= j <= |s|
    requires best.None? ==> forall i :: 1 <= i < j ==> !Legal(s[0], s[i], played)
    requires best.Some? ==> BestAmong(s, played, j, best.value)
    ensures r.None? ==> NoLegalOpponent(s, played)
    ensures r.Some? ==> IsBestOpponent(s, played, r.value)
    decreases |s| - j
  {
    if j == |s| then best
    else if Legal(s[0], s[j], played) && (best.None? || Diff(s[0], s[j]) < Diff(s[0], s[best.value])) then
      BestFrom(s, played, j + 1, Some(j))
    else
      BestFrom(s, played, j + 1, best)
  }

  /** The opponent the inner loop finds for the head `s[0]`: None exactly
      when no candidate is legal. */
  function BestOpponent(s: seq<Player>, played: set<Pair>): (r: Option<nat>)
    requires |s| >= 1
    ensures r.None? <==> NoLegalOpponent(s, played)
    ensures r.Some? ==> IsBestOpponent(s, played, r.value)
  {
    BestFrom(s, played, 1, None)
  }

  /** The choice rule leaves no freedom: at most one position satisfies it. */
  lemma BestOpponentUnique(s: seq<Player>, played: set<Pair>, k1: nat, k2: nat)
    requires |s| >= 1
    requires IsBestOpponent(s, played, k1) && IsBestOpponent(s, played, k2)
    ensures k1 == k2
  {
  }

  /** `list.remove(x)`: drop the first occurrence of `x`. */
  function RemoveFirst(s: seq<Player>, x: Player): (r: seq<Player>)
    requires x in s
    ensures |r| == |s| - 1
    ensures multiset(r) + multiset{x} == multiset(s)
  {
    if s[0] == x then
      assert s == [x] + s[1..];
      s[1..]
    else
      assert s == [s[0]] + s[1..];
      [s[0]] + RemoveFirst(s[1..], x)
  }

  /** What is left of `s` once the head and its opponent `s[k]` are
      removed: `remove(player1)`, then, as the list is not empty,
      `remove(player2)`. */
  function AfterPairing(s: seq<Player>, k: nat): (r: seq<Player>)
    requires 1 <= k < |s|
    ensures |r| == |s| - 2
    ensures multiset(r) + multiset{s[0], s[k]} == multiset(s)
  {
    var afterHead := RemoveFirst(s, s[0]);
    assert afterHead == s[1..] && s[k] in afterHead;
    if |afterHead| > 0 then RemoveFirst(afterHead, s[k]) else afterHead
  }

  /** `list.remove(x)` removes exactly the first occurrence: when `s[i]` is
      the first `x`, what is left is `s` without position `i`, the others
      in their order. */
  lemma {:induction false} RemoveFirstAt(s: seq<Player>, x: Player, i: nat)
    requires i < |s| && s[i] == x && x !in s[..i]
    ensures x in s && RemoveFirst(s, x) == s[..i] + s[i + 1..]
    decreases i
  {
    if i > 0 {
      assert s[0] in s[..i];
      assert s[1..][..i - 1] == s[1..i];
      assert forall y :: y in s[1..i] ==> y in s[..i];
      RemoveFirstAt(s[1..], x, i - 1);
      assert s[1..][i..] == s[i + 1..];
      assert s[..i] == [s[0]] + s[1..i];
    }
  }

  /** The two removals after a pairing keep the order of everyone else:
      with `s[j]` the first occurrence of the opponent `s[k]` after the
      head, the rest is `s` without positions 0 and `j`. When the roster
      holds no player twice, `j` is `k`. */
  lemma AfterPairingKeepsOrder(s: seq<Player>, k: nat, j: nat)
    requires 1 <= j <= k < |s| && s[j] == s[k] && s[k] !in s[1..j]
    ensures AfterPairing(s, k) == s[1..j] + s[j + 1..]
  {
    var afterHead := s[1..];
    assert RemoveFirst(s, s[0]) == afterHead;
    assert afterHead[j - 1] == s[k] && afterHead[..j - 1] == s[1..j];
    RemoveFirstAt(afterHead, s[k], j - 1);
    assert afterHead[j..] == s[j + 1..];
  }

  /** The opponent the loop pairs with the head `s[0]`: the other player
      when only two remain, the best legal one otherwise. */
  function Opponent(s: seq<Player>, played: set<Pair>): (r: Option<nat>)
    requires |s| >= 2
    ensures r.Some? ==> 1 <= r.value < |s|
  {
    if |s| == 2 then Some(1) else BestOpponent(s, played)
  }

  /** The later-round loop over the players `s` still to pair, with
      `played` the pairs recorded so far: pair the head with its opponent,
      record the pair both ways, remove both, and go on; stop when fewer
      than two remain or the head has no opponent. */
  function LaterPairs(s: seq<Player>, played: set<Pair>): seq<Pair>
    decreases |s|
  {
    if |s| < 2 then []
    else match Opponent(s, played)
      case None => []
      case Some(k) =>
        [(s[0], s[k])] + LaterPairs(AfterPairing(s, k), played + {(s[0], s[k]), (s[k], s[0])})
  }

  /** One turn of the loop: the head and its opponent make the first pair,
      and the loop goes on with the rest and the pair recorded both ways. */
  lemma LaterPairsStep(s: seq<Player>, played: set<Pair>)
    requires |s| >= 2 && Opponent(s, played).Some?
    ensures var k := Opponent(s, played).value;
            LaterPairs(s, played)
            == [(s[0], s[k])] + LaterPairs(AfterPairing(s, k), played + {(s[0], s[k]), (s[k], s[0])})
  {
  }

  /** The players of the later-round pairs are players of `s`, each at most
      as often as in `s`. */
  lemma {:induction false} LaterPairsFromRoster(s: seq<Player>, played: set<Pair>)
    ensures multiset(Flatten(LaterPairs(s, played))) <= multiset(s)
    decreases |s|
  {
    if |s| >= 2 && Opponent(s, played).Some? {
      var k := Opponent(s, played).value;
      var rest := AfterPairing(s, k);
      var played' := played + {(s[0], s[k]), (s[k], s[0])};
      LaterPairsFromRoster(rest, played');
      LaterPairsStep(s, played);
      var r' := LaterPairs(rest, played');
      assert Flatten([(s[0], s[k])] + r') == [s[0], s[k]] + Flatten(r');
      assert multiset([s[0], s[k]] + Flatten(r')) == multiset{s[0], s[k]} + multiset(Flatten(r'));
    }
  }

  /** On players without repetitions the later-round pairs form a matching. */
  lemma LaterPairsIsMatching(s: seq<Player>, played: set<Pair>)
    requires Distinct(s)
    ensures Distinct(Flatten(LaterPairs(s, played)))
    ensures NoSelfPairs(LaterPairs(s, played)) && NoSharedPlayer(LaterPairs(s, played))
    ensures forall x :: x in Flatten(LaterPairs(s, played)) ==> x in s
  {
    var f := Flatten(LaterPairs(s, played));
    LaterPairsFromRoster(s, played);
    SubMultisetDistinct(f, s);
    DistinctFlattenIsMatching(LaterPairs(s, played));
    forall x | x in f ensures x in s {
      assert x in multiset(f);
    }
  }

  /** Every pair is a legal one, not yet played before the call, except
      possibly the last one, and then only when it takes the final two
      players: the last two are paired without looking at `played`. */
  lemma {:induction false} LaterPairsRematchOnlyLast(s: seq<Player>, played: set<Pair>)
    ensures var r := LaterPairs(s, played);
            forall i :: 0 <= i < |r| ==>
              Legal(r[i].0, r[i].1, played) || (i == |r| - 1 && 2 * |r| == |s|)
    decreases |s|
  {
    var r := LaterPairs(s, played);
    if |s| >= 2 && Opponent(s, played).Some? {
      var k := Opponent(s, played).value;
      var rest := AfterPairing(s, k);
      var played' := played + {(s[0], s[k]), (s[k], s[0])};
      LaterPairsRematchOnlyLast(rest, played');
      var r' := LaterPairs(rest, played');
      LaterPairsStep(s, played);
      if |s| == 2 {
        assert r' == [];
      }
      forall i | 0 <= i < |r| ensures Legal(r[i].0, r[i].1, played) || (i == |r| - 1 && 2 * |r| == |s|) {
        if i > 0 {
          assert r[i] == r'[i - 1];
        }
      }
    }
  }

  /** The loop pairs off two players at a time and never leaves exactly two
      behind: with two left it pairs them. */
  lemma {:induction false} LaterPairsCount(s: seq<Player>, played: set<Pair>)
    ensures 2 * |LaterPairs(s, played)| <= |s|
    ensures |s| - 2 * |LaterPairs(s, played)| != 2
    decreases |s|
  {
    if |s| >= 2 && Opponent(s, played).Some? {
      var k := Opponent(s, played).value;
      var rest := AfterPairing(s, k);
      LaterPairsCount(rest, played + {(s[0], s[k]), (s[k], s[0])});
    }
  }

  /** How one step begins: two players are paired whatever `played` says;
      with three or more the head is paired with its best legal opponent,
      and pairing stops for the round when it has none. */
  lemma LaterPairsFirstStep(s: seq<Player>, played: set<Pair>)
    ensures |s| == 2 ==> LaterPairs(s, played) == [(s[0], s[1])]
    ensures |s| >= 3 && NoLegalOpponent(s, played) ==> LaterPairs(s, played) == []
    ensures forall k: nat :: |s| >= 3 && IsBestOpponent(s, played, k) ==>
              LaterPairs(s, played) != [] && LaterPairs(s, played)[0] == (s[0], s[k])
  {
    forall k: nat | |s| >= 3 && IsBestOpponent(s, played, k)
      ensures LaterPairs(s, played) != [] && LaterPairs(s, played)[0] == (s[0], s[k])
    {
      BestOpponentUnique(s, played, k, BestOpponent(s, played).value);
    }
  }

  /** `lambda x: x.score`: the sort key of the later rounds is the player's
      own `score` field, which playing a match does not change. */
  function Score(p: Player): real {
    p.score
  }

  /** A later round on a roster without repetitions: the players are sorted
      by `score`, highest first and stably, and the pairs made from that
      order form a matching of roster players in which only the very last
      pair, taking the final two players, can repeat an earlier pairing. */
  lemma LaterRoundPairing(roster: seq<Player>, played: set<Pair>)
    requires Distinct(roster)
    ensures var sorted := SortDesc(roster, Score);
            var r := LaterPairs(sorted, played);
            multiset(sorted) == multiset(roster) && Descending(sorted, Score)
            && NoSelfPairs(r) && NoSharedPlayer(r)
            && (forall x :: x in Flatten(r) ==> x in roster)
            && 2 * |r| <= |roster| && |roster| - 2 * |r| != 2
            && (forall i :: 0 <= i < |r| ==> Legal(r[i].0, r[i].1, played) || (i == |r| - 1 && 2 * |r| == |roster|))
  {
    var sorted := SortDesc(roster, Score);
    SortDescCorrect(roster, Score);
    DistinctByMultiset(roster, sorted);
    LaterPairsIsMatching(sorted, played);
    LaterPairsRematchOnlyLast(sorted, played);
    LaterPairsCount(sorted, played);
    forall x | x in Flatten(LaterPairs(sorted, played)) ensures x in roster {
      assert x in multiset(sorted);
    }
  }
}
