/** The score model: `Player.calculate_total_score` (chess/model/player.py)
    and the leaderboard of `calculate_leaderboard` (chess/model/tournament.py).
    A history is the points dictionaries of every match, round by round. */
module Scoring {
  import opened Common
  import opened OrderedDicts
  import opened Players
  import opened Matches

  type History = seq<seq<Points>>

  /** `match.players[p]` when `p` played the match, nothing otherwise. */
  function PointsIn(p: Player, d: Points): real {
    Get(d, p).GetOr(0.0)
  }

  /** The points `p` collected over a sequence of matches. */
  function MatchesTotal(p: Player, ms: seq<Points>): real {
    if ms == [] then 0.0 else MatchesTotal(p, ms[..|ms| - 1]) + PointsIn(p, ms[|ms| - 1])
  }

  /** The points `p` collected over a history, round by round. */
  function HistoryTotal(p: Player, h: History): real {
    if h == [] then 0.0 else HistoryTotal(p, h[..|h| - 1]) + MatchesTotal(p, h[|h| - 1])
  }

  /** `calculate_total_score(rounds, previous_scores)`: the player's own
      `score` plus the points of every match, in every round, that has the
      player as a key. `previous_scores` is accepted and never read. */
  function CalculateTotalScore(p: Player, rounds: History, previousScores: Dict<string, real>): real {
    p.score + HistoryTotal(p, rounds)
  }

  predicate PlaysIn(p: Player, h: History) {
    exists i, j :: 0 <= i < |h| && 0 <= j < |h[i]| && p in Keys(h[i][j])
  }


  lemma {:induction false} MatchesTotalAbsent(p: Player, ms: seq<Points>)
    requires forall j :: 0 <= j < |ms| ==> p !in Keys(ms[j])
    ensures MatchesTotal(p, ms) == 0.0
  {
    if ms != [] {
      MatchesTotalAbsent(p, ms[..|ms| - 1]);
    }
  }

  /** A player who appears in no match keeps exactly the base `score`. */
  lemma {:induction false} TotalOfAbsentPlayer(p: Player, h: History, previousScores: Dict<string, real>)
    requires !PlaysIn(p, h)
    ensures CalculateTotalScore(p, h, previousScores) == p.score
  {
    if h != [] {
      var init := h[..|h| - 1];
      assert !PlaysIn(p, init) by {
        forall i | 0 <= i < |init| ensures init[i] == h[i] {}
      }
      TotalOfAbsentPlayer(p, init, previousScores);
      MatchesTotalAbsent(p, h[|h| - 1]);
    }
  }

  lemma {:induction false} MatchesTotalAppend(p: Player, a: seq<Points>, b: seq<Points>)
    ensures MatchesTotal(p, a + b) == MatchesTotal(p, a) + MatchesTotal(p, b)
  {
    if b != [] {
      assert (a + b)[..|a + b| - 1] == a + b[..|b| - 1];
      MatchesTotalAppend(p, a, b[..|b| - 1]);
    } else {
      assert a + b == a;
    }
  }

  /** The total is a sum over rounds: splitting the history anywhere splits
      the collected points, so appending matches to the last round or a new
      round adds exactly their points. */
  lemma {:induction false} HistoryTotalAppend(p: Player, a: History, b: History)
    ensures HistoryTotal(p, a + b) == HistoryTotal(p, a) + HistoryTotal(p, b)
  {
    if b != [] {
      assert (a + b)[..|a + b| - 1] == a + b[..|b| - 1];
      HistoryTotalAppend(p, a, b[..|b| - 1]);
    } else {
      assert a + b == a;
    }
  }

  /** One more round raises the total by exactly the player's points in
      that round, whatever `previous_scores` is passed on either call. */
  lemma TotalAfterNewRound(p: Player, h: History, round: seq<Points>,
                           before: Dict<string, real>, after: Dict<string, real>)
    ensures CalculateTotalScore(p, h + [round], after)
            == CalculateTotalScore(p, h, before) + MatchesTotal(p, round)
  {
    HistoryTotalAppend(p, h, [round]);
    assert HistoryTotal(p, [round]) == HistoryTotal(p, []) + MatchesTotal(p, round);
  }

  // ---------------------------------------------------------------------
  // `sorted(..., key=k, reverse=True)`: a stable sort, descending by key.

  /** Insert `x` after every element whose key is at least `key(x)`. */
  function InsertDesc<T>(x: T, s: seq<T>, key: T -> real): (r: seq<T>)
    ensures |r| == |s| + 1
  {
    if s == [] then [x]
    else if key(s[0]) < key(x) then [x] + s
    else [s[0]] + InsertDesc(x, s[1..], key)
  }

  /** Insertion sort that inserts the elements in input order, so elements
      with equal keys keep the order they had. */
  function SortDesc<T>(s: seq<T>, key: T -> real): (r: seq<T>)
    ensures |r| == |s|
  {
    if s == [] then [] else InsertDesc(s[|s| - 1], SortDesc(s[..|s| - 1], key), key)
  }

  predicate Descending<T>(s: seq<T>, key: T -> real) {
    forall i, j :: 0 <= i < j < |s| ==> key(s[i]) >= key(s[j])
  }

  /** The elements of `s` whose key is `v`, in order. */
  function WithKey<T>(s: seq<T>, key: T -> real, v: real): seq<T> {
    if s == [] then []
    else (if key(s[0]) == v then [s[0]] else []) + WithKey(s[1..], key, v)
  }

  lemma {:induction false} InsertDescMultiset<T>(x: T, s: seq<T>, key: T -> real)
    ensures multiset(InsertDesc(x, s, key)) == multiset(s) + multiset{x}
  {
    if s != [] && key(s[0]) >= key(x) {
      InsertDescMultiset(x, s[1..], key);
      assert s == [s[0]] + s[1..];
    }
  }

  lemma {:induction false} InsertDescBound<T>(x: T, s: seq<T>, key: T -> real, b: real)
    requires key(x) <= b && forall i :: 0 <= i < |s| ==> key(s[i]) <= b
    ensures forall i :: 0 <= i < |s| + 1 ==> key(InsertDesc(x, s, key)[i]) <= b
  {
    if s != [] && key(s[0]) >= key(x) {
      InsertDescBound(x, s[1..], key, b);
      assert InsertDesc(x, s, key) == [s[0]] + InsertDesc(x, s[1..], key);
    }
  }

  lemma DescendingTail<T>(s: seq<T>, key: T -> real)
    requires Descending(s, key) && s != []
    ensures Descending(s[1..], key)
    ensures forall i :: 0 <= i < |s| - 1 ==> key(s[1..][i]) <= key(s[0])
  {
    forall i, j | 0 <= i < j < |s| - 1 ensures key(s[1..][i]) >= key(s[1..][j]) {
      assert s[1..][i] == s[i + 1] && s[1..][j] == s[j + 1];
    }
  }

  lemma {:induction false} InsertDescSorted<T>(x: T, s: seq<T>, key: T -> real)
    requires Descending(s, key)
    ensures Descending(InsertDesc(x, s, key), key)
  {
    if s != [] && key(s[0]) >= key(x) {
      DescendingTail(s, key);
      InsertDescSorted(x, s[1..], key);
      InsertDescBound(x, s[1..], key, key(s[0]));
      var r := InsertDesc(x, s, key);
      assert r == [s[0]] + InsertDesc(x, s[1..], key);
      forall i, j | 0 <= i < j < |r| ensures key(r[i]) >= key(r[j]) {
        assert r[j] == InsertDesc(x, s[1..], key)[j - 1];
        if i > 0 {
          assert r[i] == InsertDesc(x, s[1..], key)[i - 1];
        }
      }
    }
  }

  lemma {:induction false} InsertDescWithKey<T>(x: T, s: seq<T>, key: T -> real, v: real)
    requires Descending(s, key)
    ensures WithKey(InsertDesc(x, s, key), key, v) == WithKey(s, key, v) + (if key(x) == v then [x] else [])
  {
    if s == [] {
    } else if key(s[0]) < key(x) {
      assert ([x] + s)[1..] == s;
      if key(x) == v {
        WithKeyBelow(s, key, v, key(x));
      }
    } else {
      DescendingTail(s, key);
      InsertDescWithKey(x, s[1..], key, v);
      assert InsertDesc(x, s, key)[1..] == InsertDesc(x, s[1..], key);
    }
  }

  /** Every key in a descending sequence whose head is below `w` is below `w`. */
  lemma {:induction false} WithKeyBelow<T>(s: seq<T>, key: T -> real, v: real, w: real)
    requires Descending(s, key) && (s != [] ==> key(s[0]) < w) && v >= w
    ensures WithKey(s, key, v) == []
  {
    if s != [] {
      DescendingTail(s, key);
      if |s| > 1 {
        assert key(s[1]) <= key(s[0]);
      }
      WithKeyBelow(s[1..], key, v, w);
    }
  }

  lemma {:induction false} WithKeyAppend<T>(a: seq<T>, b: seq<T>, key: T -> real, v: real)
    ensures WithKey(a + b, key, v) == WithKey(a, key, v) + WithKey(b, key, v)
  {
    if a != [] {
      assert (a + b)[1..] == a[1..] + b;
      WithKeyAppend(a[1..], b, key, v);
    } else {
      assert a + b == b;
    }
  }

  /** The sort returns a permutation of its input, in descending key order,
      and elements with equal keys keep their relative order (stability). */
  lemma {:induction false} SortDescCorrect<T>(s: seq<T>, key: T -> real)
    ensures multiset(SortDesc(s, key)) == multiset(s)
    ensures Descending(SortDesc(s, key), key)
    ensures forall v :: WithKey(SortDesc(s, key), key, v) == WithKey(s, key, v)
  {
    if s != [] {
      var init, x := s[..|s| - 1], s[|s| - 1];
      SortDescCorrect(init, key);
      InsertDescMultiset(x, SortDesc(init, key), key);
      InsertDescSorted(x, SortDesc(init, key), key);
      assert s == init + [x];
      forall v ensures WithKey(SortDesc(s, key), key, v) == WithKey(s, key, v) {
        InsertDescWithKey(x, SortDesc(init, key), key, v);
        WithKeyAppend(init, [x], key, v);
      }
    }
  }

  // ---------------------------------------------------------------------
  // `calculate_leaderboard`

  /** `[f(x) for x in s]`. */
  function Map<T, U>(f: T -> U, s: seq<T>): (r: seq<U>)
    ensures |r| == |s| && forall i :: 0 <= i < |s| ==> r[i] == f(s[i])
  {
    if s == [] then [] else [f(s[0])] + Map(f, s[1..])
  }

  lemma {:induction false} MapInsertDesc<T, U>(f: T -> U, x: T, s: seq<T>, key: T -> real)
    ensures multiset(Map(f, InsertDesc(x, s, key))) == multiset(Map(f, s)) + multiset{f(x)}
  {
    if s != [] && key(s[0]) >= key(x) {
      MapInsertDesc(f, x, s[1..], key);
      assert Map(f, InsertDesc(x, s, key)) == [f(s[0])] + Map(f, InsertDesc(x, s[1..], key));
    }
  }

  lemma {:induction false} MapAppend<T, U>(f: T -> U, a: seq<T>, b: seq<T>)
    ensures Map(f, a + b) == Map(f, a) + Map(f, b)
  {
    if a != [] {
      assert (a + b)[1..] == a[1..] + b;
      MapAppend(f, a[1..], b);
    } else {
      assert a + b == b;
    }
  }

  /** Sorting permutes the elements, so it also permutes any projection of them. */
  lemma {:induction false} MapSortDesc<T, U>(f: T -> U, s: seq<T>, key: T -> real)
    ensures multiset(Map(f, SortDesc(s, key))) == multiset(Map(f, s))
  {
    if s != [] {
      var init := s[..|s| - 1];
      MapSortDesc(f, init, key);
      MapInsertDesc(f, s[|s| - 1], SortDesc(init, key), key);
      MapAppend(f, init, [s[|s| - 1]]);
      assert init + [s[|s| - 1]] == s;
    }
  }

  /** Each roster player paired with its `calculate_total_score`, in roster order. */
  function Totals(players: seq<Player>, rounds: History, previousScores: Dict<string, real>)
    : (totals: seq<(Player, real)>)
    ensures |totals| == |players|
    ensures forall i :: 0 <= i < |players| ==>
              totals[i] == (players[i], CalculateTotalScore(players[i], rounds, previousScores))
  {
    seq(|players|, i requires 0 <= i < |players| =>
          (players[i], CalculateTotalScore(players[i], rounds, previousScores)))
  }

  function Total(e: (Player, real)): real { e.1 }

  /** The `(player, total)` list of `calculate_leaderboard`, sorted by total,
      highest first, ties in roster order. */
  function Leaderboard(players: seq<Player>, rounds: History, previousScores: Dict<string, real>)
    : seq<(Player, real)>
  {
    SortDesc(Totals(players, rounds, previousScores), Total)
  }

  /** `{f"{player.firstname} {player.lastname}": score for player, score in board}`,
      from entry `i` of the board on, into the dictionary `d` built so far:
      a later entry with an already-seen name overwrites the value in place. */
  function ScoresFrom(d: Dict<string, real>, board: seq<(Player, real)>, i: nat): Dict<string, real>
    decreases |board| - i
  {
    if i >= |board| then d
    else ScoresFrom(Put(d, Fullname(board[i].0), board[i].1), board, i + 1)
  }

  /** The whole comprehension, from an empty dictionary. */
  function ScoresByName(board: seq<(Player, real)>): Dict<string, real> {
    ScoresFrom([], board, 0)
  }

  function EntryName(e: (Player, real)): string { Fullname(e.0) }

  function Fullnames(players: seq<Player>): (names: seq<string>)
    ensures |names| == |players| && forall i :: 0 <= i < |players| ==> names[i] == Fullname(players[i])
  {
    seq(|players|, i requires 0 <= i < |players| => Fullname(players[i]))
  }

  /** With distinct names, a dictionary holding the first `i` entries of
      the board, in order, ends up holding all of them, in order. */
  lemma {:induction false} ScoresFromDistinct(d: Dict<string, real>, board: seq<(Player, real)>, i: nat)
    requires i <= |board| && Distinct(Map(EntryName, board))
    requires |d| == i && forall j :: 0 <= j < i ==> d[j] == (EntryName(board[j]), board[j].1)
    ensures |ScoresFrom(d, board, i)| == |board|
    ensures forall j :: 0 <= j < |board| ==> ScoresFrom(d, board, i)[j] == (EntryName(board[j]), board[j].1)
    decreases |board| - i
  {
    if i < |board| {
      var name := EntryName(board[i]);
      forall j | 0 <= j < i ensures Keys(d)[j] != name {
        assert Map(EntryName, board)[j] != Map(EntryName, board)[i];
      }
      var next := Put(d, name, board[i].1);
      assert next == d + [(name, board[i].1)];
      ScoresFromDistinct(next, board, i + 1);
    }
  }

  /** With distinct full names the dictionary is the board itself, keyed by
      full name. */
  lemma ScoresByNameDistinct(board: seq<(Player, real)>)
    requires Distinct(Map(EntryName, board))
    ensures |ScoresByName(board)| == |board|
    ensures forall i :: 0 <= i < |board| ==> ScoresByName(board)[i] == (EntryName(board[i]), board[i].1)
  {
    ScoresFromDistinct([], board, 0);
  }

  /** The dictionary `calculate_leaderboard` stores in `players_score`. */
  function PlayersScore(players: seq<Player>, rounds: History, previousScores: Dict<string, real>)
    : Dict<string, real>
  {
    ScoresByName(Leaderboard(players, rounds, previousScores))
  }

  /** The board holds the roster's players, so its names are the roster's
      names, in another order. */
  lemma LeaderboardNames(players: seq<Player>, rounds: History, previousScores: Dict<string, real>)
    requires Distinct(Fullnames(players))
    ensures multiset(Map(EntryName, Leaderboard(players, rounds, previousScores))) == multiset(Fullnames(players))
    ensures Distinct(Map(EntryName, Leaderboard(players, rounds, previousScores)))
  {
    LeaderboardNamesAll(players, rounds, previousScores);
    DistinctByMultiset(Fullnames(players), Map(EntryName, Leaderboard(players, rounds, previousScores)));
  }

  /** With distinct names, every board entry becomes one item of the
      dictionary, in board order. */
  lemma LeaderboardEntries(players: seq<Player>, rounds: History, previousScores: Dict<string, real>)
    requires Distinct(Fullnames(players))
    ensures var board := Leaderboard(players, rounds, previousScores);
            var scores := PlayersScore(players, rounds, previousScores);
            |scores| == |board| == |players|
            && forall k :: 0 <= k < |board| ==> scores[k] == (EntryName(board[k]), board[k].1)
  {
    LeaderboardNames(players, rounds, previousScores);
    ScoresByNameDistinct(Leaderboard(players, rounds, previousScores));
  }

  /** What `calculate_leaderboard` stores in `players_score`, when the full
      names are distinct: every roster player's full name maps to that
      player's total, the names are exactly the roster's, and they are
      ordered by total, highest first. */
  lemma LeaderboardScores(players: seq<Player>, rounds: History, previousScores: Dict<string, real>)
    requires Distinct(Fullnames(players))
    ensures |PlayersScore(players, rounds, previousScores)| == |players|
    ensures multiset(Keys(PlayersScore(players, rounds, previousScores))) == multiset(Fullnames(players))
    ensures forall i :: 0 <= i < |players| ==>
              Get(PlayersScore(players, rounds, previousScores), Fullname(players[i]))
              == Some(CalculateTotalScore(players[i], rounds, previousScores))
    ensures var scores := PlayersScore(players, rounds, previousScores);
            forall i, j :: 0 <= i < j < |scores| ==> scores[i].1 >= scores[j].1
  {
    LeaderboardEntries(players, rounds, previousScores);
    LeaderboardKeys(players, rounds, previousScores);
    LeaderboardOrder(players, rounds, previousScores);
    LeaderboardLookup(players, rounds, previousScores);
  }

  lemma LeaderboardDescending(players: seq<Player>, rounds: History, previousScores: Dict<string, real>)
    ensures Descending(Leaderboard(players, rounds, previousScores), Total)
  {
    SortDescCorrect(Totals(players, rounds, previousScores), Total);
  }

  lemma LeaderboardKeys(players: seq<Player>, rounds: History, previousScores: Dict<string, real>)
    requires Distinct(Fullnames(players))
    ensures multiset(Keys(PlayersScore(players, rounds, previousScores))) == multiset(Fullnames(players))
  {
    var board := Leaderboard(players, rounds, previousScores);
    var scores := PlayersScore(players, rounds, previousScores);
    LeaderboardNames(players, rounds, previousScores);
    LeaderboardEntries(players, rounds, previousScores);
    assert Keys(scores) == Map(EntryName, board);
  }

  lemma LeaderboardOrder(players: seq<Player>, rounds: History, previousScores: Dict<string, real>)
    requires Distinct(Fullnames(players))
    ensures var scores := PlayersScore(players, rounds, previousScores);
            forall i, j :: 0 <= i < j < |scores| ==> scores[i].1 >= scores[j].1
  {
    var board := Leaderboard(players, rounds, previousScores);
    var scores := PlayersScore(players, rounds, previousScores);
    LeaderboardEntries(players, rounds, previousScores);
    LeaderboardDescending(players, rounds, previousScores);
    forall i, j | 0 <= i < j < |scores| ensures scores[i].1 >= scores[j].1 {
      assert scores[i].1 == Total(board[i]) && scores[j].1 == Total(board[j]);
    }
  }

  lemma LeaderboardLookup(players: seq<Player>, rounds: History, previousScores: Dict<string, real>)
    requires Distinct(Fullnames(players))
    ensures forall i :: 0 <= i < |players| ==>
              Get(PlayersScore(players, rounds, previousScores), Fullname(players[i]))
              == Some(CalculateTotalScore(players[i], rounds, previousScores))
  {
    var totals := Totals(players, rounds, previousScores);
    var board := Leaderboard(players, rounds, previousScores);
    var scores := PlayersScore(players, rounds, previousScores);
    LeaderboardNames(players, rounds, previousScores);
    LeaderboardEntries(players, rounds, previousScores);
    SortDescCorrect(totals, Total);
    assert Keys(scores) == Map(EntryName, board);
    GetItems(scores);
    forall i | 0 <= i < |players|
      ensures Get(scores, Fullname(players[i])) == Some(CalculateTotalScore(players[i], rounds, previousScores))
    {
      assert totals[i] in multiset(board);
      var k :| 0 <= k < |board| && board[k] == totals[i];
      assert scores[k] == (Fullname(players[i]), totals[i].1);
    }
  }

  // ---------------------------------------------------------------------
  // The dictionary when two players share a full name

  /** Board entry `j` is the last one with its full name: every later entry
      has another name, so nothing overwrites its value afterwards. */
  predicate LastOfName(board: seq<(Player, real)>, j: nat) {
    j < |board| && forall l :: j < l < |board| ==> EntryName(board[l]) != EntryName(board[j])
  }

  /** A name no entry from `i` on carries keeps the value it had in `d`. */
  lemma {:induction false} ScoresFromAbsent(d: Dict<string, real>, board: seq<(Player, real)>, i: nat, n: string)
    requires i <= |board|
    requires forall j :: i <= j < |board| ==> EntryName(board[j]) != n
    ensures Get(ScoresFrom(d, board, i), n) == Get(d, n)
    decreases |board| - i
  {
    if i < |board| {
      ScoresFromAbsent(Put(d, EntryName(board[i]), board[i].1), board, i + 1, n);
    }
  }

  /** The entry that comes last with its name decides that name's value. */
  lemma {:induction false} ScoresFromLast(d: Dict<string, real>, board: seq<(Player, real)>, i: nat, j: nat)
    requires i <= j && LastOfName(board, j)
    ensures Get(ScoresFrom(d, board, i), EntryName(board[j])) == Some(board[j].1)
    decreases |board| - i
  {
    var next := Put(d, EntryName(board[i]), board[i].1);
    if i == j {
      ScoresFromAbsent(next, board, i + 1, EntryName(board[j]));
    } else {
      ScoresFromLast(next, board, i + 1, j);
    }
  }

  /** Every entry's name has a last entry carrying it, at or after it. */
  lemma {:induction false} LastOfNameExists(board: seq<(Player, real)>, j: nat)
    requires j < |board|
    ensures exists l :: j <= l && LastOfName(board, l) && EntryName(board[l]) == EntryName(board[j])
    decreases |board| - j
  {
    if !LastOfName(board, j) {
      var l :| j < l < |board| && EntryName(board[l]) == EntryName(board[j]);
      LastOfNameExists(board, l);
    }
  }

  /** Whatever the names, a name is a key of the comprehension's
      dictionary exactly when some board entry carries it, and it then
      holds the value of the last entry carrying it. */
  lemma ScoresByNameValue(board: seq<(Player, real)>, n: string)
    ensures Get(ScoresByName(board), n).Some? <==> n in Map(EntryName, board)
    ensures n in Map(EntryName, board) ==>
              exists l: nat :: LastOfName(board, l) && EntryName(board[l]) == n
                && Get(ScoresByName(board), n) == Some(board[l].1)
  {
    if n in Map(EntryName, board) {
      var j :| 0 <= j < |board| && Map(EntryName, board)[j] == n;
      LastOfNameExists(board, j);
      var l :| j <= l && LastOfName(board, l) && EntryName(board[l]) == n;
      ScoresFromLast([], board, 0, l);
    } else {
      ScoresFromAbsent([], board, 0, n);
    }
  }

  /** Whatever the names, the board holds the roster's names, in another
      order. */
  lemma LeaderboardNamesAll(players: seq<Player>, rounds: History, previousScores: Dict<string, real>)
    ensures multiset(Map(EntryName, Leaderboard(players, rounds, previousScores))) == multiset(Fullnames(players))
  {
    var totals := Totals(players, rounds, previousScores);
    MapSortDesc(EntryName, totals, Total);
    assert Map(EntryName, totals) == Fullnames(players);
  }

  /** Every board entry is a roster player with its total. */
  lemma LeaderboardEntryIsTotal(players: seq<Player>, rounds: History, previousScores: Dict<string, real>, j: nat)
    requires j < |Leaderboard(players, rounds, previousScores)|
    ensures var e := Leaderboard(players, rounds, previousScores)[j];
            e.0 in players && e.1 == CalculateTotalScore(e.0, rounds, previousScores)
  {
    var totals := Totals(players, rounds, previousScores);
    var board := Leaderboard(players, rounds, previousScores);
    SortDescCorrect(totals, Total);
    assert board[j] in multiset(totals);
    var i :| 0 <= i < |totals| && totals[i] == board[j];
  }

  /** Whatever the names, the entry that comes last on the sorted board
      with its full name is a roster player, and `players_score` holds that
      player's total under that name. */
  lemma LeaderboardLastOfName(players: seq<Player>, rounds: History, previousScores: Dict<string, real>, j: nat)
    requires LastOfName(Leaderboard(players, rounds, previousScores), j)
    ensures var board := Leaderboard(players, rounds, previousScores);
            board[j].0 in players
            && Get(PlayersScore(players, rounds, previousScores), EntryName(board[j]))
               == Some(CalculateTotalScore(board[j].0, rounds, previousScores))
  {
    LeaderboardEntryIsTotal(players, rounds, previousScores, j);
    ScoresFromLast([], Leaderboard(players, rounds, previousScores), 0, j);
  }

  /** Whatever the names, the keys of `players_score` are exactly the
      roster's full names. */
  lemma LeaderboardKeysShared(players: seq<Player>, rounds: History, previousScores: Dict<string, real>, n: string)
    ensures Get(PlayersScore(players, rounds, previousScores), n).Some? <==> n in Fullnames(players)
  {
    var names := Map(EntryName, Leaderboard(players, rounds, previousScores));
    LeaderboardNamesAll(players, rounds, previousScores);
    ScoresByNameValue(Leaderboard(players, rounds, previousScores), n);
    assert n in names <==> n in multiset(names);
  }

  /** Whatever the names, every key of `players_score` holds the total of a
      roster player with that full name: with a shared name, one of the
      totals is kept and the others are lost. */
  lemma LeaderboardValuesShared(players: seq<Player>, rounds: History, previousScores: Dict<string, real>, n: string)
    requires Get(PlayersScore(players, rounds, previousScores), n).Some?
    ensures exists p :: p in players && Fullname(p) == n
              && Get(PlayersScore(players, rounds, previousScores), n) == Some(CalculateTotalScore(p, rounds, previousScores))
  {
    var board := Leaderboard(players, rounds, previousScores);
    ScoresByNameValue(board, n);
    var l: nat :| LastOfName(board, l) && EntryName(board[l]) == n && Get(ScoresByName(board), n) == Some(board[l].1);
    LeaderboardEntryIsTotal(players, rounds, previousScores, l);
  }
}
