/**
 * The two derived queries over the users collection: the leaderboard
 * (`get_leaderboard`: the aggregation `$match best_score > 0`,
 * `$sort best_score -1`, `$limit limit`, then entries numbered from 1) and
 * the rank of `get_user_stats` (one plus the number of users with a
 * strictly greater best score).
 */
module Ranking {
  import opened Records

  /** The `$match` stage: the users with a positive best score, in store order. */
  function Qualifying(users: seq<User>): (q: seq<User>)
    ensures forall i :: 0 <= i < |q| ==> q[i].bestScore > 0
    ensures |q| <= |users|
    decreases |users|
  {
    if |users| == 0 then []
    else if users[0].bestScore > 0 then [users[0]] + Qualifying(users[1..])
    else Qualifying(users[1..])
  }

  /** The `$match` stage keeps every copy of a user with a positive best
      score and drops every other user. */
  lemma {:induction false} QualifyingCount(users: seq<User>, u: User)
    ensures multiset(Qualifying(users))[u] == (if u.bestScore > 0 then multiset(users)[u] else 0)
    decreases |users|
  {
    if |users| > 0 {
      QualifyingCount(users[1..], u);
      assert users == [users[0]] + users[1..];
    }
  }

  lemma QualifyingIsSubMultiset(users: seq<User>)
    ensures multiset(Qualifying(users)) <= multiset(users)
  {
    forall u ensures multiset(Qualifying(users))[u] <= multiset(users)[u] {
      QualifyingCount(users, u);
    }
  }

  predicate ByBestDescending(s: seq<User>) {
    forall i, j :: 0 <= i < j < |s| ==> s[i].bestScore >= s[j].bestScore
  }

  function InsertByBest(u: User, s: seq<User>): (r: seq<User>)
    requires ByBestDescending(s)
    ensures |r| == |s| + 1
    ensures ByBestDescending(r)
    ensures multiset(r) == multiset(s) + multiset{u}
    decreases |s|
  {
    if |s| == 0 || u.bestScore >= s[0].bestScore then [u] + s
    else
      var tail := InsertByBest(u, s[1..]);
      assert s == [s[0]] + s[1..];
      UpperBound(s[0].bestScore, u, s[1..], tail);
      [s[0]] + tail
  }

  /** A score reached by `u` and by every user of `s` is reached by every
      user of a rearrangement of `s` with `u` added. */
  lemma UpperBound(best: int, u: User, s: seq<User>, t: seq<User>)
    requires best >= u.bestScore
    requires forall j :: 0 <= j < |s| ==> best >= s[j].bestScore
    requires multiset(t) == multiset(s) + multiset{u}
    ensures forall j :: 0 <= j < |t| ==> best >= t[j].bestScore
  {
    forall j | 0 <= j < |t| ensures best >= t[j].bestScore {
      assert t[j] in multiset(t);
      if t[j] != u {
        assert t[j] in multiset(s);
        var k :| 0 <= k < |s| && s[k] == t[j];
      }
    }
  }

  /** The `$sort` stage on best score, descending; the order among equal
      best scores is not specified by MongoDB, and any is as good. */
  function SortByBest(s: seq<User>): (r: seq<User>)
    ensures |r| == |s|
    ensures ByBestDescending(r) && multiset(r) == multiset(s)
    decreases |s|
  {
    if |s| == 0 then []
    else
      assert s == [s[0]] + s[1..];
      InsertByBest(s[0], SortByBest(s[1..]))
  }

  function Min(a: int, b: int): int {
    if a <= b then a else b
  }

  /** The users the aggregation returns for a positive `limit`. */
  function TopUsers(users: seq<User>, limit: nat): (top: seq<User>)
    ensures |top| == Min(limit, |Qualifying(users)|)
    ensures ByBestDescending(top)
    ensures forall i :: 0 <= i < |top| ==> top[i].bestScore > 0
    ensures multiset(top) <= multiset(users)
  {
    var sorted := SortByBest(Qualifying(users));
    var top := sorted[..Min(limit, |sorted|)];
    SortedQualifyingPositive(users);
    assert forall i :: 0 <= i < |top| ==> top[i] == sorted[i];
    PrefixSubMultiset(sorted, |top|);
    QualifyingIsSubMultiset(users);
    top
  }

  /** Sorting the `$match` output keeps only positive best scores. */
  lemma SortedQualifyingPositive(users: seq<User>)
    ensures forall i :: 0 <= i < |SortByBest(Qualifying(users))| ==>
              SortByBest(Qualifying(users))[i].bestScore > 0
  {
    var q := Qualifying(users);
    var s := SortByBest(q);
    forall i | 0 <= i < |s| ensures s[i].bestScore > 0 {
      assert s[i] in multiset(q);
      var j :| 0 <= j < |q| && q[j] == s[i];
    }
  }

  /** A prefix keeps at most the copies the whole sequence has. */
  lemma PrefixSubMultiset(s: seq<User>, n: nat)
    requires n <= |s|
    ensures multiset(s[..n]) <= multiset(s)
  {
    assert s == s[..n] + s[n..];
  }

  /** Every qualifying user missing from the top is no better than the last
      one in it: a user whose best score is positive is on the board when
      the board is not full or when the user beats its last entry. */
  lemma TopUsersAreTheBest(users: seq<User>, limit: nat, u: User)
    requires limit > 0
    requires u in users && u.bestScore > 0
    ensures var top := TopUsers(users, limit);
      (|top| < limit || u.bestScore > top[|top| - 1].bestScore) ==> u in top
  {
    var top := TopUsers(users, limit);
    var sorted := SortByBest(Qualifying(users));
    QualifyingCount(users, u);
    assert multiset(Qualifying(users))[u] == multiset(users)[u] > 0;
    assert u in multiset(sorted);
    var k :| 0 <= k < |sorted| && sorted[k] == u;
    assert top == sorted[..|top|];
    if k >= |top| {
      assert |top| == limit;
      assert sorted[|top| - 1].bestScore >= sorted[k].bestScore;
    } else {
      assert top[k] == u;
    }
  }

  /** The entry `enumerate(users, 1)` gives a user at 1-based position `rank`. */
  function EntryOf(u: User, rank: int): (e: LeaderboardEntry)
    ensures e.userId == u.id && e.username == u.username && e.photoUrl == u.photoUrl
    ensures e.bestScore == u.bestScore && e.rank == rank
  {
    LeaderboardEntry(u.id, u.username, u.photoUrl, u.bestScore, rank)
  }

  /** `get_leaderboard(limit)`: MongoDB refuses a `$limit` that is not
      positive; otherwise at most `limit` entries, all with a positive best
      score, best first, ranked 1, 2, ... in list order. */
  function Leaderboard(users: seq<User>, limit: int): (r: Result<seq<LeaderboardEntry>>)
    ensures r.Err? <==> limit <= 0
    ensures r.Err? ==> r.error == InvalidLimit
    ensures r.Ok? ==> |r.value| <= limit && |r.value| == Min(limit, |Qualifying(users)|)
    ensures r.Ok? ==> forall i :: 0 <= i < |r.value| ==> r.value[i].rank == i + 1
    ensures r.Ok? ==> forall i :: 0 <= i < |r.value| ==> r.value[i].bestScore > 0
    ensures r.Ok? ==> forall i, j :: 0 <= i < j < |r.value| ==>
                        r.value[i].bestScore >= r.value[j].bestScore
    ensures r.Ok? ==> forall i :: 0 <= i < |r.value| ==>
                        r.value[i] == EntryOf(TopUsers(users, limit)[i], i + 1)
  {
    if limit <= 0 then Err(InvalidLimit)
    else
      var top := TopUsers(users, limit);
      var board := seq(|top|, i requires 0 <= i < |top| => EntryOf(top[i], i + 1));
      NumberedBoard(top, board);
      Ok(board)
  }

  /** Numbering a best-first list of positive scores gives a board with the
      same order and ranks 1, 2, ... */
  lemma NumberedBoard(top: seq<User>, board: seq<LeaderboardEntry>)
    requires ByBestDescending(top)
    requires forall i :: 0 <= i < |top| ==> top[i].bestScore > 0
    requires |board| == |top|
    requires forall i :: 0 <= i < |board| ==> board[i] == EntryOf(top[i], i + 1)
    ensures forall i :: 0 <= i < |board| ==> board[i].rank == i + 1 && board[i].bestScore > 0
    ensures forall i, j :: 0 <= i < j < |board| ==> board[i].bestScore >= board[j].bestScore
  {
    assert forall i :: 0 <= i < |board| ==> board[i].bestScore == top[i].bestScore;
  }

  /** `count_documents({"best_score": {"$gt": best}})`. */
  function CountAbove(users: seq<User>, best: int): (n: nat)
    ensures n <= |users|
    ensures n == 0 <==> forall j :: 0 <= j < |users| ==> users[j].bestScore <= best
    ensures n == |users| <==> forall j :: 0 <= j < |users| ==> users[j].bestScore > best
    decreases |users|
  {
    if |users| == 0 then 0
    else
      assert forall j :: 0 < j < |users| ==> users[j] == users[1..][j - 1];
      (if users[0].bestScore > best then 1 else 0) + CountAbove(users[1..], best)
  }

  /** The rank `get_user_stats` reports for a best score. */
  function Rank(users: seq<User>, best: int): (r: int)
    ensures 1 <= r <= |users| + 1
  {
    CountAbove(users, best) + 1
  }

  /** A stored user's rank is at most the number of users. */
  lemma {:induction false} RankWithinPopulation(users: seq<User>, u: User)
    requires u in users
    ensures Rank(users, u.bestScore) <= |users|
    decreases |users|
  {
    if users[0] != u {
      RankWithinPopulation(users[1..], u);
    }
  }

  /** A higher best score never ranks lower, and a stored user with a higher
      best score than another ranks strictly ahead of it. */
  lemma {:induction false} RankMonotone(users: seq<User>, u: User, v: User)
    requires u in users && u.bestScore > v.bestScore
    ensures Rank(users, u.bestScore) < Rank(users, v.bestScore)
    decreases |users|
  {
    if users[0] != u {
      RankMonotone(users[1..], u, v);
    } else {
      CountAboveAntitone(users[1..], u.bestScore, v.bestScore);
    }
  }

  lemma {:induction false} CountAboveAntitone(users: seq<User>, a: int, b: int)
    requires a >= b
    ensures CountAbove(users, a) <= CountAbove(users, b)
    decreases |users|
  {
    if |users| > 0 {
      CountAboveAntitone(users[1..], a, b);
    }
  }

  lemma {:induction false} CountAboveAppend(s: seq<User>, t: seq<User>, best: int)
    ensures CountAbove(s + t, best) == CountAbove(s, best) + CountAbove(t, best)
    decreases |s|
  {
    if |s| == 0 {
      assert s + t == t;
    } else {
      CountAboveAppend(s[1..], t, best);
      assert (s + t)[0] == s[0] && (s + t)[1..] == s[1..] + t;
      assert CountAbove(s + t, best)
          == (if s[0].bestScore > best then 1 else 0) + CountAbove(s[1..] + t, best);
    }
  }

  /** Taking one user out of a sequence takes it out of the count. */
  lemma CountAboveRemove(t: seq<User>, k: nat, best: int)
    requires k < |t|
    ensures CountAbove(t, best)
            == CountAbove(t[..k] + t[k + 1..], best) + (if t[k].bestScore > best then 1 else 0)
  {
    var left, right := t[..k], t[k + 1..];
    assert t == left + ([t[k]] + right);
    assert ([t[k]] + right)[0] == t[k] && ([t[k]] + right)[1..] == right;
    assert CountAbove([t[k]] + right, best)
        == (if t[k].bestScore > best then 1 else 0) + CountAbove(right, best);
    CountAboveAppend(left, [t[k]] + right, best);
    CountAboveAppend(left, right, best);
  }

  /** Removing the element that matches the head of a permutation leaves a
      permutation of the tail. */
  lemma PermutationTail(s: seq<User>, t: seq<User>, k: nat)
    requires multiset(s) == multiset(t) && |s| > 0
    requires k < |t| && t[k] == s[0]
    ensures multiset(s[1..]) == multiset(t[..k] + t[k + 1..])
  {
    assert s == [s[0]] + s[1..];
    assert multiset(s[1..]) == multiset(s) - multiset{s[0]};
    assert t == t[..k] + [t[k]] + t[k + 1..];
    assert multiset(t) == multiset(t[..k]) + multiset{t[k]} + multiset(t[k + 1..]);
    assert multiset(t[..k] + t[k + 1..]) == multiset(t[..k]) + multiset(t[k + 1..]);
  }

  /** The count depends only on which users there are, not on their order. */
  lemma {:induction false} CountAbovePermutation(s: seq<User>, t: seq<User>, best: int)
    requires multiset(s) == multiset(t)
    ensures CountAbove(s, best) == CountAbove(t, best)
    decreases |s|
  {
    if |s| == 0 {
      assert |t| == |multiset(t)| == 0;
    } else {
      assert s[0] in multiset(t);
      var k :| 0 <= k < |t| && t[k] == s[0];
      PermutationTail(s, t, k);
      CountAbovePermutation(s[1..], t[..k] + t[k + 1..], best);
      CountAboveRemove(t, k, best);
    }
  }

  /** Users at or below a positive score do not count, so the rank is the
      same over the qualifying users alone. */
  lemma {:induction false} CountAboveQualifying(users: seq<User>, best: int)
    requires best >= 0
    ensures CountAbove(Qualifying(users), best) == CountAbove(users, best)
    decreases |users|
  {
    if |users| > 0 {
      CountAboveQualifying(users[1..], best);
    }
  }

  /** The two queries agree: the rank `get_user_stats` gives the user at
      board position `i` is at most that entry's board rank `i + 1`, and
      equal to it when the entry's score is strictly below the previous
      entry's (equal scores share the first rank of their run). */
  lemma BoardRankAgreesWithRank(users: seq<User>, limit: nat, i: nat)
    requires i < |TopUsers(users, limit)|
    ensures var top := TopUsers(users, limit);
      && Rank(users, top[i].bestScore) <= i + 1
      && ((i == 0 || top[i - 1].bestScore > top[i].bestScore) ==> Rank(users, top[i].bestScore) == i + 1)
  {
    var top := TopUsers(users, limit);
    var sorted := SortByBest(Qualifying(users));
    var best := top[i].bestScore;
    assert top == sorted[..|top|];
    assert sorted[i] == top[i];
    CountAboveQualifying(users, best);
    CountAbovePermutation(Qualifying(users), sorted, best);
    assert sorted == sorted[..i] + sorted[i..];
    CountAboveAppend(sorted[..i], sorted[i..], best);
    CountAroundPosition(sorted, i);
  }

  /** In a best-first list, nobody from position `i` on beats the user at
      `i`, and everybody before `i` does when that user starts a new score. */
  lemma CountAroundPosition(sorted: seq<User>, i: nat)
    requires ByBestDescending(sorted) && i < |sorted|
    ensures CountAbove(sorted[i..], sorted[i].bestScore) == 0
    ensures (i == 0 || sorted[i - 1].bestScore > sorted[i].bestScore) ==>
              CountAbove(sorted[..i], sorted[i].bestScore) == i
  {
    var best := sorted[i].bestScore;
    assert forall j :: 0 <= j < |sorted[i..]| ==> sorted[i..][j] == sorted[i + j];
    if i == 0 || sorted[i - 1].bestScore > best {
      assert forall j :: 0 <= j < |sorted[..i]| ==> sorted[..i][j].bestScore > best;
    }
  }
}
