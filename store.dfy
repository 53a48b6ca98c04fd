/**
 * The backend's two collections, `users` and the append-only `scores`,
 * held in memory, and the routes that read and write them: `create_user`,
 * `get_user`, `get_user_by_telegram_id`, `update_user`, `submit_score`,
 * `get_leaderboard` and `get_user_stats`.
 *
 * A collection is a sequence in MongoDB's natural (insertion) order, so
 * `find_one` and `update_one` act on the first matching document.
 */
module Store {
  import opened Records
  import opened InitData
  import opened Ranking

  /** Number of logged games of a user. */
  function GamesOf(scores: seq<GameScore>, id: UserId): (n: nat)
    ensures n <= |scores|
    decreases |scores|
  {
    if |scores| == 0 then 0
    else
      var last := scores[|scores| - 1];
      GamesOf(scores[..|scores| - 1], id) + (if last.userId == id then 1 else 0)
  }

  /** Sum of the logged scores of a user. */
  function TotalOf(scores: seq<GameScore>, id: UserId): int
    decreases |scores|
  {
    if |scores| == 0 then 0
    else
      var last := scores[|scores| - 1];
      TotalOf(scores[..|scores| - 1], id) + (if last.userId == id then last.score else 0)
  }

  /** The largest of 0 and the logged scores of a user. */
  function BestOf(scores: seq<GameScore>, id: UserId): (b: int)
    ensures b >= 0
    ensures forall k :: 0 <= k < |scores| && scores[k].userId == id ==> scores[k].score <= b
    ensures b == 0 || exists k :: 0 <= k < |scores| && scores[k].userId == id && scores[k].score == b
    decreases |scores|
  {
    if |scores| == 0 then 0
    else
      var n := |scores| - 1;
      var prefix := scores[..n];
      var before := BestOf(prefix, id);
      assert forall k :: 0 <= k < n ==> scores[k] == prefix[k];
      if scores[n].userId == id && scores[n].score > before then scores[n].score else before
  }

  /** A user nobody has logged a game for has empty aggregates. */
  lemma {:induction false} LogOfStranger(scores: seq<GameScore>, id: UserId)
    requires forall k :: 0 <= k < |scores| ==> scores[k].userId != id
    ensures GamesOf(scores, id) == 0 && TotalOf(scores, id) == 0 && BestOf(scores, id) == 0
    decreases |scores|
  {
    if |scores| > 0 {
      var prefix := scores[..|scores| - 1];
      assert forall k :: 0 <= k < |prefix| ==> prefix[k] == scores[k];
      LogOfStranger(prefix, id);
    }
  }

  predicate UniqueIds(users: seq<User>) {
    forall i, j :: 0 <= i < j < |users| ==> users[i].id != users[j].id
  }

  /** At most one user per Telegram id: `create_user` never inserts a second. */
  predicate UniqueTelegramIds(users: seq<User>) {
    forall i, j :: 0 <= i < j < |users| && users[i].telegramId.Some? ==>
      users[i].telegramId != users[j].telegramId
  }

  /** Every score record belongs to a stored user. */
  predicate ScoresOwned(users: seq<User>, scores: seq<GameScore>) {
    forall k :: 0 <= k < |scores| ==> FindById(users, scores[k].userId).Some?
  }

  /** The cumulative stats of every user agree with the score log. */
  predicate StatsMatchLog(users: seq<User>, scores: seq<GameScore>) {
    forall i :: 0 <= i < |users| ==>
      && users[i].gamesPlayed == GamesOf(scores, users[i].id)
      && users[i].totalScore == TotalOf(scores, users[i].id)
      && users[i].bestScore == BestOf(scores, users[i].id)
  }

  /** What every route keeps true of the two collections. */
  predicate Invariant(users: seq<User>, scores: seq<GameScore>) {
    && UniqueIds(users)
    && UniqueTelegramIds(users)
    && ScoresOwned(users, scores)
    && StatsMatchLog(users, scores)
  }

  lemma OwnedAfterIdsKept(before: seq<User>, after: seq<User>, scores: seq<GameScore>)
    requires ScoresOwned(before, scores)
    requires |before| <= |after|
    requires forall j :: 0 <= j < |before| ==> after[j].id == before[j].id
    ensures ScoresOwned(after, scores)
  {
    forall k | 0 <= k < |scores|
      ensures FindById(after, scores[k].userId).Some?
    {
      var j := FindById(before, scores[k].userId).value;
      assert after[j].id == scores[k].userId;
    }
  }

  /** Appending one record changes only its owner's aggregates. */
  lemma LogAppend(scores: seq<GameScore>, record: GameScore, id: UserId)
    ensures GamesOf(scores + [record], id)
            == GamesOf(scores, id) + (if record.userId == id then 1 else 0)
    ensures TotalOf(scores + [record], id)
            == TotalOf(scores, id) + (if record.userId == id then record.score else 0)
    ensures BestOf(scores + [record], id)
            == if record.userId == id && record.score > BestOf(scores, id) then record.score
               else BestOf(scores, id)
  {
    assert (scores + [record])[..|scores|] == scores;
  }

  /** `create_user` keeps the invariant; the fresh id has no logged games. */
  lemma CreatePreservesInvariant(users: seq<User>, scores: seq<GameScore>, req: UserCreate,
                                 newId: UserId, now: Timestamp)
    requires Invariant(users, scores)
    requires FindById(users, newId).None?
    ensures Invariant(FindOrCreate(users, req, newId, now).0, scores)
  {
    if FindByTelegramId(users, req.telegramId).None? {
      var user := NewUser(req, newId, now);
      var after := users + [user];
      forall k | 0 <= k < |scores|
        ensures scores[k].userId != newId
      {
        assert FindById(users, scores[k].userId).Some?;
      }
      LogOfStranger(scores, newId);
      OwnedAfterIdsKept(users, after, scores);
      assert after[|users|] == user;
    }
  }

  /** `update_user` keeps the invariant: it touches no id and no stat. */
  lemma UpdatePreservesInvariant(users: seq<User>, scores: seq<GameScore>, i: nat,
                                 upd: UserUpdate, now: Timestamp)
    requires Invariant(users, scores) && i < |users|
    ensures Invariant(users[i := ApplyUpdate(users[i], upd, now)], scores)
  {
    var after := users[i := ApplyUpdate(users[i], upd, now)];
    assert forall j :: 0 <= j < |users| ==>
      && after[j].id == users[j].id && after[j].telegramId == users[j].telegramId
      && after[j].gamesPlayed == users[j].gamesPlayed
      && after[j].totalScore == users[j].totalScore
      && after[j].bestScore == users[j].bestScore;
    OwnedAfterIdsKept(users, after, scores);
    assert UniqueIds(after);
    assert UniqueTelegramIds(after);
    assert StatsMatchLog(after, scores);
  }

  /** `submit_score` keeps the invariant: the owner's stats follow its new
      log entry, every other user's log is unchanged. */
  lemma SubmitPreservesInvariant(users: seq<User>, scores: seq<GameScore>, i: nat,
                                 record: GameScore, now: Timestamp)
    requires Invariant(users, scores) && i < |users|
    requires record.userId == users[i].id
    ensures Invariant(users[i := RecordGame(users[i], record.score, now)], scores + [record])
  {
    var after := users[i := RecordGame(users[i], record.score, now)];
    SubmitKeepsOwnership(users, scores, i, after, record);
    SubmitKeepsStats(users, scores, i, after, record, now);
  }

  lemma SubmitKeepsOwnership(users: seq<User>, scores: seq<GameScore>, i: nat,
                             after: seq<User>, record: GameScore)
    requires ScoresOwned(users, scores) && i < |users|
    requires |after| == |users| && forall j :: 0 <= j < |users| ==> after[j].id == users[j].id
    requires record.userId == users[i].id
    ensures ScoresOwned(after, scores + [record])
  {
    var log := scores + [record];
    OwnedAfterIdsKept(users, after, scores);
    forall k | 0 <= k < |log|
      ensures FindById(after, log[k].userId).Some?
    {
      if k == |scores| {
        assert after[i].id == log[k].userId;
      } else {
        assert log[k] == scores[k];
      }
    }
  }

  lemma SubmitKeepsStats(users: seq<User>, scores: seq<GameScore>, i: nat,
                         after: seq<User>, record: GameScore, now: Timestamp)
    requires UniqueIds(users) && StatsMatchLog(users, scores) && i < |users|
    requires record.userId == users[i].id
    requires after == users[i := RecordGame(users[i], record.score, now)]
    ensures StatsMatchLog(after, scores + [record])
  {
    forall j | 0 <= j < |after|
      ensures after[j].gamesPlayed == GamesOf(scores + [record], after[j].id)
      ensures after[j].totalScore == TotalOf(scores + [record], after[j].id)
      ensures after[j].bestScore == BestOf(scores + [record], after[j].id)
    {
      LogAppend(scores, record, users[j].id);
      assert j != i ==> users[j].id != users[i].id;
    }
  }

  lemma {:induction false} NoGamesNoRecords(scores: seq<GameScore>, id: UserId)
    requires GamesOf(scores, id) == 0
    ensures forall k :: 0 <= k < |scores| ==> scores[k].userId != id
    decreases |scores|
  {
    if |scores| > 0 {
      var prefix := scores[..|scores| - 1];
      NoGamesNoRecords(prefix, id);
      assert forall k :: 0 <= k < |prefix| ==> prefix[k] == scores[k];
    }
  }

  /** A stored user who has not played has a zero total and a zero best
      score, so no leaderboard lists it. */
  lemma UnplayedUserNotOnBoard(users: seq<User>, scores: seq<GameScore>, i: nat, limit: nat)
    requires Invariant(users, scores) && i < |users|
    requires users[i].gamesPlayed == 0
    ensures users[i].totalScore == 0 && users[i].bestScore == 0
    ensures users[i] !in TopUsers(users, limit)
  {
    NoGamesNoRecords(scores, users[i].id);
    LogOfStranger(scores, users[i].id);
  }

  /** The users collection and returned user after `create_user` has passed
      init-data validation: the first user with the Telegram id, untouched,
      or a new one appended. */
  function FindOrCreate(users: seq<User>, req: UserCreate, newId: UserId, now: Timestamp)
    : (r: (seq<User>, User))
    ensures FindByTelegramId(users, req.telegramId).Some? ==>
              r.0 == users && r.1 == users[FindByTelegramId(users, req.telegramId).value]
    ensures FindByTelegramId(users, req.telegramId).None? ==>
              r.0 == users + [r.1] && r.1 == NewUser(req, newId, now)
    ensures r.1.telegramId == Some(req.telegramId)
  {
    match FindByTelegramId(users, req.telegramId)
    case Some(i) => (users, users[i])
    case None => var u := NewUser(req, newId, now); (users + [u], u)
  }

  /** A second `create_user` with the same Telegram id returns the user the
      first one returned and inserts nothing, whatever id and time it is
      given. */
  lemma CreateIsIdempotent(users: seq<User>, req: UserCreate, id1: UserId, now1: Timestamp,
                           id2: UserId, now2: Timestamp)
    ensures var (after, user) := FindOrCreate(users, req, id1, now1);
      FindOrCreate(after, req, id2, now2) == (after, user)
  {
    var (after, user) := FindOrCreate(users, req, id1, now1);
    if FindByTelegramId(users, req.telegramId).None? {
      assert after[|users|] == user;
      assert FindByTelegramId(after, req.telegramId) == Some(|users|);
    }
  }

  datatype UserStats = UserStats(user: User, rank: int)

  class GameStore {
    var users: seq<User>
    var scores: seq<GameScore>
    /** TELEGRAM_BOT_TOKEN from the environment; empty when it is not set. */
    const botToken: string

    ghost predicate Valid()
      reads this
    {
      Invariant(users, scores)
    }

    constructor (botToken: string)
      ensures Valid()
      ensures users == [] && scores == [] && this.botToken == botToken
    {
      this.botToken := botToken;
      users := [];
      scores := [];
    }

    /** `POST /api/users`: validate the init data, then find the user by
        Telegram id or insert a new one. */
    method CreateUser(initData: string, sign: (string, string) -> string, decodes: string -> bool,
                      req: UserCreate, newId: UserId, now: Timestamp) returns (r: Result<User>)
      requires Valid()
      requires FindById(users, newId).None?
      modifies this
      ensures Valid()
      ensures scores == old(scores)
      ensures var auth := ValidateInitData(initData, botToken, sign, decodes);
        && (auth.Err? ==> r == Err(auth.error) && users == old(users))
        && (auth.Ok? ==>
              var (after, user) := FindOrCreate(old(users), req, newId, now);
              r == Ok(user) && users == after)
    {
      var auth := ValidateInitData(initData, botToken, sign, decodes);
      if auth.Err? {
        return Err(auth.error);
      }
      CreatePreservesInvariant(users, scores, req, newId, now);
      match FindByTelegramId(users, req.telegramId)
      case Some(i) =>
        r := Ok(users[i]);
      case None =>
        var user := NewUser(req, newId, now);
        users := users + [user];
        r := Ok(user);
    }

    /** `GET /api/users/{user_id}`. */
    method GetUser(userId: UserId) returns (r: Result<User>)
      ensures r.Err? ==> r.error == NotFound
      ensures r.Err? <==> forall j :: 0 <= j < |users| ==> users[j].id != userId
      ensures r.Ok? ==> r.value in users && r.value.id == userId
      ensures r.Ok? ==> FindById(users, userId).Some? && r.value == users[FindById(users, userId).value]
    {
      match FindById(users, userId)
      case None => r := Err(NotFound);
      case Some(i) => r := Ok(users[i]);
    }

    /** `GET /api/users/telegram/{telegram_id}`. */
    method GetUserByTelegramId(telegramId: int) returns (r: Result<User>)
      ensures r.Err? ==> r.error == NotFound
      ensures r.Err? <==> forall j :: 0 <= j < |users| ==> users[j].telegramId != Some(telegramId)
      ensures r.Ok? ==> r.value in users && r.value.telegramId == Some(telegramId)
      ensures r.Ok? ==> FindByTelegramId(users, telegramId).Some?
                        && r.value == users[FindByTelegramId(users, telegramId).value]
    {
      match FindByTelegramId(users, telegramId)
      case None => r := Err(NotFound);
      case Some(i) => r := Ok(users[i]);
    }

    /** `PUT /api/users/{user_id}`: `$set` the present fields and
        `updated_at` on the first user with the id. The route answers 404
        when MongoDB reports no modified document, which is also the case
        when the update leaves the stored user exactly as it was. */
    method UpdateUser(userId: UserId, upd: UserUpdate, now: Timestamp) returns (r: Result<User>)
      requires Valid()
      modifies this
      ensures Valid()
      ensures scores == old(scores)
      ensures FindById(old(users), userId).None? ==> r == Err(NotFound) && users == old(users)
      ensures FindById(old(users), userId).Some? ==>
                var i := FindById(old(users), userId).value;
                var updated := ApplyUpdate(old(users)[i], upd, now);
                if updated == old(users)[i] then r == Err(NotFound) && users == old(users)
                else r == Ok(updated) && users == old(users)[i := updated]
    {
      match FindById(users, userId)
      case None =>
        r := Err(NotFound);
      case Some(i) =>
        var updated := ApplyUpdate(users[i], upd, now);
        if updated == users[i] {
          r := Err(NotFound);
        } else {
          UpdatePreservesInvariant(users, scores, i, upd, now);
          users := users[i := updated];
          r := Ok(updated);
        }
    }

    /** `POST /api/scores`: 404 for an unknown user; otherwise log the score
        and fold it into the owner's stats. */
    method SubmitScore(req: GameScoreCreate, scoreId: ScoreId, now: Timestamp)
      returns (r: Result<GameScore>)
      requires Valid()
      modifies this
      ensures Valid()
      ensures FindById(old(users), req.userId).None? ==>
                r == Err(NotFound) && users == old(users) && scores == old(scores)
      ensures FindById(old(users), req.userId).Some? ==>
                var i := FindById(old(users), req.userId).value;
                && r == Ok(NewScore(req, scoreId, now))
                && scores == old(scores) + [NewScore(req, scoreId, now)]
                && users == old(users)[i := RecordGame(old(users)[i], req.score, now)]
    {
      match FindById(users, req.userId)
      case None =>
        r := Err(NotFound);
      case Some(i) =>
        var record := NewScore(req, scoreId, now);
        SubmitPreservesInvariant(users, scores, i, record, now);
        scores := scores + [record];
        users := users[i := RecordGame(users[i], req.score, now)];
        r := Ok(record);
    }

    /** `GET /api/leaderboard`: number the users the aggregation returns,
        from rank 1, in the order it returns them. */
    method GetLeaderboard(limit: int) returns (r: Result<seq<LeaderboardEntry>>)
      ensures r == Leaderboard(users, limit)
    {
      if limit <= 0 {
        return Err(InvalidLimit);
      }
      var top := TopUsers(users, limit);
      var board: seq<LeaderboardEntry> := [];
      for rank := 1 to |top| + 1
        invariant |board| == rank - 1
        invariant forall k :: 0 <= k < |board| ==> board[k] == EntryOf(top[k], k + 1)
      {
        board := board + [EntryOf(top[rank - 1], rank)];
      }
      assert board == Leaderboard(users, limit).value;
      r := Ok(board);
    }

    /** `GET /api/stats/user/{user_id}`: the user and its rank. */
    method GetUserStats(userId: UserId) returns (r: Result<UserStats>)
      ensures r.Err? ==> r.error == NotFound
      ensures r.Err? <==> forall j :: 0 <= j < |users| ==> users[j].id != userId
      ensures r.Ok? ==> r.value.user in users && r.value.user.id == userId
      ensures r.Ok? ==> FindById(users, userId).Some? && r.value.user == users[FindById(users, userId).value]
      ensures r.Ok? ==> r.value.rank == CountAbove(users, r.value.user.bestScore) + 1
      ensures r.Ok? ==> 1 <= r.value.rank <= |users|
    {
      match FindById(users, userId)
      case None =>
        r := Err(NotFound);
      case Some(i) =>
        RankWithinPopulation(users, users[i]);
        r := Ok(UserStats(users[i], Rank(users, users[i].bestScore)));
    }
  }
}
