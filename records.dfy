/**
 * The records of the game's backend API (the pydantic models of
 * frontend/backend/server.py), the errors its routes raise, and the
 * single-document lookups (`find_one`) the routes start from.
 *
 * Ids come from `uuid4` and timestamps from `datetime.now` in the server;
 * here both are plain values handed in by the caller.
 */
module Records {

  datatype Option<+T> = None | Some(value: T) {
    /** The value if present, `default` otherwise. */
    function GetOr(default: T): T {
      match this
      case Some(v) => v
      case None => default
    }
  }

  /** What a route can fail with. */
  datatype Error =
    | NotFound          // HTTP 404 "User not found"
    | Unauthorized      // HTTP 401, the init data did not validate
    | BadRequest        // HTTP 400, raised inside the init-data check only
    | Malformed         // a Python exception inside the init-data check (unpacking, JSON decoding)
    | ServerConfig      // HTTP 500, the bot token is not configured
    | InvalidLimit      // HTTP 500, MongoDB refuses a `$limit` that is not positive

  datatype Result<+T> = Ok(value: T) | Err(error: Error)

  type UserId = string
  type ScoreId = string
  /** An instant as `datetime.now(timezone.utc)` gives it; only equality matters. */
  type Timestamp = int

  /** A stored user document. */
  datatype User = User(
    id: UserId,
    telegramId: Option<int>,
    username: string,
    firstName: Option<string>,
    lastName: Option<string>,
    photoUrl: Option<string>,
    bestScore: int,
    totalScore: int,
    gamesPlayed: int,
    createdAt: Timestamp,
    updatedAt: Timestamp)

  /** The body of `POST /api/users`. */
  datatype UserCreate = UserCreate(
    telegramId: int,
    username: string,
    firstName: Option<string>,
    lastName: Option<string>,
    photoUrl: Option<string>)

  /** The body of `PUT /api/users/{id}`: every field may be absent. */
  datatype UserUpdate = UserUpdate(
    username: Option<string>,
    firstName: Option<string>,
    lastName: Option<string>,
    photoUrl: Option<string>)

  /** A stored score record. */
  datatype GameScore = GameScore(
    id: ScoreId,
    userId: UserId,
    score: int,
    gameDuration: Option<int>,
    createdAt: Timestamp)

  /** The body of `POST /api/scores`. */
  datatype GameScoreCreate = GameScoreCreate(
    userId: UserId,
    score: int,
    gameDuration: Option<int>)

  datatype LeaderboardEntry = LeaderboardEntry(
    userId: UserId,
    username: string,
    photoUrl: Option<string>,
    bestScore: int,
    rank: int)

  /** The user that `create_user` inserts: the request's fields and the
      model's defaults, so every counter starts at zero. */
  function NewUser(req: UserCreate, id: UserId, now: Timestamp): (u: User)
    ensures u.id == id && u.telegramId == Some(req.telegramId)
    ensures u.username == req.username && u.firstName == req.firstName
    ensures u.lastName == req.lastName && u.photoUrl == req.photoUrl
    ensures u.bestScore == 0 && u.totalScore == 0 && u.gamesPlayed == 0
    ensures u.createdAt == now && u.updatedAt == now
  {
    User(id, Some(req.telegramId), req.username, req.firstName, req.lastName,
         req.photoUrl, 0, 0, 0, now, now)
  }

  /** The user after `submit_score` has applied its `update_data`: one more
      game, the score added to the total, and the best score raised to the
      new score only when the new score beats it. */
  function RecordGame(u: User, score: int, now: Timestamp): (r: User)
    ensures r.gamesPlayed == u.gamesPlayed + 1
    ensures r.totalScore == u.totalScore + score
    ensures r.bestScore >= u.bestScore && r.bestScore >= score
    ensures r.bestScore == u.bestScore || r.bestScore == score
    ensures r.bestScore != u.bestScore <==> score > u.bestScore
    ensures r.updatedAt == now
    ensures r.id == u.id && r.telegramId == u.telegramId && r.username == u.username
    ensures r.firstName == u.firstName && r.lastName == u.lastName
    ensures r.photoUrl == u.photoUrl && r.createdAt == u.createdAt
  {
    var best := if score > u.bestScore then score else u.bestScore;
    u.(gamesPlayed := u.gamesPlayed + 1, totalScore := u.totalScore + score,
       bestScore := best, updatedAt := now)
  }

  /** The user after `update_user`'s `$set`: the fields present in the
      request, and `updated_at`; nothing else changes. */
  function ApplyUpdate(u: User, upd: UserUpdate, now: Timestamp): (r: User)
    ensures upd.username.Some? ==> r.username == upd.username.value
    ensures upd.username.None? ==> r.username == u.username
    ensures upd.firstName.Some? ==> r.firstName == upd.firstName
    ensures upd.firstName.None? ==> r.firstName == u.firstName
    ensures upd.lastName.Some? ==> r.lastName == upd.lastName
    ensures upd.lastName.None? ==> r.lastName == u.lastName
    ensures upd.photoUrl.Some? ==> r.photoUrl == upd.photoUrl
    ensures upd.photoUrl.None? ==> r.photoUrl == u.photoUrl
    ensures r.updatedAt == now
    ensures r.id == u.id && r.telegramId == u.telegramId && r.createdAt == u.createdAt
    ensures r.bestScore == u.bestScore && r.totalScore == u.totalScore
    ensures r.gamesPlayed == u.gamesPlayed
  {
    u.(username := upd.username.GetOr(u.username),
       firstName := if upd.firstName.Some? then upd.firstName else u.firstName,
       lastName := if upd.lastName.Some? then upd.lastName else u.lastName,
       photoUrl := if upd.photoUrl.Some? then upd.photoUrl else u.photoUrl,
       updatedAt := now)
  }

  /** The score record that `submit_score` inserts. */
  function NewScore(req: GameScoreCreate, id: ScoreId, now: Timestamp): (s: GameScore)
    ensures s.id == id && s.userId == req.userId && s.score == req.score
    ensures s.gameDuration == req.gameDuration && s.createdAt == now
  {
    GameScore(id, req.userId, req.score, req.gameDuration, now)
  }

  /** The index of the first element satisfying `p`, as MongoDB's
      `find_one` returns the first matching document in natural order. */
  function FirstIndex<T>(s: seq<T>, p: T -> bool): (r: Option<nat>)
    ensures r.Some? ==> r.value < |s| && p(s[r.value])
    ensures r.Some? ==> forall j :: 0 <= j < r.value ==> !p(s[j])
    ensures r.None? ==> forall j :: 0 <= j < |s| ==> !p(s[j])
  {
    if |s| == 0 then None
    else if p(s[0]) then Some(0)
    else match FirstIndex(s[1..], p)
      case None => None
      case Some(k) => Some(k + 1)
  }

  /** `find_one({"id": id})` over the users collection. */
  function FindById(users: seq<User>, id: UserId): (r: Option<nat>)
    ensures r.Some? ==> r.value < |users| && users[r.value].id == id
    ensures r.Some? ==> forall j :: 0 <= j < r.value ==> users[j].id != id
    ensures r.None? <==> forall j :: 0 <= j < |users| ==> users[j].id != id
  {
    FirstIndex(users, (u: User) => u.id == id)
  }

  /** `find_one({"telegram_id": telegramId})` over the users collection. */
  function FindByTelegramId(users: seq<User>, telegramId: int): (r: Option<nat>)
    ensures r.Some? ==> r.value < |users| && users[r.value].telegramId == Some(telegramId)
    ensures r.Some? ==> forall j :: 0 <= j < r.value ==> users[j].telegramId != Some(telegramId)
    ensures r.None? <==> forall j :: 0 <= j < |users| ==> users[j].telegramId != Some(telegramId)
  {
    FirstIndex(users, (u: User) => u.telegramId == Some(telegramId))
  }
}
