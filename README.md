# Block Blast game API: a Dafny model of the backend core

This project models the backend API of a Telegram Mini App puzzle game.
Without FastAPI and MongoDB, that backend is a small store. It holds two
collections: users with cumulative stats, and an append-only log of score
records. The routes create, read and update users, submit scores, and answer
two derived queries: the leaderboard and a user's rank. User creation is
guarded by the Telegram init-data check, which builds a sorted data-check
string and compares its HMAC with the `hash` the client sent.

The files:

- `records.dfy` (module `Records`) holds the pydantic records, the errors the
  routes raise, and the documents each write produces: a new user, a user
  after a game, a user after a partial update, and a new score record. It
  also holds `find_one`, which returns the first match in insertion order.
- `text.dfy` (module `Text`) gives Python's `str.split` and `str.join` on one
  character, and Python's string order. It proves split/join round trips and
  that the order is total, antisymmetric and transitive.
- `init_data.dfy` (module `InitData`) models `validate_telegram_init_data`.
  The `try` body is `CheckInitData`; the `except` that turns every failure
  into 401 is `ValidateInitData`.
- `ranking.dfy` (module `Ranking`) holds the leaderboard aggregation
  (`$match`, `$sort`, `$limit`, numbering) and the rank formula, as functions
  with lemmas. It also relates the two ranks. The leaderboard numbers its
  entries 1, 2, 3, ... even when best scores are equal. The stats route gives
  every tied user the same rank, 1 + the number of users with a strictly
  greater best score. So the stats rank of the entry at board position i is
  at most i + 1. It equals i + 1 only for the first entry of a run of equal
  scores. Later entries of the run keep their distinct board ranks but share
  the stats rank of the run's first entry.
- `store.dfy` (module `Store`) holds the class `GameStore`. Its fields are the
  two collections as sequences, plus the bot token. There is one method per
  route, each proved against a specification function. The object invariant
  covers four facts. User ids are unique. Telegram ids are unique. Every
  score record belongs to a stored user. Every user's `games_played`,
  `total_score` and `best_score` equal the count, the sum and the maximum
  (with 0) of that user's score records.

`update_user` answers 404 when MongoDB's `modified_count` is 0. That also
happens when the `$set` leaves the stored user unchanged: the same fields and
the same `updated_at` instant. The model keeps that rule as written.

## Model

| member | source | states |
|---|---|---|
| Records.NewUser | frontend/backend/server.py:36-47 | a created user carries the request's Telegram id, names and photo, starts with `best_score = total_score = games_played = 0`, and has both timestamps set to the creation instant |
| Records.RecordGame | frontend/backend/server.py:218-227 | after a game, `games_played` is one higher and `total_score` is higher by exactly the score; `best_score` is the maximum of the old best and the score, and it changes only when the score is strictly greater; no other field except `updated_at` changes |
| Records.ApplyUpdate | frontend/backend/server.py:187-192 | a field present in the update request is overwritten, an absent one is kept; `updated_at` is set; id, Telegram id, creation time and all three stats are unchanged |
| Records.NewScore | frontend/backend/server.py:211-216 | the logged record carries the request's user id, score and duration, the given id, and the submission instant |
| Records.FirstIndex | frontend/backend/server.py:151 | `find_one` returns the first document that matches, and returns nothing only when none matches |
| Records.FindById | frontend/backend/server.py:167-169 | the lookup by user id finds the first user with that id, or reports that no user has it |
| Records.FindByTelegramId | frontend/backend/server.py:177-179 | the lookup by Telegram id finds the first user with that Telegram id, or reports that no user has it |
| Text.Split | frontend/backend/server.py:111-112 | `str.split` on one character returns at least one piece, and no piece contains the separator |
| Text.Join | frontend/backend/server.py:112 | `str.join` of no pieces is empty; otherwise the result starts with the first piece, and with two or more pieces the separator follows it |
| Text.JoinSplit | frontend/backend/server.py:111-112 | joining the pieces of a split with the same separator gives back the original string |
| Text.SplitJoin | frontend/backend/server.py:111-112 | splitting a join gives back the pieces when no piece contains the separator |
| Text.StrLe | frontend/backend/server.py:111 | Python's string order puts a prefix first, and a string is at most another only when its first code point is no larger |
| Text.StrLeTotal | frontend/backend/server.py:111 | of any two strings, one is at most the other in Python's order |
| Text.StrLeAntisymmetric | frontend/backend/server.py:111 | two strings that are each at most the other are equal |
| Text.StrLeTransitive | frontend/backend/server.py:111 | Python's string order is transitive |
| InitData.PairLe | frontend/backend/server.py:111 | `sorted` compares the `[key, value]` lists by key first, and compares by value only when the keys are equal |
| InitData.AsPair | frontend/backend/server.py:111-112 | a segment unpacks into a key and a value exactly when it contains one `=`; the key and value are its two fields |
| InitData.CheckPairs | frontend/backend/server.py:111 | no data-check pair has the key `hash`: the filter drops every segment whose text before the first `=` is `hash` |
| InitData.CheckPairsDefined | frontend/backend/server.py:111-112 | the data-check pairs exist exactly when every segment is either a `hash` segment or holds one `=`; any other segment makes the unpacking raise |
| InitData.CheckPairsAppend | frontend/backend/server.py:111 | the pairs of two runs of segments laid end to end are the pairs of the first run followed by those of the second, and exist only when both exist |
| InitData.CheckPairsCount | frontend/backend/server.py:111 | each pair occurs among the data-check pairs exactly as often as there are non-`hash` segments that unpack to it |
| InitData.CheckPairsKeeps | frontend/backend/server.py:111 | the pair of every non-`hash` segment is among the data-check pairs |
| InitData.CheckPairsSource | frontend/backend/server.py:111 | every data-check pair is the pair of some non-`hash` segment |
| InitData.SortPairs | frontend/backend/server.py:111 | `sorted` returns a permutation of the pairs, ordered by key and then by value |
| InitData.SortedUnique | frontend/backend/server.py:111 | two sorted permutations of the same pairs are equal, so the sort result does not depend on input order |
| InitData.CheckPairsPermutation | frontend/backend/server.py:111 | reordering the segments keeps the same success or failure and the same multiset of data-check pairs |
| InitData.SortedCheckPairs | frontend/backend/server.py:111-112 | the lines of the data-check string are every non-`hash` pair of the init data, each once, sorted by key and then by value |
| InitData.DataCheckString | frontend/backend/server.py:111-112 | the data-check string can be built exactly when every non-`hash` segment unpacks into a key and a value; with no such pair it is empty |
| InitData.DataCheckStringOrderIndependent | frontend/backend/server.py:111-112 | init data whose segments are a permutation of each other give the same data-check string |
| InitData.DataCheckStringReadsBack | frontend/backend/server.py:112 | when there is at least one pair and no key or value holds a newline, splitting the data-check string on newlines gives one `k=v` line per sorted pair, and each line splits on `=` into exactly that key and value |
| InitData.FieldMap | frontend/backend/server.py:118 | `dict(...)` over the segments succeeds exactly when every segment holds one `=`; every segment's key is in the map, and the final segment's value is stored under its key |
| InitData.FieldMapLastWins | frontend/backend/server.py:118 | a key maps to the value of its last segment: any segment that no later segment shares a key with has its value stored |
| InitData.FieldMapEntry | frontend/backend/server.py:118 | every entry of the map comes from a segment: some segment splits into exactly that key and value, and no later segment has that key |
| InitData.CheckInitData | frontend/backend/server.py:109-129 | the `try` body succeeds only when the received `hash` equals the HMAC of the data-check string, the `user` field is non-empty, and it decodes; it raises 400 exactly when the hash matches and the user is missing |
| InitData.ValidateInitData | frontend/backend/server.py:105-132 | a missing bot token gives 500; otherwise validation succeeds if and only if the hash matches, the user field is present and it decodes; every other failure, including the inner 400, is 401 |
| InitData.MissingUserIsUnauthorized | frontend/backend/server.py:124-132 | correctly signed init data without a user field raises 400 inside the `try` block, and the client sees 401 |
| Ranking.Qualifying | frontend/backend/server.py:250 | the `$match` stage keeps only users with a positive best score and never adds one |
| Ranking.QualifyingCount | frontend/backend/server.py:250 | the `$match` stage keeps every copy of each user whose best score is positive, and drops every other user |
| Ranking.SortByBest | frontend/backend/server.py:251 | the `$sort` stage returns a permutation of its input with best scores in non-increasing order |
| Ranking.TopUsers | frontend/backend/server.py:249-255 | the aggregation returns min(limit, number of qualifying users) users, best first, all with positive best scores, each drawn from the store |
| Ranking.TopUsersAreTheBest | frontend/backend/server.py:249-255 | a user with a positive best score is missing from the result only when the result is full and the user is no better than its last entry |
| Ranking.EntryOf | frontend/backend/server.py:259-265 | an entry carries the user's id, name, photo and best score, with the given rank |
| Ranking.Leaderboard | frontend/backend/server.py:246-268 | a non-positive limit is refused; otherwise the board has at most `limit` entries, only positive best scores, best scores non-increasing, and ranks exactly 1, 2, ..., n in list order |
| Ranking.CountAbove | frontend/backend/server.py:278-280 | the `$gt` count is at most the number of users; it is 0 exactly when nobody has a greater best score, and it is every user exactly when everybody does |
| Ranking.Rank | frontend/backend/server.py:278-281 | the rank is 1 + the `$gt` count, so it lies between 1 and the number of users + 1 |
| Ranking.RankWithinPopulation | frontend/backend/server.py:277-281 | a stored user's rank is between 1 and the number of users |
| Ranking.RankMonotone | frontend/backend/server.py:277-281 | a stored user with a strictly higher best score ranks strictly ahead; users with equal best scores share a rank, because the rank depends only on the score |
| Ranking.CountAbovePermutation | frontend/backend/server.py:278-280 | the `$gt` count depends only on which users are stored, not on their order |
| Ranking.BoardRankAgreesWithRank | frontend/backend/server.py:246-281 | the stats rank of the user at board position i is at most i + 1; it equals i + 1 when that user's score is strictly below the previous entry's |
| Store.BestOf | frontend/backend/server.py:225-227 | the best score a user's log implies is the maximum of 0 and that user's logged scores |
| Store.LogOfStranger | frontend/backend/server.py:43-45 | a user with no score records has zero games, a zero total and a zero best score, matching a new user's defaults |
| Store.NoGamesNoRecords | frontend/backend/server.py:219-220 | a zero game count in the log means the log holds no record for that user |
| Store.UnplayedUserNotOnBoard | frontend/backend/server.py:249-255 | a stored user with no games has a zero total and a zero best score, so no leaderboard lists that user |
| Store.LogAppend | frontend/backend/server.py:216-227 | logging a record changes the count, sum and best of that record's owner only |
| Store.CreatePreservesInvariant | frontend/backend/server.py:150-162 | find-or-create keeps ids and Telegram ids unique, keeps every score owned, and keeps stats equal to the log |
| Store.UpdatePreservesInvariant | frontend/backend/server.py:187-196 | a partial update keeps the store invariant, because it changes no id and no stat |
| Store.SubmitPreservesInvariant | frontend/backend/server.py:204-232 | submitting a score keeps the store invariant: the owner's stats follow the new record and every other user's stats are unchanged |
| Store.SubmitKeepsStats | frontend/backend/server.py:218-232 | after the record is appended and the owner updated, every user's count, total and best still equal the log |
| Store.FindOrCreate | frontend/backend/server.py:150-162 | if a user with the Telegram id exists, the first such user is returned and nothing is inserted; otherwise exactly one new zero-stat user is appended and returned |
| Store.CreateIsIdempotent | frontend/backend/server.py:150-162 | a second create with the same Telegram id returns the same user and inserts nothing, whatever id and instant it is given |
| Store.GameStore.CreateUser | frontend/backend/server.py:141-162 | a failed init-data validation leaves the store unchanged and returns that error; otherwise the store becomes the find-or-create result; the score log never changes; the invariant holds |
| Store.GameStore.GetUser | frontend/backend/server.py:164-172 | returns the first stored user with the requested id, or 404 exactly when no user has it |
| Store.GameStore.GetUserByTelegramId | frontend/backend/server.py:174-182 | returns the first stored user with the requested Telegram id, or 404 exactly when no user has it |
| Store.GameStore.UpdateUser | frontend/backend/server.py:184-200 | an unknown id gives 404 and no change; otherwise the first user with that id is replaced by its updated form and returned, except that an update changing nothing gives 404; the log is untouched |
| Store.GameStore.SubmitScore | frontend/backend/server.py:203-234 | an unknown user id gives 404 and leaves both collections unchanged; otherwise exactly one record is appended, only the owner's user changes (by the game update), and the record is returned |
| Store.GameStore.GetLeaderboard | frontend/backend/server.py:246-268 | the loop that numbers the aggregation result yields exactly the leaderboard specified by `Leaderboard` |
| Store.GameStore.GetUserStats | frontend/backend/server.py:270-281 | 404 exactly when no user has the id; otherwise it returns the first stored user with that id and rank 1 + the number of users with a strictly greater best score, which is between 1 and the number of users |

## Left out

- The FastAPI application, router, CORS middleware and logging configuration are left out. So are the root and `/health` endpoints, the startup index creation and the shutdown hook. They are framework plumbing and I/O.
- The Motor/MongoDB driver and `async`/`await` are left out. Each collection is a sequence in insertion order, and the routes run one at a time.
- Concurrency is left out, and the model runs each route as one step. Two races are not captured. `submit_score` reads the user and then writes the new stats in two separate steps, so two concurrent submissions could lose an update. `create_user` looks up the Telegram id and then inserts, and the startup index on `telegram_id` is not unique, so two concurrent creates for one Telegram id could insert two users. The invariant that Telegram ids are unique holds only because routes run one at a time.
- HMAC-SHA-256 is not computed. It is the parameter `sign(botToken, dataCheckString)`, the hex digest the server compares.
- `json.loads(unquote(...))` of the `user` field is the parameter `decodes`, which only says whether decoding succeeds. The model returns the raw field instead of the decoded dictionary. `create_user` only logs that dictionary.
- An unset bot token (`None`) and an empty one are both the empty string, because the source tests them the same way with `not`.
- `uuid4` ids are parameters. `CreateUser` requires the new id to be unused, because uuid collisions are not modelled.
- `datetime.now` is the parameter `now`, and each route reads it once. A new user takes one instant for both `created_at` and `updated_at`; the source reads the clock twice. `SubmitScore` also gives the score record's `createdAt` and the owner's `updatedAt` the same instant; the source reads the clock once for the record and again for the user.
- `prepare_for_mongo` and `parse_from_mongo` are left out. They convert datetimes to and from strings and drop `_id`.
- `get_user_scores` is left out, and so is the `recent_scores` part of `get_user_stats`. Both depend on the database sorting by `created_at`.
- The default `limit` of 50 on `get_leaderboard` is not modelled. `GetLeaderboard` always takes an explicit limit, so a request without `limit` corresponds to the call `GetLeaderboard(50)`.
- Integers are unbounded. The BSON 64-bit limit on stored scores and totals is not modelled.
- Pydantic's type validation of request bodies is left out. Requests are already well-typed values.
- MongoDB leaves the order of equal best scores unspecified. The model picks one order by insertion sort, and every leaderboard lemma holds whatever order ties take.
- The client-side view layer is not part of this model: tab routing, the game panel and the session bootstrap.
