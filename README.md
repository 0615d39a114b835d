# Real-time leaderboard: a Dafny model of its score store, account store and guards

This project models the service layer of a small leaderboard server. The server is written in JavaScript on Express and Redis. The model covers:

- **Leaderboard store** (`Leaderboard`). `submitScore` upserts the user's score into the global sorted set `leaderboard:global` and into the game's sorted set `leaderboard:game:<game>`. It then pushes a history record onto the list `user:scores:<userId>`. `getGlobalLeaderboard(limit = 10)` reads the global set with `ZRANGE 0 limit-1 REV WITHSCORES` and numbers the rows from 1.
- **Redis keyspace** (`Store`). A class `Keyspace` holds one map per Redis data type the services use: sorted sets, lists, hashes and strings. The Redis commands are functions on those maps. The `ZRANGE … REV` read is a selection loop proved against a declarative description of the head of a sorted set (`IsRevTop`). Equal scores are ordered by member in descending code-point order, which is Redis's UTF-8 byte order, as Redis orders them under `REV`.
- **Account store** (`Users`). `createUser` checks the case-insensitive index `username:<lowercase name>`, then writes the user hash `user:<id>` and the index entry. It returns the user without its password. `getUserByUsername` and `getUserById` are lookups that return nothing for a missing or empty entry.
- **Connection object** (`Redis`). `RedisClient` has the two fields `client` and `isConnected`. Only the client's `ready` and `error` events and `disconnect` change the flag. `getClient` throws "Redis not connected" while the flag is down, and that guard runs before every store operation. A pure transition function `Step`/`Run` gives the same state machine over traces of events.
- **Score-submission schema** (`ScoreValidator`). The body is an object. `game` is a string of 1 to 50 UTF-16 code units, all from `[a-zA-Z0-9_-]`. `score` is an integer number that is at least 0. The model gives the issue list the schema reports for each kind of bad input.
- **Bearer authentication** (`Auth`). The middleware checks the `Bearer ` prefix and takes field 1 of the header split on single spaces. It verifies the token, sets `req.user` and calls `next`, or answers 401 with one of three messages. Token verification (`src/utils/jwt.js`) is modelled by its shape. The signature check is an abstract parameter.

Each service method is proved against a pure function of the keyspace snapshot (`SubmitEffect`, `CreateEffect`, `UserById`, `UserByUsername`). The lemmas beside those functions state what the source promises.

Nondeterministic and foreign values are parameters of the methods:
- the timestamp from `new Date().toISOString()`;
- the id from `nanoid()`;
- the password hash function from bcrypt;
- the token verifier;
- the transport's success or failure for connect, ping and quit.

The Redis connection and the keyspace are passed to each service object when it is constructed. In the source both services use one module-level connection.

Behaviours of the code that the model keeps as they are:
- Ties in a ranking come back in descending member order, because `ZRANGE … REV` reverses the whole order.
- `connect()` never sets the readiness flag. Only the client's `ready` event does.
- `disconnect()` keeps the client and only clears the flag.
- `getGlobalLeaderboard` passes any `limit` to Redis unchanged. Nothing bounds it: `limit = 0` returns the whole set, and a negative limit counts from the end (`Store.RevRangeLength`).
- The schema measures the game name in UTF-16 code units, as JavaScript does, so a character outside the Basic Multilingual Plane counts twice (`ScoreValidator.Utf16Length`).

## Model

| member | source | states |
|---|---|---|
| Redis.RedisClient.constructor | src/config/redis.js:4-7 | A fresh connection object has no client and is not connected. |
| Redis.RedisClient.Connect | src/config/redis.js:9-38 | Installs the new client whether or not connecting succeeds. Leaves the readiness flag unchanged. Rethrows a connect or ping failure. |
| Redis.RedisClient.OnReady | src/config/redis.js:20-23 | The installed client's `ready` event raises the flag and changes nothing else. |
| Redis.RedisClient.OnError | src/config/redis.js:25-28 | An `error` event lowers the flag and changes nothing else. |
| Redis.RedisClient.Disconnect | src/config/redis.js:40-45 | With a client, a successful quit lowers the flag. A failed quit is rethrown with the flag unchanged. Without a client nothing changes. The client is never cleared. |
| Redis.RedisClient.GetClient | src/config/redis.js:47-52 | Fails with "Redis not connected" exactly when the flag is down. Otherwise returns the installed client. |
| Redis.RedisClient.IsReady | src/config/redis.js:54-56 | Returns the flag and changes nothing. |
| Redis.RunReadiness | src/config/redis.js:9-45 | After any trace of events, the flag is the value set by the last `ready`, `error` or successful quit. Without any of those it keeps its starting value, so `connect` never sets it. |
| Redis.ReadyNeedsReadyEvent | src/config/redis.js:20-23 | From a fresh object, the flag is up only if some `ready` event occurred. |
| Redis.RunKeepsValid | src/config/redis.js:20-45 | Over any trace of events, the flag is only up while a client is installed, so `getClient` never returns a missing client. |
| Store.ZRevRange | src/services/leaderboardService.js:45-50 | `ZRANGE 0 stop REV WITHSCORES` returns `RevRangeLength(n, stop)` members of the set with their scores. They are in strictly descending (score, member) order, and every member left out ranks below all of them. |
| Store.RevRangeLength | src/services/leaderboardService.js:45-50 | Gives the length of the reply. For `stop >= 0` it is min(stop + 1, n). A negative `stop` counts from the end, and the reply is empty when that falls before the start. |
| Store.RevTopUnique | src/services/leaderboardService.js:45-50 | Two replies of the same length over the same set are equal, so rankings and pages are reproducible. |
| Leaderboard.LeaderboardService.SubmitScore | src/services/leaderboardService.js:10-40 | While disconnected it fails with no write. Otherwise the keyspace becomes `SubmitEffect` of the old one, and the result echoes game, score and username with the success message and no rank. |
| Leaderboard.SubmitUpdatesGlobal | src/services/leaderboardService.js:13-16 | The global set maps the user to the new score, replacing any earlier score. Every other member keeps its score. |
| Leaderboard.SubmitUpdatesOnlyItsGame | src/services/leaderboardService.js:18-22 | The set at `leaderboard:game:<game>` maps the user to the new score. Every other game's set is untouched. |
| Leaderboard.SubmitPushesOneRecord | src/services/leaderboardService.js:24-32 | Exactly one record `{game, score, username, timestamp}` goes to the front of the user's history. Older records keep their order behind it. Other users' histories and the account data are unchanged. |
| Leaderboard.ResubmitIdempotentOnIndices | src/services/leaderboardService.js:13-32 | Repeating an identical submission with a later timestamp, as a retry does, leaves both sorted sets as they were after the first. The history gains the retry's record in front of the first one. |
| Leaderboard.ReplayGlobal | src/services/leaderboardService.js:13-16 | After any run of submissions, each user's global score is that of their last submission (last write wins). Users with no submission keep their old score. |
| Leaderboard.ReplayGame | src/services/leaderboardService.js:18-22 | After any run of submissions, a user's score in a game is that of their last submission to that game. Submissions to other games do not affect it. |
| Leaderboard.ReplayHistory | src/services/leaderboardService.js:24-32 | After any run of submissions, a user's history is their records newest first, in front of the earlier history. It grows by one record per submission. |
| Leaderboard.LowerResubmissionReplaces | src/services/leaderboardService.js:18-32 | Submitting 1200 and then 900 to "chess" leaves 900 in the chess ranking and two history records, 900 first. |
| Leaderboard.LeaderboardService.GetGlobalLeaderboard | src/services/leaderboardService.js:42-57 | Fails while disconnected. Otherwise returns min(limit, set size) rows for `limit >= 1` (default 10), ranked 1, 2, … in order. Scores never increase down the list, each row is a member of the global set with its score, and the rows are the head of the set in REV order. |
| Leaderboard.ThreeSubmissionsRanked | src/services/leaderboardService.js:42-57 | After submissions a:100, b:200, c:150, a read with limit 3 is exactly b:1/200, c:2/150, a:3/100. |
| Leaderboard.GameKeyInjective | src/services/leaderboardService.js:18 | Different games never share a sorted-set key. |
| Leaderboard.GameKeyIsNotGlobal | src/services/leaderboardService.js:5-6 | No game's key is the global key. |
| Leaderboard.UserScoresKeyInjective | src/services/leaderboardService.js:24 | Different users never share a history key. |
| Users.UserService.CreateUser | src/services/userService.js:11-38 | Fails with "Redis not connected", or with "Username already exists" when the lower-cased index entry is set and non-empty, writing nothing in either case. Otherwise the keyspace becomes `CreateEffect`, which stores the hash of the password under `user:<id>` and maps the lower-cased name to the id. Returns `{id, username, createdAt}`. |
| Users.PublicFieldsDropOnlyPassword | src/services/userService.js:22-37 | The returned object is the stored one minus exactly `password`. It keeps the original-case username, and the stored `password` is the hash. |
| Users.Lower | src/services/userService.js:14 | Lower-casing keeps the length and maps each character on its own. |
| Users.UsernameKeySameIffSameLower | src/services/userService.js:14 | Two names share an index key exactly when they agree up to case. |
| Users.UserService.GetUserByUsername | src/services/userService.js:40-57 | Fails while disconnected. Otherwise follows the index entry and returns the stored hash. Returns nothing for a missing or empty index entry and for a missing or empty hash. |
| Users.UserService.GetUserById | src/services/userService.js:59-69 | Fails while disconnected. Otherwise returns the stored hash, or nothing when the hash is missing or empty. |
| Users.LookupIgnoresCase | src/services/userService.js:42 | Lookups of names that agree up to case return the same result, and the lower-cased name finds the same user. |
| Users.CreateThenLookup | src/services/userService.js:31-56 | After a create under a fresh, non-empty id, lookup by id and lookup by any name equal up to case both return the stored user. |
| Users.CreateTakesName | src/services/userService.js:14-19 | After a create, a name's index entry is taken exactly when it equals the new name up to case or was taken before, so a second create with such a name fails. |
| Users.CreateKeepsOthers | src/services/userService.js:31-34 | With a fresh id, a create changes no lookup of another id, and no lookup of a name that differs from the new one beyond case. |
| ScoreValidator.Parse | src/validators/scoreValidator.js:3-16 | Succeeds exactly when the body is an object with a string `game` of 1 to 50 UTF-16 code units, all from `[a-zA-Z0-9_-]` and an integer number `score >= 0`. The parsed values equal the inputs. A failure carries at least one issue. |
| ScoreValidator.ScoreBoundaries | src/validators/scoreValidator.js:12-15 | A score of 0 is accepted despite the "positive" message. -1 fails with "Score must be positive" only, and 2.5 fails with "Score must be an integer" only. |
| ScoreValidator.AstralUtf16Length | src/validators/scoreValidator.js:6-7 | A name made only of characters outside the Basic Multilingual Plane is twice as long for the length checks as its character count. |
| ScoreValidator.BmpUtf16Length | src/validators/scoreValidator.js:6-7 | For a name inside the Basic Multilingual Plane, the length checks see exactly its character count. |
| ScoreValidator.GameBoundaries | src/validators/scoreValidator.js:4-11 | The empty name fails both the length and the pattern checks. 51 letters fail only the length check, a name with a space fails only the pattern check, and a non-string is a type issue. |
| ScoreValidator.AstralNameTooLong | src/validators/scoreValidator.js:4-11 | 26 emoji are 52 UTF-16 units, so the name fails both the length check and the pattern check. |
| Auth.BearerTokenIsFirstField | src/middleware/authMiddleware.js:13 | For a header starting with "Bearer ", `split(' ')` has a field 1, and it is the text after the prefix up to the next space. |
| Auth.BearerToken | src/middleware/authMiddleware.js:13 | The token is the longest space-free prefix of what follows "Bearer ". |
| Auth.DoubleSpaceGivesEmptyToken | src/middleware/authMiddleware.js:13 | `"Bearer  x"` yields the empty token. |
| Auth.VerifyToken | src/utils/jwt.js:14-26 | Fails with "JWT_SECRET is not defined" exactly when the secret is unset or empty, and with "Invalid token" when the signature check rejects. Otherwise returns the payload the signature check decoded. |
| Auth.Decide | src/middleware/authMiddleware.js:3-34 | Rejects with 401 "No token provided. Please login" exactly when the header is missing or lacks the case-sensitive "Bearer " prefix. Proceeds exactly when the token verifies, with user `{userId, username}` from the payload. A verification error "Invalid token" gives "Invalid or expired token. Please login again", and any other error gives "Authentication failed". Every rejection is a 401. |
| Auth.DecideWithJwt | src/middleware/authMiddleware.js:14-33 | With the JWT verifier behind it, a missing secret gives "Authentication failed" and a failed signature check gives "Invalid or expired token". |
| Auth.Authenticate | src/middleware/authMiddleware.js:3-34 | Calls `next` exactly when `Decide` proceeds, and then sets `req.user` to the payload's user and leaves the response alone. On every failure it sets status 401 and the message, leaves `req.user` unchanged and does not call `next`. |

## Left out

- Network I/O to Redis: `createClient`, the socket options, host, port and password from the environment (src/config/redis.js:11-18), and `ping` and `quit`. Their outcome is a parameter of `Connect` and `Disconnect`. Every command a service sends after `getClient` succeeds (ZADD, LPUSH, ZRANGE, GET, HSET, SET, HGETALL) is assumed to succeed. A rejected command, which the source would surface as a thrown error, is not modelled. This includes the reads in `getGlobalLeaderboard`, `getUserByUsername` and `getUserById`. Logging to the console is not modelled.
- Redis as a single typed keyspace: each data type has its own map, so a command on a key of the wrong type (WRONGTYPE) is not modelled. The key schemes of the two services never collide as long as user ids contain no `:`.
- Leaderboard.LeaderboardService.SubmitScore: a transport failure between its three writes is not modelled. Once `getClient` succeeds, all three writes apply, so the partial state the source can leave is not represented. Concurrent submissions are not modelled. A run of completed submissions is modelled as sequential (`ApplyAll`).
- Users.UserService.CreateUser: a failure of the GET, HSET or SET command is not modelled. Once `getClient` succeeds, both writes apply. In the source, an HSET that succeeds followed by a SET that fails (src/services/userService.js:33-34) leaves a user hash with no index entry and throws. That partial state is not represented. The check of the index and the two writes are also not atomic in the source: two concurrent creates of the same name can both pass the check, and this is not modelled either.
- Scores are integers. JavaScript numbers and Redis scores are doubles, so rounding of very large scores is not modelled. The schema's numbers are exact reals, with no NaN, no infinities and no safe-integer limit.
- `toLowerCase` is modelled on ASCII letters only. Unicode case mapping is not modelled.
- History records are stored as `ScoreData` records. The JSON text that `JSON.stringify` produces is not modelled.
- `nanoid`, `bcrypt.hash` and the clock are parameters. The freshness of the new id is a precondition of the lemmas that need it, not of `CreateUser`.
- `verifyPassword` (src/services/userService.js:71-73) is only a call to `bcrypt.compare`, a foreign function, so it is not modelled.
- `generateToken` (src/utils/jwt.js:3-12) is not part of this model. `jsonwebtoken`'s signature and expiry check is the abstract parameter of `VerifyToken`.
- Auth.Authenticate: a `next` handler that throws synchronously would be caught and answered with "Authentication failed" after `req.user` was set. `next` is foreign code, so this path is not modelled. The response is modelled as its status and error message only.
- The controllers, routes and server (HTTP marshalling and wiring). The leaderboard routes also name `getGameLeaderboard`, `getUserRank`, `getUserGameRank` and `getUserScoreHistory`, but no service implementing them is part of this model, so their behaviour is not modelled.
