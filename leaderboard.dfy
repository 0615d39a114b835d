/**
 * The leaderboard service (src/services/leaderboardService.js): score
 * submission into the global and per-game sorted sets plus the per-user
 * history list, and the ranked read of the global sorted set.
 */
module Leaderboard {
  import opened Wrappers
  import opened Store
  import Redis

  // Key scheme, as set up by the service's constructor.
  const GlobalLeaderboardKey: string := "leaderboard:global"
  const GameLeaderboardPrefix: string := "leaderboard:game:"
  const UserScoresPrefix: string := "user:scores:"

  const SubmittedMessage: string := "Score submitted successfully"

  /** The default of `limit` in getGlobalLeaderboard. */
  const DefaultLimit: int := 10

  function GameKey(game: string): string
  {
    GameLeaderboardPrefix + game
  }

  function UserScoresKey(userId: string): string
  {
    UserScoresPrefix + userId
  }

  /** What submitScore returns: an echo of its input and a message, no rank. */
  datatype SubmitResult = SubmitResult(message: string, game: string, score: int, username: string)

  /** One row of a ranked read. */
  datatype RankedEntry = RankedEntry(rank: int, userId: string, score: int)

  /** The global ranking in a keyspace snapshot. */
  function GlobalBoard(s: Db): ZSet
  {
    ZSetAt(s.zsets, GlobalLeaderboardKey)
  }

  /** The ranking of one game in a keyspace snapshot. */
  function GameBoard(s: Db, game: string): ZSet
  {
    ZSetAt(s.zsets, GameKey(game))
  }

  /** A user's score history, newest first. */
  function History(s: Db, userId: string): seq<ScoreData>
  {
    ListAt(s.lists, UserScoresKey(userId))
  }

  // ---------------------------------------------------------------------
  // Keys of different games, of the global board and of different users never meet

  lemma GameKeyInjective(g1: string, g2: string)
    ensures GameKey(g1) == GameKey(g2) ==> g1 == g2
  {
    PrefixCancel(GameLeaderboardPrefix, g1, g2);
  }

  lemma GameKeyIsNotGlobal(game: string)
    ensures GameKey(game) != GlobalLeaderboardKey
  {
    assert GameKey(game)[13] == 'a';
    assert GlobalLeaderboardKey[13] == 'l';
  }

  lemma UserScoresKeyInjective(u1: string, u2: string)
    ensures UserScoresKey(u1) == UserScoresKey(u2) ==> u1 == u2
  {
    PrefixCancel(UserScoresPrefix, u1, u2);
  }

  // ---------------------------------------------------------------------
  // Submission

  /**
   * The keyspace after a submission's three writes: ZADD to the global
   * set, ZADD to the game's set, LPUSH of the record to the user's list.
   */
  function SubmitEffect(s: Db, userId: string, username: string, game: string, score: int, timestamp: string): Db
  {
    var zsets := ZAdd(ZAdd(s.zsets, GlobalLeaderboardKey, userId, score), GameKey(game), userId, score);
    var lists := LPush(s.lists, UserScoresKey(userId), ScoreData(game, score, username, timestamp));
    s.(zsets := zsets, lists := lists)
  }

  /**
   * After a submission the global set maps the user to the new score,
   * whatever it held before, and every other member keeps its score.
   */
  lemma SubmitUpdatesGlobal(s: Db, userId: string, username: string, game: string, score: int, timestamp: string)
    ensures GlobalBoard(SubmitEffect(s, userId, username, game, score, timestamp)) == GlobalBoard(s)[userId := score]
  {
    GameKeyIsNotGlobal(game);
  }

  /**
   * After a submission the game's set maps the user to the new score, and
   * the set of every other game is untouched.
   */
  lemma SubmitUpdatesOnlyItsGame(s: Db, userId: string, username: string, game: string, score: int, timestamp: string, other: string)
    ensures GameBoard(SubmitEffect(s, userId, username, game, score, timestamp), game) == GameBoard(s, game)[userId := score]
    ensures other != game ==> GameBoard(SubmitEffect(s, userId, username, game, score, timestamp), other) == GameBoard(s, other)
  {
    GameKeyInjective(game, other);
    GameKeyIsNotGlobal(other);
  }

  /**
   * A submission puts exactly one record at the head of the user's history,
   * keeps the older records behind it in order, and leaves every other
   * user's history and the account data alone.
   */
  lemma SubmitPushesOneRecord(s: Db, userId: string, username: string, game: string, score: int, timestamp: string, other: string)
    ensures History(SubmitEffect(s, userId, username, game, score, timestamp), userId)
            == [ScoreData(game, score, username, timestamp)] + History(s, userId)
    ensures other != userId ==> History(SubmitEffect(s, userId, username, game, score, timestamp), other) == History(s, other)
    ensures SubmitEffect(s, userId, username, game, score, timestamp).hashes == s.hashes
    ensures SubmitEffect(s, userId, username, game, score, timestamp).strings == s.strings
  {
    UserScoresKeyInjective(userId, other);
  }

  /**
   * Repeating an identical submission, at a later clock reading `t2`, leaves
   * both sorted sets as they were after the first one but puts a second
   * history record, stamped `t2`, in front of the first.
   */
  lemma {:induction false} ResubmitIdempotentOnIndices(s: Db, userId: string, username: string, game: string, score: int, t1: string, t2: string)
    ensures var once := SubmitEffect(s, userId, username, game, score, t1);
            var twice := SubmitEffect(once, userId, username, game, score, t2);
            && twice.zsets == once.zsets
            && History(twice, userId) == [ScoreData(game, score, username, t2), ScoreData(game, score, username, t1)] + History(s, userId)
  {
    var once := SubmitEffect(s, userId, username, game, score, t1);
    var twice := SubmitEffect(once, userId, username, game, score, t2);
    GameKeyIsNotGlobal(game);
    assert ZSetAt(once.zsets, GlobalLeaderboardKey)[userId := score] == ZSetAt(once.zsets, GlobalLeaderboardKey);
    assert ZSetAt(once.zsets, GameKey(game))[userId := score] == ZSetAt(once.zsets, GameKey(game));
    assert ZAdd(once.zsets, GlobalLeaderboardKey, userId, score) == once.zsets;
    assert ZAdd(once.zsets, GameKey(game), userId, score) == once.zsets;
    SubmitPushesOneRecord(s, userId, username, game, score, t1, userId);
    SubmitPushesOneRecord(once, userId, username, game, score, t2, userId);
  }

  // ---------------------------------------------------------------------
  // Sequences of submissions

  /** The arguments of one submitScore call. */
  datatype Submission = Submission(userId: string, username: string, game: string, score: int, timestamp: string)

  function Apply(s: Db, sub: Submission): Db
  {
    SubmitEffect(s, sub.userId, sub.username, sub.game, sub.score, sub.timestamp)
  }

  /** The keyspace after completing `subs` in order, oldest first. */
  function ApplyAll(s: Db, subs: seq<Submission>): Db
  {
    if |subs| == 0 then s else Apply(ApplyAll(s, subs[..|subs| - 1]), subs[|subs| - 1])
  }

  lemma ApplyAllSnoc(s: Db, subs: seq<Submission>, sub: Submission)
    ensures ApplyAll(s, subs + [sub]) == Apply(ApplyAll(s, subs), sub)
  {
    assert (subs + [sub])[..|subs|] == subs;
  }

  /** The score of the last submission by `userId` (in `game`, when given). */
  function LatestScore(subs: seq<Submission>, userId: string, game: Option<string>): Option<int>
  {
    if |subs| == 0 then None
    else
      var last := subs[|subs| - 1];
      if last.userId == userId && (game.None? || game.value == last.game) then Some(last.score)
      else LatestScore(subs[..|subs| - 1], userId, game)
  }

  /** The history records of `userId`'s submissions, newest first. */
  function RecordsNewestFirst(subs: seq<Submission>, userId: string): seq<ScoreData>
  {
    if |subs| == 0 then []
    else
      var last := subs[|subs| - 1];
      var older := RecordsNewestFirst(subs[..|subs| - 1], userId);
      if last.userId == userId then [ScoreData(last.game, last.score, last.username, last.timestamp)] + older
      else older
  }

  /** The number of submissions by `userId`. */
  function CountBy(subs: seq<Submission>, userId: string): nat
  {
    if |subs| == 0 then 0
    else CountBy(subs[..|subs| - 1], userId) + (if subs[|subs| - 1].userId == userId then 1 else 0)
  }

  /**
   * Last write wins in the global ranking: after a run of submissions each
   * user's global score is that of their last submission, and users who
   * submitted nothing keep what they had.
   */
  lemma {:induction false} ReplayGlobal(s: Db, subs: seq<Submission>, userId: string)
    ensures ZScore(GlobalBoard(ApplyAll(s, subs)), userId)
            == match LatestScore(subs, userId, None) case Some(x) => Some(x) case None => ZScore(GlobalBoard(s), userId)
  {
    if |subs| > 0 {
      var last := subs[|subs| - 1];
      ReplayGlobal(s, subs[..|subs| - 1], userId);
      SubmitUpdatesGlobal(ApplyAll(s, subs[..|subs| - 1]), last.userId, last.username, last.game, last.score, last.timestamp);
    }
  }

  /**
   * Last write wins in each game's ranking: a user's score in `game` is that
   * of their last submission to `game`; submissions to other games do not
   * touch it.
   */
  lemma {:induction false} ReplayGame(s: Db, subs: seq<Submission>, userId: string, game: string)
    ensures ZScore(GameBoard(ApplyAll(s, subs), game), userId)
            == match LatestScore(subs, userId, Some(game)) case Some(x) => Some(x) case None => ZScore(GameBoard(s, game), userId)
  {
    if |subs| > 0 {
      var last := subs[|subs| - 1];
      ReplayGame(s, subs[..|subs| - 1], userId, game);
      SubmitUpdatesOnlyItsGame(ApplyAll(s, subs[..|subs| - 1]), last.userId, last.username, last.game, last.score, last.timestamp, game);
    }
  }

  /**
   * The history is a full audit trail: one record per submission by the
   * user, newest first, in front of what was there before.
   */
  lemma {:induction false} ReplayHistory(s: Db, subs: seq<Submission>, userId: string)
    ensures History(ApplyAll(s, subs), userId) == RecordsNewestFirst(subs, userId) + History(s, userId)
    ensures |History(ApplyAll(s, subs), userId)| == |History(s, userId)| + CountBy(subs, userId)
  {
    if |subs| > 0 {
      var last := subs[|subs| - 1];
      ReplayHistory(s, subs[..|subs| - 1], userId);
      SubmitPushesOneRecord(ApplyAll(s, subs[..|subs| - 1]), last.userId, last.username, last.game, last.score, last.timestamp, userId);
    }
  }

  /**
   * Submitting 1200 and then 900 for the same user in the same game leaves
   * 900 in that game's ranking and two history records, newest (900) first.
   */
  lemma LowerResubmissionReplaces(s: Db)
    ensures var subs := [Submission("u1", "alice", "chess", 1200, "t1"), Submission("u1", "alice", "chess", 900, "t2")];
            && ZScore(GameBoard(ApplyAll(s, subs), "chess"), "u1") == Some(900)
            && History(ApplyAll(s, subs), "u1")
               == [ScoreData("chess", 900, "alice", "t2"), ScoreData("chess", 1200, "alice", "t1")] + History(s, "u1")
  {
    var subs := [Submission("u1", "alice", "chess", 1200, "t1"), Submission("u1", "alice", "chess", 900, "t2")];
    assert subs[..1] == [subs[0]];
    assert subs[..1][..0] == [];
    ReplayGame(s, subs, "u1", "chess");
    ReplayHistory(s, subs, "u1");
  }

  // ---------------------------------------------------------------------
  // Ranked read

  /** Annotates a range reply with ranks `index + 1`. */
  function WithRanks(entries: seq<Entry>): seq<RankedEntry>
  {
    seq(|entries|, i requires 0 <= i < |entries| => RankedEntry(i + 1, entries[i].member, entries[i].score))
  }

  /** The `{ value, score }` pairs behind ranked rows. */
  function Unranked(rows: seq<RankedEntry>): seq<Entry>
  {
    seq(|rows|, i requires 0 <= i < |rows| => Entry(rows[i].userId, rows[i].score))
  }

  /**
   * The rows of a ranked read of `board` with `limit`: the head of the
   * board in REV order, min(limit, |board|) rows for a positive limit,
   * ranked 1, 2, ... in order.
   */
  ghost predicate IsRankedTop(board: ZSet, limit: int, rows: seq<RankedEntry>)
  {
    && |rows| == RevRangeLength(|board|, limit - 1)
    && (forall i :: 0 <= i < |rows| ==> rows[i].rank == i + 1)
    && IsRevTop(board, Unranked(rows))
  }

  /** The three submissions of the example below, and the global board they leave. */
  const ExampleSubs: seq<Submission> :=
    [Submission("a", "a", "g", 100, "t1"), Submission("b", "b", "g", 200, "t2"), Submission("c", "c", "g", 150, "t3")]

  lemma ExampleBoard()
    ensures GlobalBoard(ApplyAll(Db(map[], map[], map[], map[]), ExampleSubs)) == map["a" := 100, "b" := 200, "c" := 150]
  {
    var empty := Db(map[], map[], map[], map[]);
    var subs := ExampleSubs;
    var s1 := ApplyAll(empty, [subs[0]]);
    var s2 := ApplyAll(empty, [subs[0], subs[1]]);
    ApplyAllSnoc(empty, [], subs[0]);
    ApplyAllSnoc(empty, [subs[0]], subs[1]);
    ApplyAllSnoc(empty, [subs[0], subs[1]], subs[2]);
    assert [] + [subs[0]] == [subs[0]];
    assert [subs[0]] + [subs[1]] == [subs[0], subs[1]];
    assert [subs[0], subs[1]] + [subs[2]] == subs;
    SubmitUpdatesGlobal(empty, "a", "a", "g", 100, "t1");
    SubmitUpdatesGlobal(s1, "b", "b", "g", 200, "t2");
    SubmitUpdatesGlobal(s2, "c", "c", "g", 150, "t3");
  }

  lemma ExampleOrder()
    ensures IsRevTop(map["a" := 100, "b" := 200, "c" := 150], [Entry("b", 200), Entry("c", 150), Entry("a", 100)])
    ensures |map["a" := 100, "b" := 200, "c" := 150]| == 3
  {
    assert map["a" := 100, "b" := 200, "c" := 150].Keys == {"a", "b", "c"};
    var expected := [Entry("b", 200), Entry("c", 150), Entry("a", 100)];
    assert Members(expected) == {"a", "b", "c"} by {
      assert expected[0].member == "b" && expected[1].member == "c" && expected[2].member == "a";
    }
  }

  /** Any ranked read of the board a:100, b:200, c:150 with limit 3 is b, c, a. */
  lemma ExampleRanked(rows: seq<RankedEntry>)
    requires IsRankedTop(map["a" := 100, "b" := 200, "c" := 150], 3, rows)
    ensures rows == [RankedEntry(1, "b", 200), RankedEntry(2, "c", 150), RankedEntry(3, "a", 100)]
  {
    ExampleOrder();
    var expected := [Entry("b", 200), Entry("c", 150), Entry("a", 100)];
    var got := Unranked(rows);
    assert |got| == 3;
    RevTopUnique(map["a" := 100, "b" := 200, "c" := 150], got, expected);
    assert rows[0] == RankedEntry(1, "b", 200) by { assert got[0] == expected[0]; }
    assert rows[1] == RankedEntry(2, "c", 150) by { assert got[1] == expected[1]; }
    assert rows[2] == RankedEntry(3, "a", 100) by { assert got[2] == expected[2]; }
  }

  /**
   * A ranked read of the global board after submissions of 100, 200 and 150
   * by a, b and c ranks b first, then c, then a.
   */
  lemma ThreeSubmissionsRanked(rows: seq<RankedEntry>)
    requires IsRankedTop(GlobalBoard(ApplyAll(Db(map[], map[], map[], map[]), ExampleSubs)), 3, rows)
    ensures rows == [RankedEntry(1, "b", 200), RankedEntry(2, "c", 150), RankedEntry(3, "a", 100)]
  {
    ExampleBoard();
    ExampleRanked(rows);
  }

  /** The service object; its Redis connection and keyspace are given at construction. */
  class LeaderboardService {
    const redis: Redis.RedisClient
    const db: Keyspace

    constructor (redis: Redis.RedisClient, db: Keyspace)
      ensures this.redis == redis && this.db == db
    {
      this.redis := redis;
      this.db := db;
    }

    /**
     * submitScore: while the connection is down it throws before any write;
     * otherwise it performs the three writes and echoes its input.
     */
    method SubmitScore(userId: string, username: string, game: string, score: int, timestamp: string)
      returns (r: Result<SubmitResult, string>)
      requires redis.Valid()
      modifies db
      ensures !redis.isConnected ==> r == Failure(Redis.NotConnected) && db.State() == old(db.State())
      ensures redis.isConnected ==> r == Success(SubmitResult(SubmittedMessage, game, score, username))
      ensures redis.isConnected ==> db.State() == SubmitEffect(old(db.State()), userId, username, game, score, timestamp)
    {
      var client := redis.GetClient();
      if client.Failure? {
        return Failure(client.error);
      }
      db.zsets := ZAdd(db.zsets, GlobalLeaderboardKey, userId, score);
      var gameKey := GameKey(game);
      db.zsets := ZAdd(db.zsets, gameKey, userId, score);
      var userScoresKey := UserScoresKey(userId);
      db.lists := LPush(db.lists, userScoresKey, ScoreData(game, score, username, timestamp));
      return Success(SubmitResult(SubmittedMessage, game, score, username));
    }

    /**
     * getGlobalLeaderboard: fails while the connection is down; otherwise
     * the top of the global board in REV order, ranked from 1, with scores
     * that never increase down the list.
     */
    method GetGlobalLeaderboard(limit: int := DefaultLimit) returns (r: Result<seq<RankedEntry>, string>)
      requires redis.Valid()
      ensures !redis.isConnected ==> r == Failure(Redis.NotConnected)
      ensures redis.isConnected ==> r.Success? && IsRankedTop(GlobalBoard(db.State()), limit, r.value)
      ensures redis.isConnected && limit >= 1 ==>
                |r.value| == if limit <= |GlobalBoard(db.State())| then limit else |GlobalBoard(db.State())|
      ensures r.Success? ==> forall i, j :: 0 <= i < j < |r.value| ==> r.value[i].score >= r.value[j].score
      ensures r.Success? ==> forall i :: 0 <= i < |r.value| ==>
                r.value[i].userId in GlobalBoard(db.State()) && GlobalBoard(db.State())[r.value[i].userId] == r.value[i].score
    {
      var client := redis.GetClient();
      if client.Failure? {
        return Failure(client.error);
      }
      var results := ZRevRange(GlobalBoard(db.State()), limit - 1);
      var rows := WithRanks(results);
      assert Unranked(rows) == results;
      return Success(rows);
    }
  }
}
