/**
 * The account store (src/services/userService.js): a hash per user at
 * `user:<id>` and a case-insensitive index `username:<lowercase name>`
 * holding the user's id.
 */
module Users {
  import opened Wrappers
  import opened Store
  import Redis

  const UserKeyPrefix: string := "user:"
  const UsernameIndexPrefix: string := "username:"

  const UsernameTaken: string := "Username already exists"

  /** Lower-cases the ASCII letters of `s` and keeps every other character. */
  function Lower(s: string): (r: string)
    ensures |r| == |s|
    ensures forall i :: 0 <= i < |s| ==> r[i] == LowerChar(s[i])
  {
    if |s| == 0 then [] else [LowerChar(s[0])] + Lower(s[1..])
  }

  function LowerChar(c: char): char
  {
    if 'A' <= c <= 'Z' then (c as int + 32) as char else c
  }

  /** Lower-casing a lower-cased name changes nothing. */
  lemma LowerIdempotent(s: string)
    ensures Lower(Lower(s)) == Lower(s)
  {
    assert forall i :: 0 <= i < |s| ==> LowerChar(LowerChar(s[i])) == LowerChar(s[i]);
  }

  function UserKey(id: string): string
  {
    UserKeyPrefix + id
  }

  function UsernameKey(username: string): string
  {
    UsernameIndexPrefix + Lower(username)
  }

  lemma UserKeyInjective(a: string, b: string)
    ensures UserKey(a) == UserKey(b) ==> a == b
  {
    PrefixCancel(UserKeyPrefix, a, b);
  }

  /** Two names share an index entry exactly when they agree up to case. */
  lemma UsernameKeySameIffSameLower(a: string, b: string)
    ensures UsernameKey(a) == UsernameKey(b) <==> Lower(a) == Lower(b)
  {
    PrefixCancel(UsernameIndexPrefix, Lower(a), Lower(b));
  }

  /** JavaScript truthiness of a GET reply: nil and the empty string are falsy. */
  predicate Truthy(v: Option<string>)
  {
    v.Some? && v.value != ""
  }

  /** The user object createUser builds and stores. */
  function UserFields(id: string, username: string, hashedPassword: string, createdAt: string): map<string, string>
  {
    map["id" := id, "username" := username, "password" := hashedPassword, "createdAt" := createdAt]
  }

  /** The user object without its `password` field, as createUser returns it. */
  function PublicFields(id: string, username: string, createdAt: string): map<string, string>
  {
    map["id" := id, "username" := username, "createdAt" := createdAt]
  }

  /**
   * The returned object is the stored one minus exactly the password: it
   * has `id`, `username` in its original case and `createdAt`, and no
   * `password`; the stored one holds the hash.
   */
  lemma PublicFieldsDropOnlyPassword(id: string, username: string, hashedPassword: string, createdAt: string)
    ensures PublicFields(id, username, createdAt) == UserFields(id, username, hashedPassword, createdAt) - {"password"}
    ensures "password" !in PublicFields(id, username, createdAt)
    ensures PublicFields(id, username, createdAt).Keys == {"id", "username", "createdAt"}
    ensures UserFields(id, username, hashedPassword, createdAt)["password"] == hashedPassword
  {
    var pub := PublicFields(id, username, createdAt);
    var all := UserFields(id, username, hashedPassword, createdAt) - {"password"};
    assert pub.Keys == all.Keys;
  }

  /** The keyspace after createUser's two writes: HSET of the user, SET of the index entry. */
  function CreateEffect(s: Db, username: string, id: string, hashedPassword: string, createdAt: string): Db
  {
    s.(hashes := HSet(s.hashes, UserKey(id), UserFields(id, username, hashedPassword, createdAt)),
       strings := s.strings[UsernameKey(username) := id])
  }

  /** getUserById on a snapshot: the user's hash, or nothing for a missing or empty hash. */
  function UserById(s: Db, id: string): Option<map<string, string>>
  {
    var user := HGetAll(s.hashes, UserKey(id));
    if |user| == 0 then None else Some(user)
  }

  /** getUserByUsername on a snapshot: follows the index entry, if it is set and non-empty. */
  function UserByUsername(s: Db, username: string): Option<map<string, string>>
  {
    var userId := Get(s.strings, UsernameKey(username));
    if !Truthy(userId) then None else UserById(s, userId.value)
  }

  /** Lookup by name ignores case: names that agree up to case find the same user. */
  lemma LookupIgnoresCase(s: Db, a: string, b: string)
    ensures Lower(a) == Lower(b) ==> UserByUsername(s, a) == UserByUsername(s, b)
    ensures UserByUsername(s, Lower(a)) == UserByUsername(s, a)
  {
    LowerIdempotent(a);
  }

  /**
   * Round trip: after a user is created under a fresh, non-empty id, lookup by
   * id and lookup by any name equal to its name up to case both return the
   * stored user, password hash included.
   */
  lemma CreateThenLookup(s: Db, username: string, id: string, hashedPassword: string, createdAt: string, other: string)
    requires UserKey(id) !in s.hashes
    requires id != ""
    requires Lower(other) == Lower(username)
    ensures UserById(CreateEffect(s, username, id, hashedPassword, createdAt), id)
            == Some(UserFields(id, username, hashedPassword, createdAt))
    ensures UserByUsername(CreateEffect(s, username, id, hashedPassword, createdAt), other)
            == Some(UserFields(id, username, hashedPassword, createdAt))
  {
    var after := CreateEffect(s, username, id, hashedPassword, createdAt);
    assert HGetAll(after.hashes, UserKey(id)) == UserFields(id, username, hashedPassword, createdAt);
    assert "id" in UserFields(id, username, hashedPassword, createdAt);
    UsernameKeySameIffSameLower(other, username);
  }

  /** Once a name is taken, every name equal to it up to case is taken. */
  lemma CreateTakesName(s: Db, username: string, id: string, hashedPassword: string, createdAt: string, other: string)
    requires id != ""
    ensures Truthy(Get(CreateEffect(s, username, id, hashedPassword, createdAt).strings, UsernameKey(other)))
            <==> Lower(other) == Lower(username) || Truthy(Get(s.strings, UsernameKey(other)))
  {
    UsernameKeySameIffSameLower(other, username);
  }

  /**
   * Creating a user under a fresh id changes no other lookup: other ids, and
   * names that differ from the new one beyond case, resolve as before.
   */
  lemma CreateKeepsOthers(s: Db, username: string, id: string, hashedPassword: string, createdAt: string,
                          otherId: string, otherName: string)
    requires UserKey(id) !in s.hashes
    requires id !in s.strings.Values
    ensures otherId != id ==> UserById(CreateEffect(s, username, id, hashedPassword, createdAt), otherId) == UserById(s, otherId)
    ensures Lower(otherName) != Lower(username) ==>
              UserByUsername(CreateEffect(s, username, id, hashedPassword, createdAt), otherName) == UserByUsername(s, otherName)
  {
    var after := CreateEffect(s, username, id, hashedPassword, createdAt);
    UserKeyInjective(otherId, id);
    UsernameKeySameIffSameLower(otherName, username);
    if Lower(otherName) != Lower(username) {
      var target := Get(s.strings, UsernameKey(otherName));
      assert Get(after.strings, UsernameKey(otherName)) == target;
      if Truthy(target) {
        assert target.value in s.strings.Values;
        UserKeyInjective(target.value, id);
      }
    }
  }

  /** The service object; its Redis connection and keyspace are given at construction. */
  class UserService {
    const redis: Redis.RedisClient
    const db: Keyspace

    constructor (redis: Redis.RedisClient, db: Keyspace)
      ensures this.redis == redis && this.db == db
    {
      this.redis := redis;
      this.db := db;
    }

    /**
     * createUser: throws while the connection is down or when the name is
     * taken up to case, writing nothing; otherwise stores the user under
     * `newId` (from the id generator) with the password's hash (from the
     * hashing function) and returns the user without its password.
     */
    method CreateUser(username: string, password: string, newId: string, hash: string -> string, createdAt: string)
      returns (r: Result<map<string, string>, string>)
      requires redis.Valid()
      modifies db
      ensures !redis.isConnected ==> r == Failure(Redis.NotConnected) && db.State() == old(db.State())
      ensures redis.isConnected && Truthy(Get(old(db.strings), UsernameKey(username))) ==>
                r == Failure(UsernameTaken) && db.State() == old(db.State())
      ensures redis.isConnected && !Truthy(Get(old(db.strings), UsernameKey(username))) ==>
                && r == Success(PublicFields(newId, username, createdAt))
                && db.State() == CreateEffect(old(db.State()), username, newId, hash(password), createdAt)
    {
      var client := redis.GetClient();
      if client.Failure? {
        return Failure(client.error);
      }
      var usernameKey := UsernameKey(username);
      var existingUserId := Get(db.strings, usernameKey);
      if Truthy(existingUserId) {
        return Failure(UsernameTaken);
      }
      var hashedPassword := hash(password);
      var user := UserFields(newId, username, hashedPassword, createdAt);
      db.hashes := HSet(db.hashes, UserKey(newId), user);
      db.strings := db.strings[usernameKey := newId];
      PublicFieldsDropOnlyPassword(newId, username, hashedPassword, createdAt);
      return Success(user - {"password"});
    }

    /**
     * getUserByUsername: fails while the connection is down; otherwise runs
     * GET on the index and HGETALL on the user, step by step as the source
     * does. `UserByUsername` is its specification.
     */
    method GetUserByUsername(username: string) returns (r: Result<Option<map<string, string>>, string>)
      requires redis.Valid()
      ensures !redis.isConnected ==> r == Failure(Redis.NotConnected)
      ensures redis.isConnected ==> r == Success(UserByUsername(db.State(), username))
    {
      var client := redis.GetClient();
      if client.Failure? {
        return Failure(client.error);
      }
      var userId := Get(db.strings, UsernameKey(username));
      if !Truthy(userId) {
        return Success(None);
      }
      var user := HGetAll(db.hashes, UserKey(userId.value));
      if |user| == 0 {
        return Success(None);
      }
      return Success(Some(user));
    }

    /**
     * getUserById: fails while the connection is down; otherwise runs
     * HGETALL on the user. `UserById` is its specification.
     */
    method GetUserById(userId: string) returns (r: Result<Option<map<string, string>>, string>)
      requires redis.Valid()
      ensures !redis.isConnected ==> r == Failure(Redis.NotConnected)
      ensures redis.isConnected ==> r == Success(UserById(db.State(), userId))
    {
      var client := redis.GetClient();
      if client.Failure? {
        return Failure(client.error);
      }
      var user := HGetAll(db.hashes, UserKey(userId));
      if |user| == 0 {
        return Success(None);
      }
      return Success(Some(user));
    }
  }
}
