/**
 * The Redis keyspace the services read and write, as an abstract store.
 *
 * Each Redis data type the services use is one map from key to value:
 * sorted sets (member -> score), lists (of history records), hashes
 * (field -> value) and plain string values. The command semantics the
 * services rely on (ZADD, LPUSH, HSET, SET, GET, HGETALL and
 * ZRANGE ... REV WITHSCORES) are stated here as functions on those maps.
 */
module Store {
  import opened Wrappers

  /** A sorted set: each member has exactly one score. */
  type ZSet = map<string, int>

  /** One `{ value, score }` pair of a sorted-set range reply. */
  datatype Entry = Entry(member: string, score: int)

  /** One score-history record; the list holds its JSON text, modelled by the record itself. */
  datatype ScoreData = ScoreData(game: string, score: int, username: string, timestamp: string)

  /** A snapshot of the whole keyspace. */
  datatype Db = Db(
    zsets: map<string, ZSet>,
    lists: map<string, seq<ScoreData>>,
    hashes: map<string, map<string, string>>,
    strings: map<string, string>)

  /** The Redis server's keyspace; commands update its maps in place. */
  class Keyspace {
    var zsets: map<string, ZSet>
    var lists: map<string, seq<ScoreData>>
    var hashes: map<string, map<string, string>>
    var strings: map<string, string>

    function State(): Db
      reads this
    {
      Db(zsets, lists, hashes, strings)
    }

    constructor ()
      ensures State() == Db(map[], map[], map[], map[])
    {
      zsets, lists, hashes, strings := map[], map[], map[], map[];
    }
  }

  // ---------------------------------------------------------------------
  // Key construction

  /** Keys are built by prefixing; a fixed prefix keeps distinct suffixes apart. */
  lemma PrefixCancel(p: string, a: string, b: string)
    ensures p + a == p + b ==> a == b
  {
    if p + a == p + b {
      assert a == (p + a)[|p|..];
      assert b == (p + b)[|p|..];
    }
  }

  // ---------------------------------------------------------------------
  // Command semantics

  /** The sorted set at `key`; a missing key reads as the empty set. */
  function ZSetAt(zsets: map<string, ZSet>, key: string): ZSet
  {
    if key in zsets then zsets[key] else map[]
  }

  /** The score of `member`, if it has one. */
  function ZScore(z: ZSet, member: string): Option<int>
  {
    if member in z then Some(z[member]) else None
  }

  /** ZADD key score member: inserts the member, or replaces its score. */
  function ZAdd(zsets: map<string, ZSet>, key: string, member: string, score: int): (r: map<string, ZSet>)
    ensures ZSetAt(r, key) == ZSetAt(zsets, key)[member := score]
    ensures forall k :: k != key ==> ZSetAt(r, k) == ZSetAt(zsets, k)
  {
    zsets[key := ZSetAt(zsets, key)[member := score]]
  }

  /** The list at `key`; a missing key reads as the empty list. */
  function ListAt(lists: map<string, seq<ScoreData>>, key: string): seq<ScoreData>
  {
    if key in lists then lists[key] else []
  }

  /** LPUSH key v: puts `v` at the head of the list. */
  function LPush(lists: map<string, seq<ScoreData>>, key: string, v: ScoreData): (r: map<string, seq<ScoreData>>)
    ensures ListAt(r, key) == [v] + ListAt(lists, key)
    ensures forall k :: k != key ==> ListAt(r, k) == ListAt(lists, k)
  {
    lists[key := [v] + ListAt(lists, key)]
  }

  /** HGETALL key: all fields of the hash; a missing key reads as no fields. */
  function HGetAll(hashes: map<string, map<string, string>>, key: string): map<string, string>
  {
    if key in hashes then hashes[key] else map[]
  }

  /** HSET key fields: sets the given fields, keeping the hash's other fields. */
  function HSet(hashes: map<string, map<string, string>>, key: string, fields: map<string, string>): (r: map<string, map<string, string>>)
    ensures HGetAll(r, key) == HGetAll(hashes, key) + fields
    ensures forall k :: k != key ==> HGetAll(r, k) == HGetAll(hashes, k)
  {
    hashes[key := HGetAll(hashes, key) + fields]
  }

  /** GET key: the string value, or nil. */
  function Get(strings: map<string, string>, key: string): Option<string>
  {
    if key in strings then Some(strings[key]) else None
  }

  // ---------------------------------------------------------------------
  // The order of a reversed sorted-set range

  /** Byte-wise lexicographic order on member names, as Redis compares equal-score members. */
  predicate LexLess(a: string, b: string)
  {
    if |b| == 0 then false
    else if |a| == 0 then true
    else a[0] < b[0] || (a[0] == b[0] && LexLess(a[1..], b[1..]))
  }

  lemma {:induction false} LexLessIrreflexive(a: string)
    ensures !LexLess(a, a)
  {
    if |a| > 0 {
      LexLessIrreflexive(a[1..]);
    }
  }

  lemma {:induction false} LexLessAsymmetric(a: string, b: string)
    ensures LexLess(a, b) ==> !LexLess(b, a)
  {
    if |a| > 0 && |b| > 0 && a[0] == b[0] {
      LexLessAsymmetric(a[1..], b[1..]);
    }
  }

  lemma {:induction false} LexLessTransitive(a: string, b: string, c: string)
    ensures LexLess(a, b) && LexLess(b, c) ==> LexLess(a, c)
  {
    if |a| > 0 && |b| > 0 && |c| > 0 {
      LexLessTransitive(a[1..], b[1..], c[1..]);
    }
  }

  lemma {:induction false} LexLessTotal(a: string, b: string)
    ensures a != b ==> LexLess(a, b) || LexLess(b, a)
  {
    if |a| > 0 && |b| > 0 && a[0] == b[0] {
      assert a == [a[0]] + a[1..];
      assert b == [b[0]] + b[1..];
      LexLessTotal(a[1..], b[1..]);
    }
  }

  /**
   * `a` comes before `b` in ZRANGE ... REV order: higher score first and,
   * for equal scores, the lexicographically greater member first.
   */
  predicate RevBefore(a: Entry, b: Entry)
  {
    a.score > b.score || (a.score == b.score && LexLess(b.member, a.member))
  }

  lemma RevBeforeIrreflexive(a: Entry)
    ensures !RevBefore(a, a)
  {
    LexLessIrreflexive(a.member);
  }

  lemma RevBeforeAsymmetric(a: Entry, b: Entry)
    ensures RevBefore(a, b) ==> !RevBefore(b, a)
  {
    LexLessAsymmetric(a.member, b.member);
  }

  lemma RevBeforeTransitive(a: Entry, b: Entry, c: Entry)
    ensures RevBefore(a, b) && RevBefore(b, c) ==> RevBefore(a, c)
  {
    LexLessTransitive(c.member, b.member, a.member);
  }

  lemma RevBeforeTotal(a: Entry, b: Entry)
    ensures a.member != b.member ==> RevBefore(a, b) || RevBefore(b, a)
  {
    LexLessTotal(a.member, b.member);
  }

  /** The members named in a range reply. */
  function Members(out: seq<Entry>): set<string>
  {
    set i | 0 <= i < |out| :: out[i].member
  }

  /**
   * `out` is the head of `z` in reverse order: every entry is a member of `z`
   * with its score, the entries are in strictly descending REV order, and
   * every member of `z` left out comes after all of them.
   */
  ghost predicate IsRevTop(z: ZSet, out: seq<Entry>)
  {
    && (forall i :: 0 <= i < |out| ==> out[i].member in z && z[out[i].member] == out[i].score)
    && (forall i, j :: 0 <= i < j < |out| ==> RevBefore(out[i], out[j]))
    && (forall k, i :: k in z && k !in Members(out) && 0 <= i < |out| ==> RevBefore(out[i], Entry(k, z[k])))
  }

  /**
   * The number of elements ZRANGE 0 stop returns from a set of `len`
   * members: a negative `stop` counts from the end, and `stop` is
   * clamped to the last index.
   */
  function RevRangeLength(len: nat, stop: int): (n: nat)
    ensures stop >= 0 ==> n == if stop + 1 <= len then stop + 1 else len
    ensures stop < 0 ==> n == if len + stop + 1 >= 0 then len + stop + 1 else 0
  {
    var end := if stop < 0 then len + stop else stop;
    if end < 0 || len == 0 then 0
    else if end >= len then len
    else end + 1
  }

  /** The member of a non-empty sorted set that comes first in REV order. */
  method RevFirst(z: ZSet) returns (m: string)
    requires |z| > 0
    ensures m in z
    ensures forall k :: k in z && k != m ==> RevBefore(Entry(m, z[m]), Entry(k, z[k]))
  {
    var todo := z.Keys;
    m :| m in todo;
    todo := todo - {m};
    while todo != {}
      invariant todo <= z.Keys
      invariant m in z && m !in todo
      invariant forall k :: k in z && k !in todo && k != m ==> RevBefore(Entry(m, z[m]), Entry(k, z[k]))
      decreases |todo|
    {
      var k :| k in todo;
      todo := todo - {k};
      var old_m := m;
      RevBeforeTotal(Entry(k, z[k]), Entry(old_m, z[old_m]));
      if RevBefore(Entry(k, z[k]), Entry(old_m, z[old_m])) {
        m := k;
        forall j | j in z && j !in todo && j != m
          ensures RevBefore(Entry(m, z[m]), Entry(j, z[j]))
        {
          RevBeforeTransitive(Entry(m, z[m]), Entry(old_m, z[old_m]), Entry(j, z[j]));
        }
      }
    }
  }

  /**
   * ZRANGE key 0 stop REV WITHSCORES over the set `z`: the first
   * RevRangeLength(|z|, stop) members in REV order, with their scores.
   */
  method ZRevRange(z: ZSet, stop: int) returns (out: seq<Entry>)
    ensures |out| == RevRangeLength(|z|, stop)
    ensures IsRevTop(z, out)
  {
    var n := RevRangeLength(|z|, stop);
    var rest := z;
    out := [];
    assert Members(out) == {};
    while |out| < n
      invariant |out| <= n <= |z|
      invariant rest.Keys == z.Keys - Members(out)
      invariant forall k :: k in rest ==> rest[k] == z[k]
      invariant |rest| == |z| - |out|
      invariant IsRevTop(z, out)
    {
      var m := RevFirst(rest);
      RevTopExtend(z, out, rest, m);
      out, rest := out + [Entry(m, z[m])], rest - {m};
    }
  }

  lemma RemoveOneSize(z: ZSet, m: string)
    requires m in z
    ensures |z - {m}| == |z| - 1
    ensures (z - {m}).Keys == z.Keys - {m}
  {
    assert (z - {m}).Keys == z.Keys - {m};
    assert |z.Keys - {m}| == |z.Keys| - 1;
  }

  lemma MembersSnoc(out: seq<Entry>, e: Entry)
    ensures Members(out + [e]) == Members(out) + {e.member}
  {
    forall x | x in Members(out + [e]) ensures x in Members(out) + {e.member} {
      var i :| 0 <= i < |out + [e]| && (out + [e])[i].member == x;
      if i < |out| { assert out[i].member == x; }
    }
    forall x | x in Members(out) + {e.member} ensures x in Members(out + [e]) {
      if x == e.member { assert (out + [e])[|out|].member == x; }
      else { var i :| 0 <= i < |out| && out[i].member == x; assert (out + [e])[i].member == x; }
    }
  }

  /** Appending the first remaining member keeps a reversed range a reversed range. */
  lemma RevTopExtend(z: ZSet, out: seq<Entry>, rest: ZSet, m: string)
    requires IsRevTop(z, out)
    requires rest.Keys == z.Keys - Members(out)
    requires forall k :: k in rest ==> rest[k] == z[k]
    requires |rest| == |z| - |out|
    requires m in rest
    requires forall k :: k in rest && k != m ==> RevBefore(Entry(m, rest[m]), Entry(k, rest[k]))
    ensures m in z
    ensures IsRevTop(z, out + [Entry(m, z[m])])
    ensures (rest - {m}).Keys == z.Keys - Members(out + [Entry(m, z[m])])
    ensures forall k :: k in rest - {m} ==> (rest - {m})[k] == z[k]
    ensures |rest - {m}| == |z| - |out + [Entry(m, z[m])]|
  {
    var e := Entry(m, z[m]);
    MembersSnoc(out, e);
    RemoveOneSize(rest, m);
    ExtendOrdered(z, out, m);
    ExtendCovers(z, out, rest, m);
  }

  lemma ExtendOrdered(z: ZSet, out: seq<Entry>, m: string)
    requires IsRevTop(z, out)
    requires m in z && m !in Members(out)
    ensures forall i :: 0 <= i < |out| + 1 ==> (out + [Entry(m, z[m])])[i].member in z && z[(out + [Entry(m, z[m])])[i].member] == (out + [Entry(m, z[m])])[i].score
    ensures forall i, j :: 0 <= i < j < |out| + 1 ==> RevBefore((out + [Entry(m, z[m])])[i], (out + [Entry(m, z[m])])[j])
  {
    var o := out + [Entry(m, z[m])];
    forall i | 0 <= i < |o| ensures o[i].member in z && z[o[i].member] == o[i].score {
      if i < |out| { assert o[i] == out[i]; }
    }
    forall i, j | 0 <= i < j < |o| ensures RevBefore(o[i], o[j]) {
      assert o[i] == out[i];
      if j < |out| { assert o[j] == out[j]; }
    }
  }

  lemma ExtendCovers(z: ZSet, out: seq<Entry>, rest: ZSet, m: string)
    requires IsRevTop(z, out)
    requires rest.Keys == z.Keys - Members(out)
    requires forall k :: k in rest ==> rest[k] == z[k]
    requires m in rest
    requires forall k :: k in rest && k != m ==> RevBefore(Entry(m, rest[m]), Entry(k, rest[k]))
    requires Members(out + [Entry(m, z[m])]) == Members(out) + {m}
    ensures forall k, i :: k in z && k !in Members(out + [Entry(m, z[m])]) && 0 <= i < |out| + 1 ==> RevBefore((out + [Entry(m, z[m])])[i], Entry(k, z[k]))
  {
    var o := out + [Entry(m, z[m])];
    forall k, i | k in z && k !in Members(o) && 0 <= i < |o|
      ensures RevBefore(o[i], Entry(k, z[k]))
    {
      assert k in rest && k != m;
      if i < |out| { assert o[i] == out[i]; }
    }
  }

  /** A member appears at most once in a reversed range. */
  lemma RevTopDistinct(z: ZSet, out: seq<Entry>, i: int, j: int)
    requires IsRevTop(z, out)
    requires 0 <= i < j < |out|
    ensures out[i].member != out[j].member
  {
    RevBeforeIrreflexive(out[i]);
  }

  /** Where two reversed ranges of `z` first differ, each one's entry comes after the other's. */
  lemma RevTopFirstDifference(z: ZSet, o1: seq<Entry>, o2: seq<Entry>, i: int)
    requires IsRevTop(z, o1) && IsRevTop(z, o2)
    requires 0 <= i < |o1| && i < |o2|
    requires o1[..i] == o2[..i]
    ensures o1[i].member != o2[i].member ==> RevBefore(o2[i], o1[i])
  {
    var a := o1[i];
    if a.member in Members(o2) {
      var j :| 0 <= j < |o2| && o2[j].member == a.member;
      if j < i {
        assert o1[j] == o2[j] by { assert o1[..i][j] == o2[..i][j]; }
        RevTopDistinct(z, o1, j, i);
      } else if j > i {
        assert Entry(a.member, z[a.member]) == a;
      }
    }
  }

  /**
   * A reversed range is determined by the set and its length: equal
   * scores are ordered by member, so pagination is reproducible.
   */
  lemma {:induction false} RevTopUnique(z: ZSet, o1: seq<Entry>, o2: seq<Entry>)
    requires IsRevTop(z, o1) && IsRevTop(z, o2)
    requires |o1| == |o2|
    ensures o1 == o2
  {
    RevTopPrefixAgree(z, o1, o2, |o1|);
    assert o1 == o1[..|o1|] && o2 == o2[..|o2|];
  }

  lemma {:induction false} RevTopPrefixAgree(z: ZSet, o1: seq<Entry>, o2: seq<Entry>, n: nat)
    requires IsRevTop(z, o1) && IsRevTop(z, o2)
    requires n <= |o1| == |o2|
    ensures o1[..n] == o2[..n]
  {
    if n > 0 {
      var i := n - 1;
      RevTopPrefixAgree(z, o1, o2, i);
      RevTopFirstDifference(z, o1, o2, i);
      RevTopFirstDifference(z, o2, o1, i);
      RevBeforeAsymmetric(o1[i], o2[i]);
      assert o1[i].member == o2[i].member;
      assert o1[..n] == o1[..i] + [o1[i]];
      assert o2[..n] == o2[..i] + [o2[i]];
    }
  }
}
