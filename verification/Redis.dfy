/**
 The part of a Redis server the limiter relies on: sorted sets and flags under keys with an
 optional absolute expiry in milliseconds, and the server clock that every script reads.
 A key is gone once the clock is strictly past its expiry; a sorted set that becomes empty
 disappears together with its expiry.
 */
module Redis {
  import opened Options

  type Key = string
  type Member = string
  type Scores = map<Member, int>

  datatype SortedSet = SortedSet(scores: Scores, expireAt: Option<int>)

  type Sets = map<Key, SortedSet>
  type Flags = map<Key, Option<int>>

  /** The limiter clamps every limit, window and time to live to at least one. */
  type Positive = n: int | n >= 1 witness 1

  /** The limit arguments of a script, one for each of its keys. */
  function LimitsOf(limit: Key -> Positive, keys: seq<Key>): (limits: seq<Positive>)
    ensures |limits| == |keys| && forall i :: 0 <= i < |keys| ==> limits[i] == limit(keys[i])
  {
    seq(|keys|, i requires 0 <= i < |keys| => limit(keys[i]))
  }

  predicate Unexpired(expireAt: Option<int>, now: int) {
    expireAt.None? || now <= expireAt.value
  }

  /** What a command issued at `now` finds under `key`. */
  function Live(sets: Sets, now: int, key: Key): Option<SortedSet> {
    if key in sets && Unexpired(sets[key].expireAt, now) then Some(sets[key]) else None
  }

  function LiveScores(sets: Sets, now: int, key: Key): Scores {
    ScoresOf(Live(sets, now, key))
  }

  function Above(scores: Scores, floor: int): Scores {
    map m | m in scores && scores[m] > floor :: scores[m]
  }

  /** ZREMRANGEBYSCORE key -inf floor, on the entry a command finds. */
  function Purged(entry: Option<SortedSet>, floor: int): Option<SortedSet> {
    match entry
    case None => None
    case Some(s) =>
      var kept := Above(s.scores, floor);
      if kept == map[] then None else Some(s.(scores := kept))
  }

  /** ZREM key member, on the entry a command finds. */
  function Without(entry: Option<SortedSet>, member: Member): Option<SortedSet> {
    match entry
    case None => None
    case Some(s) =>
      var kept := s.scores - {member};
      if kept == map[] then None else Some(s.(scores := kept))
  }

  /** ZADD key score member: a new key starts without an expiry, an existing one keeps its own. */
  function Added(entry: Option<SortedSet>, member: Member, score: int): Option<SortedSet> {
    match entry
    case None => Some(SortedSet(map[member := score], None))
    case Some(s) => Some(s.(scores := s.scores[member := score]))
  }

  /** PEXPIRE key so that it expires at `expireAt`; a missing key stays missing. */
  function Expiring(entry: Option<SortedSet>, expireAt: int): Option<SortedSet> {
    match entry
    case None => None
    case Some(s) => Some(s.(expireAt := Some(expireAt)))
  }

  function ScoresOf(entry: Option<SortedSet>): Scores {
    match entry
    case Some(s) => s.scores
    case None => map[]
  }

  lemma PurgeFacts(entry: Option<SortedSet>, floor: int)
    ensures ScoresOf(Purged(entry, floor)) == Above(ScoresOf(entry), floor)
    ensures Purged(Purged(entry, floor), floor) == Purged(entry, floor)
  {
    assert Above(Above(ScoresOf(entry), floor), floor) == Above(ScoresOf(entry), floor);
  }

  function Store(sets: Sets, key: Key, entry: Option<SortedSet>): Sets {
    match entry
    case None => sets - {key}
    case Some(s) => sets[key := s]
  }

  lemma StoreLive(sets: Sets, now: int, key: Key, entry: Option<SortedSet>, k: Key)
    ensures Live(Store(sets, key, entry), now, k) ==
            if k != key then Live(sets, now, k)
            else if entry.Some? && Unexpired(entry.value.expireAt, now) then entry
            else None
  {
  }

  /** Lua's math.ceil(milliseconds / 1000). */
  function CeilSeconds(ms: int): (seconds: int)
    ensures 1000 * (seconds - 1) < ms <= 1000 * seconds
  {
    -((-ms) / 1000)
  }

  ghost predicate IsOldest(scores: Scores, score: int) {
    (exists m :: m in scores && scores[m] == score) && forall m :: m in scores ==> score <= scores[m]
  }

  lemma {:induction false} OldestExists(scores: Scores)
    requires scores != map[]
    ensures exists score :: IsOldest(scores, score)
    decreases |scores|
  {
    var m :| m in scores;
    var rest := scores - {m};
    assert forall n :: n in scores ==> n == m || n in rest;
    if rest == map[] {
      assert IsOldest(scores, scores[m]);
    } else {
      OldestExists(rest);
      var s :| IsOldest(rest, s);
      if s <= scores[m] {
        assert IsOldest(scores, s);
      } else {
        assert IsOldest(scores, scores[m]);
      }
    }
  }

  /** The score ZRANGE key 0 0 WITHSCORES reports for a non-empty sorted set. */
  ghost function Oldest(scores: Scores): (score: int)
    requires scores != map[]
    ensures IsOldest(scores, score)
  {
    OldestExists(scores);
    var score :| IsOldest(scores, score);
    score
  }

  lemma OldestUnique(scores: Scores, a: int, b: int)
    requires IsOldest(scores, a) && IsOldest(scores, b)
    ensures a == b
  {
  }

  // ---- The commands, on the sorted sets of a server whose clock shows `now` -------------------

  function ZRemRangeByScore(sets: Sets, now: int, key: Key, floor: int): Sets {
    Store(sets, key, Purged(Live(sets, now, key), floor))
  }

  function ZAdd(sets: Sets, now: int, key: Key, score: int, member: Member): Sets {
    Store(sets, key, Added(Live(sets, now, key), member, score))
  }

  function PExpire(sets: Sets, now: int, key: Key, ttl: nat): Sets {
    Store(sets, key, Expiring(Live(sets, now, key), now + ttl))
  }

  function ZRem(sets: Sets, now: int, key: Key, member: Member): Sets {
    Store(sets, key, Without(Live(sets, now, key), member))
  }

  /** ZREMRANGEBYSCORE on every key of a script. */
  function PurgeAll(sets: Sets, now: int, keys: seq<Key>, floor: int): Sets {
    if keys == [] then sets
    else
      var last := |keys| - 1;
      ZRemRangeByScore(PurgeAll(sets, now, keys[..last], floor), now, keys[last], floor)
  }

  /** ZADD and PEXPIRE of one member on every key of a script. */
  function AddAll(sets: Sets, now: int, keys: seq<Key>, score: int, member: Member, ttl: nat): Sets {
    if keys == [] then sets
    else
      var last := |keys| - 1;
      PExpire(ZAdd(AddAll(sets, now, keys[..last], score, member, ttl), now, keys[last], score, member),
              now, keys[last], ttl)
  }

  /** ZREM of one member on every key of a script. */
  function RemoveAll(sets: Sets, now: int, keys: seq<Key>, member: Member): Sets {
    if keys == [] then sets
    else
      var last := |keys| - 1;
      ZRem(RemoveAll(sets, now, keys[..last], member), now, keys[last], member)
  }

  lemma {:induction false} PurgeAllLive(sets: Sets, now: int, keys: seq<Key>, floor: int, k: Key)
    ensures Live(PurgeAll(sets, now, keys, floor), now, k) ==
            if k in keys then Purged(Live(sets, now, k), floor) else Live(sets, now, k)
  {
    if keys != [] {
      var last := |keys| - 1;
      PurgeAllLive(sets, now, keys[..last], floor, k);
      PurgeFacts(Live(sets, now, k), floor);
      assert keys == keys[..last] + [keys[last]];
    }
  }

  function AddedWithExpiry(entry: Option<SortedSet>, member: Member, score: int, expireAt: int): Option<SortedSet> {
    Expiring(Added(entry, member, score), expireAt)
  }

  lemma AddTwice(entry: Option<SortedSet>, member: Member, score: int, expireAt: int)
    ensures var once := AddedWithExpiry(entry, member, score, expireAt);
            AddedWithExpiry(once, member, score, expireAt) == once
  {
    var scores := ScoresOf(Added(entry, member, score));
    assert scores[member := score] == scores;
  }

  lemma {:induction false} AddAllLive(sets: Sets, now: int, keys: seq<Key>, score: int, member: Member, ttl: nat,
                                      k: Key)
    ensures Live(AddAll(sets, now, keys, score, member, ttl), now, k) ==
            if k in keys then AddedWithExpiry(Live(sets, now, k), member, score, now + ttl) else Live(sets, now, k)
  {
    if keys != [] {
      var last := |keys| - 1;
      AddAllLive(sets, now, keys[..last], score, member, ttl, k);
      AddTwice(Live(sets, now, k), member, score, now + ttl);
      assert keys == keys[..last] + [keys[last]];
    }
  }

  lemma {:induction false} RemoveAllLive(sets: Sets, now: int, keys: seq<Key>, member: Member, k: Key)
    ensures Live(RemoveAll(sets, now, keys, member), now, k) ==
            if k in keys then Without(Live(sets, now, k), member) else Live(sets, now, k)
  {
    if keys != [] {
      var last := |keys| - 1;
      RemoveAllLive(sets, now, keys[..last], member, k);
      WithoutTwice(Live(sets, now, k), member);
      assert keys == keys[..last] + [keys[last]];
    }
  }

  lemma WithoutTwice(entry: Option<SortedSet>, member: Member)
    ensures Without(Without(entry, member), member) == Without(entry, member)
  {
    var kept := ScoresOf(entry) - {member};
    assert kept - {member} == kept;
  }

  /** A Redis server: sorted sets, flags with an optional expiry, and the clock scripts read. */
  class Server {
    var sets: Sets
    var flags: Flags
    var now: int

    constructor (start: int)
      ensures sets == map[] && flags == map[] && now == start
    {
      sets, flags, now := map[], map[], start;
    }

    /** The score ZRANGE key 0 0 WITHSCORES reports. */
    method OldestScore(key: Key) returns (score: int)
      requires LiveScores(sets, now, key) != map[]
      ensures score == Oldest(LiveScores(sets, now, key))
    {
      var scores := LiveScores(sets, now, key);
      var left := scores.Keys;
      var m :| m in left;
      left := left - {m};
      score := scores[m];
      while left != {}
        invariant left <= scores.Keys
        invariant exists k :: k in scores && scores[k] == score
        invariant forall k :: k in scores && k !in left ==> score <= scores[k]
        decreases |left|
      {
        var n :| n in left;
        left := left - {n};
        if scores[n] < score {
          score := scores[n];
        }
      }
      OldestUnique(scores, score, Oldest(scores));
    }
  }
}
