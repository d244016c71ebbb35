/**
 Leased stream concurrency (src/apex/app/distributed_limits.py:90-135, 322-413): the acquire, renew and
 release scripts over one sorted set per key, and their refinement of a single map from leases to
 expiry times.
 */
module StreamLeases {
  import opened FiniteSets
  import opened Options
  import opened Redis

  type LeaseId = Member

  /** First loop of acquire: purge key by key, stop at the first one without room. */
  function ScanForRoom(sets: Sets, now: int, keys: seq<Key>, limits: seq<Positive>): (Sets, bool)
    requires |keys| == |limits|
  {
    if keys == [] then (sets, true)
    else
      var purged := ZRemRangeByScore(sets, now, keys[0], now);
      if |LiveScores(purged, now, keys[0])| >= limits[0] then (purged, false)
      else ScanForRoom(purged, now, keys[1..], limits[1..])
  }

  /** First loop of renew: purge key by key, stop at the first one that lost the lease. */
  function ScanForLease(sets: Sets, now: int, keys: seq<Key>, lease: LeaseId): (Sets, bool) {
    if keys == [] then (sets, true)
    else
      var purged := ZRemRangeByScore(sets, now, keys[0], now);
      if lease !in LiveScores(purged, now, keys[0]) then (purged, false)
      else ScanForLease(purged, now, keys[1..], lease)
  }

  method StoreLease(redis: Server, keys: seq<Key>, lease: LeaseId, ttl: Positive)
    modifies redis`sets
    ensures redis.sets == AddAll(old(redis.sets), redis.now, keys, redis.now + ttl, lease, ttl + 5000)
  {
    hide ZAdd, PExpire;
    ghost var before := redis.sets;
    for i := 0 to |keys|
      invariant redis.sets == AddAll(before, redis.now, keys[..i], redis.now + ttl, lease, ttl + 5000)
    {
      assert keys[..i + 1][..i] == keys[..i];
      redis.sets := ZAdd(redis.sets, redis.now, keys[i], redis.now + ttl, lease);
      redis.sets := PExpire(redis.sets, redis.now, keys[i], ttl + 5000);
    }
    assert keys[..|keys|] == keys;
  }

  method Acquire(redis: Server, keys: seq<Key>, limits: seq<Positive>, lease: LeaseId, ttl: Positive)
    returns (answer: int)
    requires |keys| == |limits|
    modifies redis`sets
    ensures var (scanned, room) := ScanForRoom(old(redis.sets), redis.now, keys, limits);
            && answer == (if room then 1 else 0)
            && redis.sets == if room then AddAll(scanned, redis.now, keys, redis.now + ttl, lease, ttl + 5000)
                             else scanned
  {
    hide ZRemRangeByScore, AddAll;
    var now := redis.now;
    ghost var before := redis.sets;
    for i := 0 to |keys|
      invariant ScanForRoom(before, now, keys, limits) == ScanForRoom(redis.sets, now, keys[i..], limits[i..])
    {
      assert keys[i..][1..] == keys[i + 1..] && limits[i..][1..] == limits[i + 1..];
      redis.sets := ZRemRangeByScore(redis.sets, now, keys[i], now);
      if |LiveScores(redis.sets, now, keys[i])| >= limits[i] {
        return 0;
      }
    }
    StoreLease(redis, keys, lease, ttl);
    answer := 1;
  }

  method Renew(redis: Server, keys: seq<Key>, lease: LeaseId, ttl: Positive) returns (answer: int)
    modifies redis`sets
    ensures var (scanned, held) := ScanForLease(old(redis.sets), redis.now, keys, lease);
            && answer == (if held then 1 else 0)
            && redis.sets == if held then AddAll(scanned, redis.now, keys, redis.now + ttl, lease, ttl + 5000)
                             else scanned
  {
    hide ZRemRangeByScore, AddAll;
    var now := redis.now;
    ghost var before := redis.sets;
    for i := 0 to |keys|
      invariant ScanForLease(before, now, keys, lease) == ScanForLease(redis.sets, now, keys[i..], lease)
    {
      assert keys[i..][1..] == keys[i + 1..];
      redis.sets := ZRemRangeByScore(redis.sets, now, keys[i], now);
      if lease !in LiveScores(redis.sets, now, keys[i]) {
        return 0;
      }
    }
    StoreLease(redis, keys, lease, ttl);
    answer := 1;
  }

  method Release(redis: Server, keys: seq<Key>, lease: LeaseId)
    modifies redis`sets
    ensures redis.sets == RemoveAll(old(redis.sets), redis.now, keys, lease)
  {
    hide ZRem;
    ghost var before := redis.sets;
    for i := 0 to |keys|
      invariant redis.sets == RemoveAll(before, redis.now, keys[..i], lease)
    {
      assert keys[..i + 1][..i] == keys[..i];
      redis.sets := ZRem(redis.sets, redis.now, keys[i], lease);
    }
    assert keys[..|keys|] == keys;
  }

  // ---- What the scans do, key by key --------------------------------------------------------

  /** A scan changes a key only by dropping entries that have expired already. */
  ghost predicate OnlyPurged(sets: Sets, sets': Sets, now: int, k: Key) {
    Live(sets', now, k) == Live(sets, now, k) || Live(sets', now, k) == Purged(Live(sets, now, k), now)
  }

  /** The leases of a key that still count at `now`. */
  function Holders(sets: Sets, now: int, k: Key): Scores {
    Above(LiveScores(sets, now, k), now)
  }

  lemma PurgeOne(sets: Sets, now: int, key: Key, k: Key)
    ensures var purged := ZRemRangeByScore(sets, now, key, now);
            && Live(purged, now, k) == (if k == key then Purged(Live(sets, now, k), now) else Live(sets, now, k))
            && Holders(purged, now, k) == Holders(sets, now, k)
            && (k == key ==> LiveScores(purged, now, k) == Holders(sets, now, k))
  {
    PurgeFacts(Live(sets, now, k), now);
    assert Above(Holders(sets, now, k), now) == Holders(sets, now, k);
  }

  lemma {:induction false} ScanForRoomFacts(sets: Sets, now: int, keys: seq<Key>, limits: seq<Positive>, k: Key)
    requires |keys| == |limits|
    ensures var (scanned, room) := ScanForRoom(sets, now, keys, limits);
            && OnlyPurged(sets, scanned, now, k)
            && Holders(scanned, now, k) == Holders(sets, now, k)
            && (room <==> forall i :: 0 <= i < |keys| ==> |Holders(sets, now, keys[i])| < limits[i])
            && (room && k in keys ==> Live(scanned, now, k) == Purged(Live(sets, now, k), now))
    decreases |keys|
  {
    hide Live, ZRemRangeByScore, Purged, Holders, Above;
    if keys != [] {
      var purged := ZRemRangeByScore(sets, now, keys[0], now);
      PurgeOne(sets, now, keys[0], k);
      PurgeOne(sets, now, keys[0], keys[0]);
      PurgeFacts(Live(sets, now, k), now);
      if |LiveScores(purged, now, keys[0])| < limits[0] {
        ScanForRoomFacts(purged, now, keys[1..], limits[1..], k);
        forall i | 0 <= i < |keys|
          ensures Holders(purged, now, keys[i]) == Holders(sets, now, keys[i])
        {
          PurgeOne(sets, now, keys[0], keys[i]);
        }
        forall i | 0 <= i < |keys| - 1 ensures keys[1..][i] == keys[i + 1] && limits[1..][i] == limits[i + 1] {}
        var (_, room) := ScanForRoom(purged, now, keys[1..], limits[1..]);
        if room {
          forall i | 0 <= i < |keys| ensures |Holders(sets, now, keys[i])| < limits[i] {
            if i > 0 { assert keys[1..][i - 1] == keys[i]; }
          }
        }
      }
    }
  }

  lemma {:induction false} ScanForLeaseFacts(sets: Sets, now: int, keys: seq<Key>, lease: LeaseId, k: Key)
    ensures var (scanned, held) := ScanForLease(sets, now, keys, lease);
            && OnlyPurged(sets, scanned, now, k)
            && Holders(scanned, now, k) == Holders(sets, now, k)
            && (held <==> forall q :: q in keys ==> lease in Holders(sets, now, q))
            && (held && k in keys ==> Live(scanned, now, k) == Purged(Live(sets, now, k), now))
    decreases |keys|
  {
    hide Live, ZRemRangeByScore, Purged, Holders, Above;
    if keys != [] {
      var purged := ZRemRangeByScore(sets, now, keys[0], now);
      PurgeOne(sets, now, keys[0], k);
      PurgeOne(sets, now, keys[0], keys[0]);
      PurgeFacts(Live(sets, now, k), now);
      if lease in LiveScores(purged, now, keys[0]) {
        ScanForLeaseFacts(purged, now, keys[1..], lease, k);
        forall q | q in keys ensures Holders(purged, now, q) == Holders(sets, now, q) {
          PurgeOne(sets, now, keys[0], q);
        }
        assert keys == [keys[0]] + keys[1..];
      }
    }
  }

  // ---- Runs ---------------------------------------------------------------------------------

  /** Limits and the time to live are fixed; a lease id is random, so it determines its keys. */
  datatype Config = Config(limit: Key -> Positive, keys: LeaseId -> seq<Key>, ttl: Positive)

  /** `leases` is the abstract view: every lease acquired and not released, with its expiry. */
  datatype State = State(sets: Sets, now: int, used: set<LeaseId>, leases: map<LeaseId, int>)

  function Stored(c: Config, sets: Sets, now: int, id: LeaseId): Sets {
    AddAll(sets, now, c.keys(id), now + c.ttl, id, c.ttl + 5000)
  }

  /** One execution of the acquire script for a fresh lease. */
  ghost predicate AcquireStep(c: Config, s: State, s': State, id: LeaseId, granted: bool) {
    var keys := c.keys(id);
    var (scanned, room) := ScanForRoom(s.sets, s.now, keys, LimitsOf(c.limit, keys));
    && id !in s.used && keys != [] && granted == room
    && s' == State(if room then Stored(c, scanned, s.now, id) else scanned, s.now, s.used + {id},
                   if room then s.leases[id := s.now + c.ttl] else s.leases)
  }

  ghost predicate RenewStep(c: Config, s: State, s': State, id: LeaseId, renewed: bool) {
    var (scanned, held) := ScanForLease(s.sets, s.now, c.keys(id), id);
    && c.keys(id) != [] && renewed == held
    && s' == s.(sets := if held then Stored(c, scanned, s.now, id) else scanned,
                leases := if held then s.leases[id := s.now + c.ttl] else s.leases)
  }

  ghost predicate ReleaseStep(c: Config, s: State, s': State, id: LeaseId) {
    s' == s.(sets := RemoveAll(s.sets, s.now, c.keys(id), id), leases := s.leases - {id})
  }

  ghost predicate Tick(s: State, s': State) {
    s'.now >= s.now && s' == s.(now := s'.now)
  }

  /** Any step the client owning lease `id` may cause. A crashed client simply stops causing steps. */
  ghost predicate StepOf(c: Config, s: State, s': State, id: LeaseId) {
    || AcquireStep(c, s, s', id, true)
    || AcquireStep(c, s, s', id, false)
    || RenewStep(c, s, s', id, true)
    || RenewStep(c, s, s', id, false)
    || ReleaseStep(c, s, s', id)
  }

  ghost predicate Next(c: Config, s: State, s': State) {
    Tick(s, s') || exists id :: StepOf(c, s, s', id)
  }

  ghost predicate Init(s: State) {
    s.sets == map[] && s.used == {} && s.leases == map[]
  }

  ghost predicate IsRun(c: Config, run: seq<State>) {
    && |run| > 0 && Init(run[0])
    && forall i :: 0 < i < |run| ==> Next(c, run[i - 1], run[i])
  }

  /** The abstract leases that count for a key. */
  ghost function LiveLeases(c: Config, leases: map<LeaseId, int>, now: int, k: Key): Scores {
    map id | id in leases && k in c.keys(id) && leases[id] > now :: leases[id]
  }

  ghost predicate KeyAgrees(c: Config, s: State, k: Key) {
    var entry := Live(s.sets, s.now, k);
    && Holders(s.sets, s.now, k) == LiveLeases(c, s.leases, s.now, k)
    && |Holders(s.sets, s.now, k)| <= c.limit(k)
    && (forall id :: id in ScoresOf(entry) ==>
          entry.value.expireAt.Some? && ScoresOf(entry)[id] + 5000 <= entry.value.expireAt.value
          && ScoresOf(entry)[id] <= s.now + c.ttl)
  }

  ghost predicate Inv(c: Config, s: State) {
    && s.leases.Keys <= s.used
    && (forall id :: id in s.leases ==> s.leases[id] <= s.now + c.ttl)
    && forall k :: KeyAgrees(c, s, k)
  }

  lemma TickKeeps(c: Config, s: State, s': State, k: Key)
    requires KeyAgrees(c, s, k) && Tick(s, s')
    ensures KeyAgrees(c, s', k)
  {
    var before, after := Holders(s.sets, s.now, k), Holders(s.sets, s'.now, k);
    var leases := LiveLeases(c, s.leases, s'.now, k);
    forall id
      ensures id in after <==> id in leases
      ensures id in after ==> id in before && after[id] == leases[id]
    {
      if id in after { assert id in before; }
      if id in leases { assert id in LiveLeases(c, s.leases, s.now, k); }
    }
    SubsetSize(after.Keys, before.Keys);
  }

  /** Purging entries that have expired already keeps a key's agreement. */
  lemma PurgeKeeps(c: Config, s: State, sets': Sets, k: Key)
    requires KeyAgrees(c, s, k) && OnlyPurged(s.sets, sets', s.now, k)
    requires Holders(sets', s.now, k) == Holders(s.sets, s.now, k)
    ensures KeyAgrees(c, s.(sets := sets'), k)
  {
  }

  lemma StoredEntry(entry: Option<SortedSet>, now: int, id: LeaseId, ttl: Positive)
    ensures var stored := AddedWithExpiry(Purged(entry, now), id, now + ttl, now + ttl + 5000);
            var scores := Above(ScoresOf(entry), now)[id := now + ttl];
            && stored.Some? && stored.value.expireAt == Some(now + ttl + 5000)
            && stored.value.scores == scores && Above(scores, now) == scores
  {
    PurgeFacts(entry, now);
  }

  lemma LeaseAdded(c: Config, leases: map<LeaseId, int>, now: int, id: LeaseId, k: Key)
    ensures LiveLeases(c, leases[id := now + c.ttl], now, k) ==
            if k in c.keys(id) then LiveLeases(c, leases, now, k)[id := now + c.ttl] else LiveLeases(c, leases, now, k)
  {
  }

  /** Storing a lease under a key that has room, or already holds it, keeps the key's agreement. */
  lemma StoreKeeps(c: Config, s: State, sets: Sets, s': State, id: LeaseId, k: Key)
    requires KeyAgrees(c, s, k) && s'.now == s.now
    requires k in c.keys(id) ==> Live(sets, s.now, k) == Purged(Live(s.sets, s.now, k), s.now)
    requires k !in c.keys(id) ==> OnlyPurged(s.sets, sets, s.now, k)
    requires Holders(sets, s.now, k) == Holders(s.sets, s.now, k)
    requires k in c.keys(id) ==> |Holders(s.sets, s.now, k)| < c.limit(k) || id in Holders(s.sets, s.now, k)
    requires s'.sets == Stored(c, sets, s.now, id) && s'.leases == s.leases[id := s.now + c.ttl]
    ensures KeyAgrees(c, s', k)
  {
    hide AddAll, Live, AddedWithExpiry, Purged, LiveLeases;
    AddAllLive(sets, s.now, c.keys(id), s.now + c.ttl, id, c.ttl + 5000, k);
    LeaseAdded(c, s.leases, s.now, id, k);
    if k in c.keys(id) {
      StoredEntry(Live(s.sets, s.now, k), s.now, id, c.ttl);
      var before := Holders(s.sets, s.now, k);
      assert before[id := s.now + c.ttl].Keys == before.Keys + {id};
    } else {
      PurgeFacts(Live(s.sets, s.now, k), s.now);
      SameScores(s.sets, sets, s.now, k);
    }
  }

  /** What purging leaves is what was there, with the same expiry. */
  lemma SameScores(sets: Sets, sets': Sets, now: int, k: Key)
    requires OnlyPurged(sets, sets', now, k)
    ensures forall id :: id in LiveScores(sets', now, k) ==>
              && Live(sets, now, k).Some? && id in LiveScores(sets, now, k)
              && LiveScores(sets', now, k)[id] == LiveScores(sets, now, k)[id]
              && Live(sets', now, k).value.expireAt == Live(sets, now, k).value.expireAt
  {
  }

  lemma AcquireKeeps(c: Config, s: State, s': State, id: LeaseId, granted: bool, k: Key)
    requires KeyAgrees(c, s, k) && AcquireStep(c, s, s', id, granted)
    ensures KeyAgrees(c, s', k)
  {
    hide KeyAgrees, ScanForRoom, Stored;
    var keys := c.keys(id);
    var (scanned, _) := ScanForRoom(s.sets, s.now, keys, LimitsOf(c.limit, keys));
    ScanForRoomFacts(s.sets, s.now, keys, LimitsOf(c.limit, keys), k);
    if granted {
      StoreKeeps(c, s, scanned, s', id, k);
    } else {
      PurgeKeeps(c, s, scanned, k);
      AgreementIgnoresUsed(c, s.(sets := scanned), s', k);
    }
  }

  lemma AgreementIgnoresUsed(c: Config, s: State, s': State, k: Key)
    requires KeyAgrees(c, s, k) && s'.sets == s.sets && s'.now == s.now && s'.leases == s.leases
    ensures KeyAgrees(c, s', k)
  {
  }

  lemma RenewKeeps(c: Config, s: State, s': State, id: LeaseId, renewed: bool, k: Key)
    requires KeyAgrees(c, s, k) && RenewStep(c, s, s', id, renewed)
    ensures KeyAgrees(c, s', k)
  {
    hide KeyAgrees, ScanForLease, Stored;
    var (scanned, _) := ScanForLease(s.sets, s.now, c.keys(id), id);
    ScanForLeaseFacts(s.sets, s.now, c.keys(id), id, k);
    if renewed {
      StoreKeeps(c, s, scanned, s', id, k);
    } else {
      PurgeKeeps(c, s, scanned, k);
    }
  }

  lemma WithoutEntry(entry: Option<SortedSet>, now: int, id: LeaseId)
    ensures var rest := Without(entry, id);
            && ScoresOf(rest) == ScoresOf(entry) - {id}
            && Above(ScoresOf(rest), now) == Above(ScoresOf(entry), now) - {id}
            && (rest.Some? ==> entry.Some? && rest.value.expireAt == entry.value.expireAt)
  {
  }

  lemma LeaseRemoved(c: Config, leases: map<LeaseId, int>, now: int, id: LeaseId, k: Key)
    ensures LiveLeases(c, leases - {id}, now, k) ==
            if k in c.keys(id) then LiveLeases(c, leases, now, k) - {id} else LiveLeases(c, leases, now, k)
  {
  }

  lemma ReleaseKeeps(c: Config, s: State, s': State, id: LeaseId, k: Key)
    requires KeyAgrees(c, s, k) && ReleaseStep(c, s, s', id)
    ensures KeyAgrees(c, s', k)
  {
    hide RemoveAll, Live, Without, LiveLeases, Above;
    RemoveAllLive(s.sets, s.now, c.keys(id), id, k);
    LeaseRemoved(c, s.leases, s.now, id, k);
    if k in c.keys(id) {
      WithoutEntry(Live(s.sets, s.now, k), s.now, id);
      SubsetSize(Holders(s'.sets, s.now, k).Keys, Holders(s.sets, s.now, k).Keys);
    }
  }

  lemma StepKeepsInv(c: Config, s: State, s': State)
    requires Inv(c, s) && Next(c, s, s')
    ensures Inv(c, s')
  {
    hide KeyAgrees, ScanForRoom, ScanForLease, Stored, RemoveAll;
    if Tick(s, s') {
      forall k ensures KeyAgrees(c, s', k) { TickKeeps(c, s, s', k); }
    } else {
      var id :| StepOf(c, s, s', id);
      forall k ensures KeyAgrees(c, s', k) {
        if AcquireStep(c, s, s', id, true) { AcquireKeeps(c, s, s', id, true, k); }
        else if AcquireStep(c, s, s', id, false) { AcquireKeeps(c, s, s', id, false, k); }
        else if RenewStep(c, s, s', id, true) { RenewKeeps(c, s, s', id, true, k); }
        else if RenewStep(c, s, s', id, false) { RenewKeeps(c, s, s', id, false, k); }
        else { ReleaseKeeps(c, s, s', id, k); }
      }
      if RenewStep(c, s, s', id, true) { RenewFindsLease(c, s, s', id, true); }
    }
  }

  /** Renew succeeds exactly on a lease that is still live. */
  lemma RenewFindsLease(c: Config, s: State, s': State, id: LeaseId, renewed: bool)
    requires Inv(c, s) && RenewStep(c, s, s', id, renewed)
    ensures renewed <==> id in s.leases && s.leases[id] > s.now
  {
    hide ScanForLease, Stored;
    var keys := c.keys(id);
    ScanForLeaseFacts(s.sets, s.now, keys, id, keys[0]);
    forall k | k in keys
      ensures id in Holders(s.sets, s.now, k) <==> id in s.leases && s.leases[id] > s.now
    {
      assert KeyAgrees(c, s, k);
    }
    assert keys[0] in keys;
  }

  lemma {:induction false} RunKeepsInv(c: Config, run: seq<State>, i: nat)
    requires IsRun(c, run) && i < |run|
    ensures Inv(c, run[i])
    decreases i
  {
    if i > 0 {
      RunKeepsInv(c, run, i - 1);
      StepKeepsInv(c, run[i - 1], run[i]);
    }
  }

  /**
   The per-key sets refine one map: a lease is live under one of its keys exactly when it is live
   under all of them, with the one expiry the abstract map holds.
   */
  lemma LiveUnderOneKeyIffAll(c: Config, run: seq<State>, i: nat, id: LeaseId, k: Key, k': Key)
    requires IsRun(c, run) && i < |run| && k in c.keys(id) && k' in c.keys(id)
    ensures var s := run[i];
            && (id in Holders(s.sets, s.now, k) <==> id in Holders(s.sets, s.now, k'))
            && (id in Holders(s.sets, s.now, k) <==> id in s.leases && s.leases[id] > s.now)
            && (id in Holders(s.sets, s.now, k) ==>
                  Holders(s.sets, s.now, k)[id] == Holders(s.sets, s.now, k')[id] == s.leases[id])
  {
    RunKeepsInv(c, run, i);
    assert KeyAgrees(c, run[i], k) && KeyAgrees(c, run[i], k');
  }

  /** No key ever has more live leases than its limit, although renew does not look at the limit. */
  lemma NeverMoreThanLimit(c: Config, run: seq<State>, i: nat, k: Key)
    requires IsRun(c, run) && i < |run|
    ensures |Holders(run[i].sets, run[i].now, k)| <= c.limit(k)
  {
    RunKeepsInv(c, run, i);
    assert KeyAgrees(c, run[i], k);
  }

  /** A denied acquire and a failed renew change no key's holders, at no later time either. */
  lemma RefusalChangesNothing(c: Config, run: seq<State>, i: nat, s': State, id: LeaseId, t: int, k: Key)
    requires IsRun(c, run) && i < |run| && t >= run[i].now
    requires AcquireStep(c, run[i], s', id, false) || RenewStep(c, run[i], s', id, false)
    ensures Holders(s'.sets, t, k) == Holders(run[i].sets, t, k)
  {
    var s := run[i];
    RunKeepsInv(c, run, i);
    assert StepOf(c, s, s', id);
    StepKeepsInv(c, s, s');
    assert KeyAgrees(c, s, k) && KeyAgrees(c, s', k);
    TickKeeps(c, s, s.(now := t), k);
    TickKeeps(c, s', s'.(now := t), k);
  }

  /** An acquire succeeds exactly when every key has fewer live leases than its limit. */
  lemma GrantedIffRoom(c: Config, run: seq<State>, i: nat, s': State, id: LeaseId, granted: bool)
    requires IsRun(c, run) && i < |run| && AcquireStep(c, run[i], s', id, granted)
    ensures granted <==> forall k :: k in c.keys(id) ==> |LiveLeases(c, run[i].leases, run[i].now, k)| < c.limit(k)
  {
    hide ScanForRoom, Stored, LiveLeases, Holders;
    var s, keys := run[i], c.keys(id);
    RunKeepsInv(c, run, i);
    ScanForRoomFacts(s.sets, s.now, keys, LimitsOf(c.limit, keys), keys[0]);
    forall k ensures Holders(s.sets, s.now, k) == LiveLeases(c, s.leases, s.now, k) { assert KeyAgrees(c, s, k); }
    assert forall j :: 0 <= j < |keys| ==> LimitsOf(c.limit, keys)[j] == c.limit(keys[j]);
    if granted {
      forall k | k in keys ensures |LiveLeases(c, s.leases, s.now, k)| < c.limit(k) {
        var j :| 0 <= j < |keys| && keys[j] == k;
        assert |Holders(s.sets, s.now, keys[j])| < c.limit(keys[j]);
      }
    } else {
      var j :| 0 <= j < |keys| && |Holders(s.sets, s.now, keys[j])| >= LimitsOf(c.limit, keys)[j];
      assert keys[j] in keys;
    }
  }

  ghost predicate ReleasedBetween(c: Config, run: seq<State>, id: LeaseId, i: nat, j: nat)
    requires i <= j < |run|
  {
    exists n :: i < n <= j && ReleaseStep(c, run[n - 1], run[n], id)
  }

  lemma {:induction false} UnreleasedKeepsExpiry(c: Config, run: seq<State>, id: LeaseId, i: nat, j: nat, expiry: int)
    requires IsRun(c, run) && i <= j < |run| && !ReleasedBetween(c, run, id, i, j)
    requires id in run[i].leases && run[i].leases[id] >= expiry
    requires run[j].now < expiry && expiry <= run[i].now + c.ttl
    ensures id in run[j].leases && run[j].leases[id] >= expiry && run[i].now <= run[j].now
    decreases j
  {
    hide Next, ReleaseStep, Inv;
    if i < j {
      assert Next(c, run[j - 1], run[j]);
      ClockAdvances(c, run[j - 1], run[j]);
      assert forall n :: i < n <= j - 1 && ReleaseStep(c, run[n - 1], run[n], id) ==>
             ReleasedBetween(c, run, id, i, j);
      UnreleasedKeepsExpiry(c, run, id, i, j - 1, expiry);
      RunKeepsInv(c, run, j - 1);
      StepKeepsExpiry(c, run[j - 1], run[j], id, expiry);
    }
  }

  lemma ClockAdvances(c: Config, s: State, s': State)
    requires Next(c, s, s')
    ensures s.now <= s'.now
  {
    hide ScanForRoom, ScanForLease, Stored, RemoveAll;
  }

  lemma StepKeepsExpiry(c: Config, s: State, s': State, id: LeaseId, expiry: int)
    requires Inv(c, s) && Next(c, s, s') && !ReleaseStep(c, s, s', id)
    requires id in s.leases && expiry <= s.leases[id] && expiry <= s.now + c.ttl
    ensures id in s'.leases && expiry <= s'.leases[id]
  {
    hide ScanForRoom, ScanForLease, Stored, RemoveAll, KeyAgrees;
  }

  /** A lease that was granted or renewed counts under all its keys for the whole time to live, unless released. */
  lemma CountsUntilExpiry(c: Config, run: seq<State>, id: LeaseId, i: nat, j: nat, k: Key)
    requires IsRun(c, run) && i + 1 <= j < |run| && k in c.keys(id)
    requires AcquireStep(c, run[i], run[i + 1], id, true) || RenewStep(c, run[i], run[i + 1], id, true)
    requires !ReleasedBetween(c, run, id, i + 1, j) && run[j].now < run[i].now + c.ttl
    ensures id in Holders(run[j].sets, run[j].now, k)
  {
    hide ScanForRoom, ScanForLease, Stored;
    UnreleasedKeepsExpiry(c, run, id, i + 1, j, run[i].now + c.ttl);
    RunKeepsInv(c, run, j);
    assert KeyAgrees(c, run[j], k);
  }

  ghost predicate RenewedBetween(c: Config, run: seq<State>, id: LeaseId, i: nat, j: nat)
    requires i <= j < |run|
  {
    exists n :: i < n <= j && RenewStep(c, run[n - 1], run[n], id, true)
  }

  lemma {:induction false} UnrenewedKeepsExpiry(c: Config, run: seq<State>, id: LeaseId, i: nat, j: nat)
    requires IsRun(c, run) && i <= j < |run| && id in run[i].used && !RenewedBetween(c, run, id, i, j)
    ensures id in run[j].used
    ensures id in run[j].leases ==> id in run[i].leases && run[j].leases[id] == run[i].leases[id]
    decreases j
  {
    if i < j {
      assert forall n :: i < n <= j - 1 && RenewStep(c, run[n - 1], run[n], id, true) ==>
             RenewedBetween(c, run, id, i, j);
      UnrenewedKeepsExpiry(c, run, id, i, j - 1);
      assert Next(c, run[j - 1], run[j]);
    }
  }

  /** A lease that is not renewed stops counting once the expiry of its last grant has passed. */
  lemma UnrenewedStopsCounting(c: Config, run: seq<State>, id: LeaseId, i: nat, j: nat, k: Key)
    requires IsRun(c, run) && i <= j < |run| && id in run[i].leases && !RenewedBetween(c, run, id, i, j)
    requires run[j].now >= run[i].leases[id]
    ensures id !in Holders(run[j].sets, run[j].now, k)
  {
    RunKeepsInv(c, run, i);
    RunKeepsInv(c, run, j);
    UnrenewedKeepsExpiry(c, run, id, i, j);
    assert KeyAgrees(c, run[j], k);
  }

  ghost predicate Dead(s: State, id: LeaseId) {
    id in s.used && (id !in s.leases || s.leases[id] <= s.now)
  }

  lemma DeadStep(c: Config, s: State, s': State, id: LeaseId)
    requires Inv(c, s) && Dead(s, id) && Next(c, s, s')
    ensures Dead(s', id)
  {
    hide ScanForRoom, ScanForLease, Stored, RemoveAll, KeyAgrees;
    if RenewStep(c, s, s', id, true) {
      RenewFindsLease(c, s, s', id, true);
    }
  }

  /** Renew never brings back a lease that was released or has expired. */
  lemma {:induction false} NothingRevives(c: Config, run: seq<State>, id: LeaseId, i: nat, j: nat, k: Key)
    requires IsRun(c, run) && i <= j < |run| && Dead(run[i], id)
    ensures Dead(run[j], id) && id !in Holders(run[j].sets, run[j].now, k)
    decreases j
  {
    hide Next;
    if i < j {
      NothingRevives(c, run, id, i, j - 1, k);
      RunKeepsInv(c, run, j - 1);
      DeadStep(c, run[j - 1], run[j], id);
    }
    RunKeepsInv(c, run, j);
    assert KeyAgrees(c, run[j], k);
  }
}
