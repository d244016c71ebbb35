/**
 The sliding-window admission script (src/apex/app/distributed_limits.py:21-46): the script itself
 as a method on the server, and what whole runs of it guarantee.
 */
module WindowLimit {
  import opened FiniteSets
  import opened Options
  import opened Redis

  /** The entries of `key` the script counts: everything younger than the window. */
  function InWindow(sets: Sets, now: int, key: Key, window: Positive): Scores {
    Above(LiveScores(sets, now, key), now - window)
  }

  /** Seconds until one key has room again, zero when it has room now. */
  ghost function Wait(counted: Scores, limit: Positive, window: Positive, now: int): int {
    if |counted| < limit then 0
    else var w := CeilSeconds(Oldest(counted) + window - now); if w > 1 then w else 1
  }

  /** The longest wait over all keys of the request. */
  ghost function LongestWait(sets: Sets, now: int, keys: seq<Key>, limits: seq<Positive>, window: Positive): int
    requires |keys| == |limits|
  {
    if keys == [] then 0
    else
      var last := |keys| - 1;
      var earlier := LongestWait(sets, now, keys[..last], limits[..last], window);
      var wait := Wait(InWindow(sets, now, keys[last], window), limits[last], window, now);
      if wait > earlier then wait else earlier
  }

  method FixedWindow(redis: Server, keys: seq<Key>, limits: seq<Positive>, window: Positive, member: Member)
    returns (retry: int)
    requires |keys| == |limits|
    modifies redis`sets
    ensures retry == LongestWait(old(redis.sets), redis.now, keys, limits, window)
    ensures redis.sets ==
            var purged := PurgeAll(old(redis.sets), redis.now, keys, redis.now - window);
            if retry > 0 then purged else AddAll(purged, redis.now, keys, redis.now, member, window + 1000)
  {
    hide ZRemRangeByScore, AddAll, Live, ScoresOf;
    var now := redis.now;
    ghost var before := redis.sets;
    retry := 0;
    for i := 0 to |keys|
      invariant redis.sets == PurgeAll(before, now, keys[..i], now - window)
      invariant retry == LongestWait(before, now, keys[..i], limits[..i], window)
    {
      assert keys[..i + 1][..i] == keys[..i] && limits[..i + 1][..i] == limits[..i];
      redis.sets := ZRemRangeByScore(redis.sets, now, keys[i], now - window);
      PurgedCount(before, now, keys[..i + 1], now - window);
      if |LiveScores(redis.sets, now, keys[i])| >= limits[i] {
        var oldest := redis.OldestScore(keys[i]);
        var wait := CeilSeconds(oldest + window - now);
        if wait < 1 { wait := 1; }
        if wait > retry { retry := wait; }
      }
    }
    assert keys[..|keys|] == keys && limits[..|keys|] == limits;
    if retry > 0 {
      return;
    }
    AdmitAll(redis, keys, window, member);
  }

  /** The last loop of the script. */
  method AdmitAll(redis: Server, keys: seq<Key>, window: Positive, member: Member)
    modifies redis`sets
    ensures redis.sets == AddAll(old(redis.sets), redis.now, keys, redis.now, member, window + 1000)
  {
    hide ZAdd, PExpire;
    ghost var before := redis.sets;
    for i := 0 to |keys|
      invariant redis.sets == AddAll(before, redis.now, keys[..i], redis.now, member, window + 1000)
    {
      assert keys[..i + 1][..i] == keys[..i];
      redis.sets := ZAdd(redis.sets, redis.now, keys[i], redis.now, member);
      redis.sets := PExpire(redis.sets, redis.now, keys[i], window + 1000);
    }
    assert keys[..|keys|] == keys;
  }

  lemma PurgedCount(sets: Sets, now: int, keys: seq<Key>, floor: int)
    requires keys != []
    ensures LiveScores(PurgeAll(sets, now, keys, floor), now, keys[|keys| - 1]) ==
            Above(LiveScores(sets, now, keys[|keys| - 1]), floor)
  {
    var k := keys[|keys| - 1];
    PurgeAllLive(sets, now, keys, floor, k);
    PurgeFacts(Live(sets, now, k), floor);
  }

  function EntryAfter(entry: Option<SortedSet>, touched: bool, admitted: bool, member: Member, now: int,
                      window: Positive)
    : Option<SortedSet>
  {
    if !touched then entry
    else if !admitted then Purged(entry, now - window)
    else AddedWithExpiry(Purged(entry, now - window), member, now, now + window + 1000)
  }

  /** One execution of the script: its answer, and what it leaves under every key. */
  ghost predicate Effect(before: Sets, after: Sets, now: int, keys: seq<Key>, limits: seq<Positive>, window: Positive,
                         member: Member, retry: int)
    requires |keys| == |limits|
  {
    && retry == LongestWait(before, now, keys, limits, window)
    && forall k :: Live(after, now, k) == EntryAfter(Live(before, now, k), k in keys, retry == 0, member, now, window)
  }

  /** What the script computes is exactly the effect the run lemmas below reason about. */
  lemma ScriptHasEffect(before: Sets, now: int, keys: seq<Key>, limits: seq<Positive>, window: Positive, member: Member)
    requires |keys| == |limits|
    ensures var retry := LongestWait(before, now, keys, limits, window);
            var purged := PurgeAll(before, now, keys, now - window);
            Effect(before, if retry > 0 then purged else AddAll(purged, now, keys, now, member, window + 1000),
                   now, keys, limits, window, member, retry)
  {
    hide PurgeAll, AddAll, LongestWait, Live, Purged, AddedWithExpiry;
    var _ := LongestWaitBounds(before, now, keys, limits, window);
    var purged := PurgeAll(before, now, keys, now - window);
    var retry := LongestWait(before, now, keys, limits, window);
    var after := if retry > 0 then purged else AddAll(purged, now, keys, now, member, window + 1000);
    forall k
      ensures Live(after, now, k) == EntryAfter(Live(before, now, k), k in keys, retry == 0, member, now, window)
    {
      PurgeAllLive(before, now, keys, now - window, k);
      AddAllLive(purged, now, keys, now, member, window + 1000, k);
    }
  }

  /** The longest wait bounds the wait of every key and, unless zero, is the wait of one of them. */
  lemma {:induction false} LongestWaitBounds(sets: Sets, now: int, keys: seq<Key>, limits: seq<Positive>,
                                             window: Positive)
    returns (n: nat)
    requires |keys| == |limits|
    ensures LongestWait(sets, now, keys, limits, window) >= 0
    ensures forall i :: 0 <= i < |keys| ==> Wait(InWindow(sets, now, keys[i], window), limits[i], window, now)
                                            <= LongestWait(sets, now, keys, limits, window)
    ensures LongestWait(sets, now, keys, limits, window) > 0 ==>
              n < |keys| && Wait(InWindow(sets, now, keys[n], window), limits[n], window, now) ==
                            LongestWait(sets, now, keys, limits, window)
  {
    n := 0;
    if keys != [] {
      var last := |keys| - 1;
      n := LongestWaitBounds(sets, now, keys[..last], limits[..last], window);
      forall i | 0 <= i < |keys|
        ensures Wait(InWindow(sets, now, keys[i], window), limits[i], window, now)
                <= LongestWait(sets, now, keys, limits, window)
      {
        if i < last { assert keys[..last][i] == keys[i] && limits[..last][i] == limits[i]; }
      }
      if Wait(InWindow(sets, now, keys[last], window), limits[last], window, now) ==
         LongestWait(sets, now, keys, limits, window) { n := last; }
    }
  }

  // ---- Runs ---------------------------------------------------------------------------------

  datatype Admission = Admission(at: int, keys: set<Key>)

  /** One namespace: its window is fixed, and so is the limit of every key. */
  datatype Config = Config(limit: Key -> Positive, window: Positive)

  /** The server together with the log of every request admitted so far. */
  datatype State = State(sets: Sets, now: int, log: map<Member, Admission>)

  ghost predicate Request(c: Config, s: State, s': State, keys: seq<Key>, member: Member, retry: int) {
    && s'.now == s.now
    && member !in s.log
    && Effect(s.sets, s'.sets, s.now, keys, LimitsOf(c.limit, keys), c.window, member, retry)
    && s'.log == if retry == 0 then s.log[member := Admission(s.now, set k | k in keys)] else s.log
  }

  ghost predicate Tick(s: State, s': State) {
    s'.now >= s.now && s'.sets == s.sets && s'.log == s.log
  }

  ghost predicate Next(c: Config, s: State, s': State) {
    Tick(s, s') || exists keys, member, retry :: Request(c, s, s', keys, member, retry)
  }

  ghost predicate IsRun(c: Config, run: seq<State>) {
    && |run| > 0
    && run[0].sets == map[] && run[0].log == map[]
    && forall i :: 0 < i < |run| ==> Next(c, run[i - 1], run[i])
  }

  /** The requests on `key` the whole run admitted in the half-open interval (from, to]. */
  ghost function AdmittedIn(log: map<Member, Admission>, key: Key, from: int, to: int): set<Member> {
    set m | m in log && key in log[m].keys && from < log[m].at <= to
  }

  ghost function Logged(log: map<Member, Admission>, key: Key, floor: int): Scores {
    map m | m in log && key in log[m].keys && log[m].at > floor :: log[m].at
  }

  ghost predicate WithinLimit(c: Config, log: map<Member, Admission>, key: Key, t: int) {
    |AdmittedIn(log, key, t - c.window, t)| <= c.limit(key)
  }

  ghost predicate ExpiriesCoverWindow(sets: Sets, now: int, window: Positive) {
    forall k, m :: m in LiveScores(sets, now, k) ==>
                     sets[k].expireAt.Some? && LiveScores(sets, now, k)[m] + window + 1000 <= sets[k].expireAt.value
  }

  ghost predicate Inv(c: Config, s: State) {
    && ExpiriesCoverWindow(s.sets, s.now, c.window)
    && (forall m :: m in s.log ==> s.log[m].at <= s.now)
    && (forall k :: InWindow(s.sets, s.now, k, c.window) == Logged(s.log, k, s.now - c.window))
    && (forall k, t :: WithinLimit(c, s.log, k, t))
  }

  /** PEXPIRE window + 1000 never drops an entry that is still in the window at any later time. */
  lemma WindowSurvivesTime(c: Config, s: State, t: int, k: Key)
    requires Inv(c, s) && t >= s.now
    ensures InWindow(s.sets, t, k, c.window) == Logged(s.log, k, t - c.window)
  {
    var now := InWindow(s.sets, s.now, k, c.window);
    var later := InWindow(s.sets, t, k, c.window);
    var logged := Logged(s.log, k, t - c.window);
    forall m
      ensures m in later <==> m in logged
      ensures m in later ==> later[m] == logged[m]
    {
      assert now == Logged(s.log, k, s.now - c.window);
      if m in later { assert m in now; }
      if m in logged { assert m in now && m in LiveScores(s.sets, s.now, k); }
    }
  }

  lemma TickKeepsInv(c: Config, s: State, s': State)
    requires Inv(c, s) && Tick(s, s')
    ensures Inv(c, s')
  {
    forall k ensures InWindow(s'.sets, s'.now, k, c.window) == Logged(s'.log, k, s'.now - c.window) {
      WindowSurvivesTime(c, s, s'.now, k);
    }
    forall k, t ensures WithinLimit(c, s'.log, k, t) {
      assert WithinLimit(c, s.log, k, t);
    }
    forall k, m | m in LiveScores(s'.sets, s'.now, k)
      ensures s'.sets[k].expireAt.Some?
      ensures LiveScores(s'.sets, s'.now, k)[m] + c.window + 1000 <= s'.sets[k].expireAt.value
    {
      assert m in LiveScores(s.sets, s.now, k);
    }
  }

  /** An admitted request found room under every one of its keys. */
  lemma AdmittedMeansRoom(c: Config, s: State, s': State, keys: seq<Key>, member: Member, k: Key)
    requires Request(c, s, s', keys, member, 0) && k in keys
    ensures |InWindow(s.sets, s.now, k, c.window)| < c.limit(k)
  {
    var limits := LimitsOf(c.limit, keys);
    var _ := LongestWaitBounds(s.sets, s.now, keys, limits, c.window);
    var i :| 0 <= i < |keys| && keys[i] == k;
    assert Wait(InWindow(s.sets, s.now, keys[i], c.window), limits[i], c.window, s.now) <= 0;
  }

  /** One admission into a window with room keeps every interval within its limit. */
  lemma AdmissionKeepsLimit(c: Config, log: map<Member, Admission>, now: int, keys: set<Key>, member: Member,
                            k: Key, t: int)
    requires WithinLimit(c, log, k, t)
    requires member !in log && forall m :: m in log ==> log[m].at <= now
    requires k in keys ==> |Logged(log, k, now - c.window)| < c.limit(k)
    ensures WithinLimit(c, log[member := Admission(now, keys)], k, t)
  {
    hide AdmittedIn, Logged;
    AdmittedGrows(log, member, now, keys, k, t - c.window, t);
    if k in keys && t - c.window < now <= t {
      EarlierAreLogged(log, now, k, c.window, t);
      SubsetSize(AdmittedIn(log, k, t - c.window, t), Logged(log, k, now - c.window).Keys);
    }
  }

  lemma AdmittedGrows(log: map<Member, Admission>, member: Member, now: int, keys: set<Key>, k: Key, from: int, to: int)
    requires member !in log
    ensures AdmittedIn(log[member := Admission(now, keys)], k, from, to) ==
            AdmittedIn(log, k, from, to) + if k in keys && from < now <= to then {member} else {}
  {
  }

  lemma EarlierAreLogged(log: map<Member, Admission>, now: int, k: Key, window: Positive, t: int)
    requires t - window < now <= t
    ensures AdmittedIn(log, k, t - window, t) <= Logged(log, k, now - window).Keys
  {
  }

  lemma EntryAfterView(entry: Option<SortedSet>, touched: bool, admitted: bool, member: Member, now: int,
                       window: Positive)
    ensures var after := Above(ScoresOf(EntryAfter(entry, touched, admitted, member, now, window)), now - window);
            var before := Above(ScoresOf(entry), now - window);
            after == if touched && admitted then before[member := now] else before
  {
    PurgeFacts(entry, now - window);
    var purged := Above(ScoresOf(entry), now - window);
    assert Above(purged, now - window) == purged;
    assert Above(purged[member := now], now - window) == purged[member := now];
  }

  lemma RequestKeepsView(c: Config, s: State, s': State, keys: seq<Key>, member: Member, retry: int, k: Key)
    requires InWindow(s.sets, s.now, k, c.window) == Logged(s.log, k, s.now - c.window)
    requires Request(c, s, s', keys, member, retry)
    ensures InWindow(s'.sets, s'.now, k, c.window) == Logged(s'.log, k, s'.now - c.window)
  {
    hide Above, EntryAfter, LongestWait, Logged, Live;
    assert Live(s'.sets, s.now, k) ==
           EntryAfter(Live(s.sets, s.now, k), k in keys, retry == 0, member, s.now, c.window);
    EntryAfterView(Live(s.sets, s.now, k), k in keys, retry == 0, member, s.now, c.window);
    if retry == 0 {
      LoggedAdmission(s.log, member, s.now, (set q | q in keys), k, s.now - c.window);
    }
  }

  lemma LoggedAdmission(log: map<Member, Admission>, member: Member, now: int, keys: set<Key>, k: Key, floor: int)
    requires member !in log && floor < now
    ensures Logged(log[member := Admission(now, keys)], k, floor) ==
            if k in keys then Logged(log, k, floor)[member := now] else Logged(log, k, floor)
  {
  }

  lemma RequestKeepsExpiries(c: Config, s: State, s': State, keys: seq<Key>, member: Member, retry: int, k: Key,
                             m: Member)
    requires Inv(c, s) && Request(c, s, s', keys, member, retry) && m in LiveScores(s'.sets, s'.now, k)
    ensures s'.sets[k].expireAt.Some?
    ensures LiveScores(s'.sets, s'.now, k)[m] + c.window + 1000 <= s'.sets[k].expireAt.value
  {
    hide LongestWait, WithinLimit;
    var entry := Live(s.sets, s.now, k);
    assert Live(s'.sets, s.now, k) == EntryAfter(entry, k in keys, retry == 0, member, s.now, c.window);
    assert forall n :: n in ScoresOf(entry) ==> n in LiveScores(s.sets, s.now, k);
    if k in keys && retry == 0 {
      assert Live(s'.sets, s.now, k).value.expireAt == Some(s.now + c.window + 1000);
      assert LiveScores(s'.sets, s.now, k)[m] <= s.now by {
        if m != member && entry.Some? {
          assert m in Above(entry.value.scores, s.now - c.window);
          assert InWindow(s.sets, s.now, k, c.window) == Logged(s.log, k, s.now - c.window);
        }
      }
    } else {
      assert m in ScoresOf(entry);
    }
  }

  lemma RequestKeepsLimit(c: Config, s: State, s': State, keys: seq<Key>, member: Member, retry: int, k: Key, t: int)
    requires Inv(c, s) && Request(c, s, s', keys, member, retry)
    ensures WithinLimit(c, s'.log, k, t)
  {
    hide LongestWait, EntryAfter, AdmittedIn, ExpiriesCoverWindow;
    assert WithinLimit(c, s.log, k, t);
    if retry == 0 {
      assert InWindow(s.sets, s.now, k, c.window) == Logged(s.log, k, s.now - c.window);
      if k in keys { AdmittedMeansRoom(c, s, s', keys, member, k); }
      AdmissionKeepsLimit(c, s.log, s.now, (set q | q in keys), member, k, t);
    }
  }

  lemma RequestKeepsInv(c: Config, s: State, s': State, keys: seq<Key>, member: Member, retry: int)
    requires Inv(c, s) && Request(c, s, s', keys, member, retry)
    ensures Inv(c, s')
  {
    hide LongestWait, EntryAfter, AdmittedIn;
    forall k ensures InWindow(s'.sets, s'.now, k, c.window) == Logged(s'.log, k, s'.now - c.window) {
      RequestKeepsView(c, s, s', keys, member, retry, k);
    }
    forall k, t ensures WithinLimit(c, s'.log, k, t) { RequestKeepsLimit(c, s, s', keys, member, retry, k, t); }
    forall k, m | m in LiveScores(s'.sets, s'.now, k)
      ensures s'.sets[k].expireAt.Some?
      ensures LiveScores(s'.sets, s'.now, k)[m] + c.window + 1000 <= s'.sets[k].expireAt.value
    {
      RequestKeepsExpiries(c, s, s', keys, member, retry, k, m);
    }
  }

  lemma {:induction false} RunKeepsInv(c: Config, run: seq<State>, i: nat)
    requires IsRun(c, run) && i < |run|
    ensures Inv(c, run[i])
    decreases i
  {
    if i == 0 {
      forall k, t ensures WithinLimit(c, run[0].log, k, t) {
        assert AdmittedIn(run[0].log, k, t - c.window, t) == {};
      }
    } else {
      RunKeepsInv(c, run, i - 1);
      assert Next(c, run[i - 1], run[i]);
      if Tick(run[i - 1], run[i]) {
        TickKeepsInv(c, run[i - 1], run[i]);
      } else {
        var keys, member, retry :| Request(c, run[i - 1], run[i], keys, member, retry);
        RequestKeepsInv(c, run[i - 1], run[i], keys, member, retry);
      }
    }
  }

  /** No interval of window length ever sees more than `limit` admissions of a key, in any run. */
  lemma NeverMoreThanLimit(c: Config, run: seq<State>, i: nat, k: Key, t: int)
    requires IsRun(c, run) && i < |run|
    ensures |AdmittedIn(run[i].log, k, t - c.window, t)| <= c.limit(k)
  {
    RunKeepsInv(c, run, i);
    assert WithinLimit(c, run[i].log, k, t);
  }

  /** Admission reaches every key of the request at once; a denial changes no key's view, now or later. */
  lemma AllOrNothing(c: Config, run: seq<State>, i: nat, s': State, keys: seq<Key>, member: Member, retry: int,
                     t: int, k: Key)
    requires IsRun(c, run) && i < |run| && Request(c, run[i], s', keys, member, retry) && t >= run[i].now
    ensures InWindow(s'.sets, t, k, c.window) ==
            if retry == 0 && k in keys && run[i].now > t - c.window
            then InWindow(run[i].sets, t, k, c.window)[member := run[i].now]
            else InWindow(run[i].sets, t, k, c.window)
  {
    RunKeepsInv(c, run, i);
    RequestKeepsInv(c, run[i], s', keys, member, retry);
    WindowSurvivesTime(c, run[i], t, k);
    WindowSurvivesTime(c, s', t, k);
  }

  /** No request admitted between the two states shares a key with `keys`. */
  ghost predicate NoAdmissionOn(s: State, s': State, keys: seq<Key>) {
    && (forall m :: m in s.log ==> m in s'.log && s'.log[m] == s.log[m])
    && (forall m :: m in s'.log && m !in s.log ==> forall k :: k in keys ==> k !in s'.log[m].keys)
  }

  /** After waiting the advertised seconds one key has room again. */
  lemma RoomAfterWait(c: Config, s: State, later: State, keys: seq<Key>, i: nat, retry: int)
    requires Inv(c, s) && Inv(c, later) && i < |keys| && NoAdmissionOn(s, later, keys)
    requires Wait(InWindow(s.sets, s.now, keys[i], c.window), c.limit(keys[i]), c.window, s.now) <= retry
    requires retry >= 0 && later.now >= s.now + 1000 * retry
    ensures |InWindow(later.sets, later.now, keys[i], c.window)| < c.limit(keys[i])
  {
    var k := keys[i];
    var first := Logged(s.log, k, s.now - c.window);
    var second := Logged(later.log, k, later.now - c.window);
    assert InWindow(s.sets, s.now, k, c.window) == first;
    assert InWindow(later.sets, later.now, k, c.window) == second;
    assert second.Keys <= first.Keys;
    if |first| < c.limit(k) {
      SubsetSize(second.Keys, first.Keys);
    } else {
      assert first.Keys == AdmittedIn(s.log, k, s.now - c.window, s.now);
      assert WithinLimit(c, s.log, k, s.now);
      var m :| m in first && first[m] == Oldest(first);
      assert first[m] + c.window - s.now <= 1000 * retry;
      assert m !in second;
      ProperSubsetSize(second.Keys, first.Keys, m);
    }
  }

  /** One second before the advertised time the key that set it is still full. */
  lemma FullBeforeWait(c: Config, s: State, later: State, keys: seq<Key>, i: nat, retry: int)
    requires Inv(c, s) && Inv(c, later) && i < |keys| && NoAdmissionOn(s, later, keys)
    requires Wait(InWindow(s.sets, s.now, keys[i], c.window), c.limit(keys[i]), c.window, s.now) == retry > 1
    requires s.now <= later.now <= s.now + 1000 * (retry - 1)
    ensures |InWindow(later.sets, later.now, keys[i], c.window)| >= c.limit(keys[i])
  {
    var k := keys[i];
    var first := Logged(s.log, k, s.now - c.window);
    var second := Logged(later.log, k, later.now - c.window);
    assert InWindow(s.sets, s.now, k, c.window) == first;
    assert InWindow(later.sets, later.now, k, c.window) == second;
    assert Oldest(first) + c.window - s.now > 1000 * (retry - 1);
    assert first.Keys <= second.Keys;
    SubsetSize(first.Keys, second.Keys);
  }

  /** The wait of the key at index `i` of a request. */
  ghost function WaitOf(c: Config, s: State, keys: seq<Key>, i: nat): int
    requires i < |keys|
  {
    Wait(InWindow(s.sets, s.now, keys[i], c.window), c.limit(keys[i]), c.window, s.now)
  }

  /** `retry` is an upper bound for every key's wait, reached at index `n` unless it is zero. */
  ghost predicate Answer(c: Config, s: State, keys: seq<Key>, retry: int, n: nat) {
    && (forall i :: 0 <= i < |keys| ==> WaitOf(c, s, keys, i) <= retry)
    && (retry != 0 ==> n < |keys| && WaitOf(c, s, keys, n) == retry)
  }

  lemma AnswerOf(c: Config, s: State, s': State, keys: seq<Key>, member: Member, retry: int) returns (n: nat)
    requires Request(c, s, s', keys, member, retry)
    ensures Answer(c, s, keys, retry, n) && retry >= 0
  {
    var limits := LimitsOf(c.limit, keys);
    n := LongestWaitBounds(s.sets, s.now, keys, limits, c.window);
    forall i | 0 <= i < |keys| ensures WaitOf(c, s, keys, i) <= retry {
      assert Wait(InWindow(s.sets, s.now, keys[i], c.window), limits[i], c.window, s.now) <= retry;
    }
  }

  /**
   A request is denied exactly when some key of it has had as many admissions as its limit in the window that
   ends now; with room under all of them it is admitted.
   */
  lemma DeniedIffSomeKeyIsFull(c: Config, run: seq<State>, i: nat, s': State, keys: seq<Key>, member: Member,
                               retry: int)
    requires IsRun(c, run) && i < |run| && Request(c, run[i], s', keys, member, retry)
    ensures retry >= 0
    ensures retry > 0 <==>
            exists k :: k in keys && |AdmittedIn(run[i].log, k, run[i].now - c.window, run[i].now)| >= c.limit(k)
  {
    hide Inv, IsRun, Request, WaitOf, AdmittedIn;
    var s := run[i];
    RunKeepsInv(c, run, i);
    var n := AnswerOf(c, s, s', keys, member, retry);
    forall j | 0 <= j < |keys|
      ensures WaitOf(c, s, keys, j) > 0 <==> |AdmittedIn(s.log, keys[j], s.now - c.window, s.now)| >= c.limit(keys[j])
    {
      WaitsIffFull(c, s, keys, j);
    }
    if k :| k in keys && |AdmittedIn(s.log, k, s.now - c.window, s.now)| >= c.limit(k) {
      var j :| 0 <= j < |keys| && keys[j] == k;
      assert WaitOf(c, s, keys, j) <= retry;
    }
  }

  /** What the script counts under a key are the admissions of the window that ends now. */
  lemma WaitsIffFull(c: Config, s: State, keys: seq<Key>, j: nat)
    requires Inv(c, s) && j < |keys|
    ensures WaitOf(c, s, keys, j) > 0 <==> |AdmittedIn(s.log, keys[j], s.now - c.window, s.now)| >= c.limit(keys[j])
  {
    var k := keys[j];
    assert InWindow(s.sets, s.now, k, c.window) == Logged(s.log, k, s.now - c.window);
    assert Logged(s.log, k, s.now - c.window).Keys == AdmittedIn(s.log, k, s.now - c.window, s.now);
  }

  lemma AnswersCompared(c: Config, s: State, later: State, keys: seq<Key>, retry: int, n: nat, retry': int, n': nat)
    requires Inv(c, s) && Inv(c, later) && NoAdmissionOn(s, later, keys) && s.now <= later.now
    requires Answer(c, s, keys, retry, n) && Answer(c, later, keys, retry', n') && retry > 0 && retry' >= 0
    ensures later.now >= s.now + 1000 * retry ==> retry' == 0
    ensures retry > 1 && later.now <= s.now + 1000 * (retry - 1) ==> retry' > 0
  {
    if later.now >= s.now + 1000 * retry && retry' != 0 {
      assert WaitOf(c, s, keys, n') <= retry;
      RoomAfterWait(c, s, later, keys, n', retry);
    }
    if retry > 1 && later.now <= s.now + 1000 * (retry - 1) {
      FullBeforeWait(c, s, later, keys, n, retry);
      assert WaitOf(c, later, keys, n) >= 1;
    }
  }

  /**
   The retry answer is exact. If a request is denied with `retry` seconds and nothing else is
   admitted on its keys, the same request is admitted once those seconds have passed and, when
   more than one second was asked for, is still denied up to one second earlier.
   */
  lemma RetryIsExact(c: Config, run: seq<State>, i: nat, j: nat, keys: seq<Key>, denied: State, member: Member,
                     retry: int, again: State, member': Member, retry': int)
    requires IsRun(c, run) && i <= j < |run| && NoAdmissionOn(run[i], run[j], keys)
    requires Request(c, run[i], denied, keys, member, retry) && retry > 0
    requires Request(c, run[j], again, keys, member', retry')
    ensures run[j].now >= run[i].now + 1000 * retry ==> retry' == 0
    ensures retry > 1 && run[j].now <= run[i].now + 1000 * (retry - 1) ==> retry' > 0
  {
    var s, later := run[i], run[j];
    RunKeepsInv(c, run, i);
    RunKeepsInv(c, run, j);
    TimeAdvances(c, run, i, j);
    var n := AnswerOf(c, s, denied, keys, member, retry);
    var n' := AnswerOf(c, later, again, keys, member', retry');
    AnswersCompared(c, s, later, keys, retry, n, retry', n');
  }

  lemma {:induction false} TimeAdvances(c: Config, run: seq<State>, i: nat, j: nat)
    requires IsRun(c, run) && i <= j < |run|
    ensures run[i].now <= run[j].now
    decreases j
  {
    if i < j {
      TimeAdvances(c, run, i, j - 1);
      assert Next(c, run[j - 1], run[j]);
    }
  }
}
