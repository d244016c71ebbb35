/**
 Failed-authentication lockout (src/apex/app/distributed_limits.py:48-88, 290-320): three scripts over
 a sorted set of failures and an expiring lock per subject, and what they say about the history of
 failures and clears.
 */
module AuthLockout {
  import opened FiniteSets
  import opened Options
  import opened Redis

  type Subject = string

  datatype Config = Config(limit: Positive, window: Positive, lockout: Positive) {
    function Retention(): nat {
      (if window > lockout then window else lockout) + 1000
    }
  }

  function FailuresKey(subject: Subject): Key { "apex:{limits}:v1:auth-failures:" + subject }

  function LockKey(subject: Subject): Key { "apex:{limits}:v1:auth-lockout:" + subject }

  lemma KeysAreDistinct(a: Subject, b: Subject)
    ensures FailuresKey(a) == FailuresKey(b) ==> a == b
    ensures LockKey(a) == LockKey(b) ==> a == b
  {
    assert FailuresKey(a)[|FailuresKey("")|..] == a && FailuresKey(b)[|FailuresKey("")|..] == b;
    assert LockKey(a)[|LockKey("")|..] == a && LockKey(b)[|LockKey("")|..] == b;
  }

  /** PTTL: -2 for a missing key, -1 for a key without expiry, else the milliseconds left. */
  function Pttl(flags: Flags, now: int, key: Key): int {
    if key !in flags || !Unexpired(flags[key], now) then -2
    else if flags[key].None? then -1
    else flags[key].value - now
  }

  /** What one lock contributes to the retry answer. */
  function LockSeconds(flags: Flags, now: int, key: Key): int {
    var ttl := Pttl(flags, now, key);
    if ttl == -1 then 1
    else if ttl > 0 then (if CeilSeconds(ttl) > 1 then CeilSeconds(ttl) else 1)
    else 0
  }

  /** The longest lock over all subjects. */
  function LongestLock(flags: Flags, now: int, subjects: seq<Subject>): int {
    if subjects == [] then 0
    else
      var last := |subjects| - 1;
      var earlier := LongestLock(flags, now, subjects[..last]);
      var seconds := LockSeconds(flags, now, LockKey(subjects[last]));
      if seconds > earlier then seconds else earlier
  }

  method AuthRetry(redis: Server, subjects: seq<Subject>) returns (retry: int)
    ensures retry == LongestLock(redis.flags, redis.now, subjects)
  {
    retry := 0;
    for i := 0 to |subjects|
      invariant retry == LongestLock(redis.flags, redis.now, subjects[..i])
    {
      assert subjects[..i + 1][..i] == subjects[..i];
      var ttl := Pttl(redis.flags, redis.now, LockKey(subjects[i]));
      if ttl == -1 {
        if retry < 1 { retry := 1; }
      } else if ttl > 0 {
        var seconds := CeilSeconds(ttl);
        if seconds < 1 { seconds := 1; }
        if retry < seconds { retry := seconds; }
      }
    }
    assert subjects[..|subjects|] == subjects;
  }

  /** The failures entry of a touched subject after the script. */
  function RecordedEntry(c: Config, entry: Option<SortedSet>, now: int, member: Member): Option<SortedSet> {
    AddedWithExpiry(Purged(entry, now - c.window), member, now, now + c.Retention())
  }

  function RecordOne(c: Config, sets: Sets, now: int, subject: Subject, member: Member): Sets {
    Store(sets, FailuresKey(subject), RecordedEntry(c, Live(sets, now, FailuresKey(subject)), now, member))
  }

  function LockOne(c: Config, sets: Sets, flags: Flags, now: int, subject: Subject): Flags {
    if |LiveScores(sets, now, FailuresKey(subject))| >= c.limit
    then flags[LockKey(subject) := Some(now + c.lockout)]
    else flags
  }

  /** The script, subject by subject. */
  function RecordAll(c: Config, sets: Sets, flags: Flags, now: int, subjects: seq<Subject>, member: Member)
    : (Sets, Flags)
  {
    if subjects == [] then (sets, flags)
    else
      var last := |subjects| - 1;
      var (sets', flags') := RecordAll(c, sets, flags, now, subjects[..last], member);
      var sets'' := RecordOne(c, sets', now, subjects[last], member);
      (sets'', LockOne(c, sets'', flags', now, subjects[last]))
  }

  method RecordFailure(redis: Server, c: Config, subjects: seq<Subject>, member: Member)
    modifies redis`sets, redis`flags
    ensures (redis.sets, redis.flags) == RecordAll(c, old(redis.sets), old(redis.flags), redis.now, subjects, member)
  {
    hide Purged, Added, Expiring, Live, Store, ScoresOf, ZRemRangeByScore, ZAdd, PExpire, AddedWithExpiry;
    var now := redis.now;
    ghost var sets, flags := redis.sets, redis.flags;
    for i := 0 to |subjects|
      invariant (redis.sets, redis.flags) == RecordAll(c, sets, flags, now, subjects[..i], member)
    {
      assert subjects[..i + 1][..i] == subjects[..i];
      var failures := FailuresKey(subjects[i]);
      ghost var before := redis.sets;
      redis.sets := ZRemRangeByScore(redis.sets, now, failures, now - c.window);
      redis.sets := ZAdd(redis.sets, now, failures, now, member);
      redis.sets := PExpire(redis.sets, now, failures, c.Retention());
      OneKeyCommands(before, now, failures, now - c.window, member, c.Retention());
      if |LiveScores(redis.sets, now, failures)| >= c.limit {
        redis.flags := redis.flags[LockKey(subjects[i]) := Some(now + c.lockout)];
      }
    }
    assert subjects[..|subjects|] == subjects;
  }

  /** The three commands on one key store the entry they compute in turn. */
  lemma OneKeyCommands(sets: Sets, now: int, key: Key, floor: int, member: Member, ttl: nat)
    ensures PExpire(ZAdd(ZRemRangeByScore(sets, now, key, floor), now, key, now, member), now, key, ttl) ==
            Store(sets, key, AddedWithExpiry(Purged(Live(sets, now, key), floor), member, now, now + ttl))
  {
    var purged := ZRemRangeByScore(sets, now, key, floor);
    assert Live(purged, now, key) == Purged(Live(sets, now, key), floor);
    var added := ZAdd(purged, now, key, now, member);
    assert Live(added, now, key) == Added(Live(purged, now, key), member, now);
    assert PExpire(added, now, key, ttl).Keys == sets.Keys + {key};
  }

  function FailuresKeys(subjects: seq<Subject>): set<Key> { set s | s in subjects :: FailuresKey(s) }

  function LockKeys(subjects: seq<Subject>): set<Key> { set s | s in subjects :: LockKey(s) }

  lemma OtherKeys(subjects: seq<Subject>, subject: Subject)
    requires subject !in subjects
    ensures FailuresKey(subject) !in FailuresKeys(subjects) && LockKey(subject) !in LockKeys(subjects)
  {
    forall other | other in subjects
      ensures FailuresKey(other) != FailuresKey(subject) && LockKey(other) != LockKey(subject)
    {
      KeysAreDistinct(subject, other);
    }
  }

  /** DEL of both keys of every subject: what is left of the server keeps exactly the other subjects' entries. */
  method ClearAuth(redis: Server, subjects: seq<Subject>)
    modifies redis`sets, redis`flags
    ensures redis.sets == old(redis.sets) - FailuresKeys(subjects)
    ensures redis.flags == old(redis.flags) - LockKeys(subjects)
    ensures forall s :: s in subjects ==> FailuresKey(s) !in redis.sets && LockKey(s) !in redis.flags
    ensures forall s :: s !in subjects ==>
              && Live(redis.sets, redis.now, FailuresKey(s)) == old(Live(redis.sets, redis.now, FailuresKey(s)))
              && Pttl(redis.flags, redis.now, LockKey(s)) == old(Pttl(redis.flags, redis.now, LockKey(s)))
  {
    ghost var sets, flags := redis.sets, redis.flags;
    for i := 0 to |subjects|
      invariant redis.sets == sets - FailuresKeys(subjects[..i]) && redis.flags == flags - LockKeys(subjects[..i])
    {
      assert subjects[..i + 1] == subjects[..i] + [subjects[i]];
      assert FailuresKeys(subjects[..i + 1]) == FailuresKeys(subjects[..i]) + {FailuresKey(subjects[i])};
      assert LockKeys(subjects[..i + 1]) == LockKeys(subjects[..i]) + {LockKey(subjects[i])};
      redis.sets := redis.sets - {FailuresKey(subjects[i])};
      redis.flags := redis.flags - {LockKey(subjects[i])};
    }
    assert subjects[..|subjects|] == subjects;
    forall s | s !in subjects ensures Forgotten(sets, flags, redis.now, subjects, s) {
      ClearForgets(sets, flags, redis.now, subjects, s);
    }
  }

  /** A clear leaves nothing of a subject it names and everything of any other. */
  ghost predicate Forgotten(sets: Sets, flags: Flags, now: int, subjects: seq<Subject>, subject: Subject) {
    var sets', flags' := sets - FailuresKeys(subjects), flags - LockKeys(subjects);
    if subject in subjects
    then Live(sets', now, FailuresKey(subject)).None? && LockSeconds(flags', now, LockKey(subject)) == 0
    else && Live(sets', now, FailuresKey(subject)) == Live(sets, now, FailuresKey(subject))
         && Pttl(flags', now, LockKey(subject)) == Pttl(flags, now, LockKey(subject))
  }

  /** A cleared subject may try again at once, whatever its lock; no other subject gains or loses anything. */
  lemma ClearForgets(sets: Sets, flags: Flags, now: int, subjects: seq<Subject>, subject: Subject)
    ensures Forgotten(sets, flags, now, subjects, subject)
  {
    if subject in subjects {
      assert FailuresKey(subject) in FailuresKeys(subjects) && LockKey(subject) in LockKeys(subjects);
    } else {
      OtherKeys(subjects, subject);
    }
  }

  // ---- What the script leaves for one subject -----------------------------------------------

  /** A touched subject's set gains the failure; its lock is renewed when the set reaches the limit. */
  lemma {:induction false} RecordAllPointwise(c: Config, sets: Sets, flags: Flags, now: int, subjects: seq<Subject>,
                                              member: Member, subject: Subject)
    ensures var (sets', flags') := RecordAll(c, sets, flags, now, subjects, member);
            var entry := Live(sets, now, FailuresKey(subject));
            var recorded := RecordedEntry(c, entry, now, member);
            && Live(sets', now, FailuresKey(subject)) == (if subject in subjects then recorded else entry)
            && (if subject in subjects && |ScoresOf(recorded)| >= c.limit
                then LockKey(subject) in flags' && flags'[LockKey(subject)] == Some(now + c.lockout)
                else (LockKey(subject) in flags' <==> LockKey(subject) in flags) &&
                     (LockKey(subject) in flags ==> flags'[LockKey(subject)] == flags[LockKey(subject)]))
  {
    hide RecordedEntry, FailuresKey, LockKey, Live, Store;
    if subjects != [] {
      var last := |subjects| - 1;
      RecordAllPointwise(c, sets, flags, now, subjects[..last], member, subject);
      KeysAreDistinct(subject, subjects[last]);
      assert subjects == subjects[..last] + [subjects[last]];
      var entry := Live(sets, now, FailuresKey(subject));
      RecordTwice(c, entry, now, member);
      RecordedIsLive(c, entry, now, member);
      RecordedIsLive(c, RecordedEntry(c, entry, now, member), now, member);
      var (sets', _) := RecordAll(c, sets, flags, now, subjects[..last], member);
      var key := FailuresKey(subjects[last]);
      StoreLive(sets', now, key, RecordedEntry(c, Live(sets', now, key), now, member), FailuresKey(subject));
      RecordedIsLive(c, Live(sets', now, key), now, member);
    }
  }

  lemma RecordedIsLive(c: Config, entry: Option<SortedSet>, now: int, member: Member)
    ensures var r := RecordedEntry(c, entry, now, member);
            r.Some? && Unexpired(r.value.expireAt, now)
  {
  }

  lemma RecordTwice(c: Config, entry: Option<SortedSet>, now: int, member: Member)
    ensures var once := RecordedEntry(c, entry, now, member);
            RecordedEntry(c, once, now, member) == once
  {
    PurgeFacts(entry, now - c.window);
    var purged := Purged(entry, now - c.window);
    var added := ScoresOf(Added(purged, member, now));
    assert Above(added, now - c.window) == added;
    AddTwice(purged, member, now, now + c.Retention());
  }

  // ---- History ------------------------------------------------------------------------------

  datatype Event =
    | Failure(at: int, member: Member, subjects: seq<Subject>)
    | Clear(subjects: seq<Subject>)

  /** The failures of a subject since it was last cleared. */
  function FailuresSince(history: seq<Event>, subject: Subject): Scores {
    if history == [] then map[]
    else
      var earlier := FailuresSince(history[..|history| - 1], subject);
      var last := history[|history| - 1];
      if subject !in last.subjects then earlier
      else if last.Clear? then map[]
      else earlier[last.member := last.at]
  }

  /** How many failures fall into (to - window, to]. */
  ghost function FailuresWithin(failures: Scores, window: int, to: int): set<Member> {
    set m | m in failures && to - window < failures[m] <= to
  }

  /** A failure at time `at` after which the last window held at least `limit` failures. */
  ghost predicate Triggers(c: Config, failures: Scores, at: int) {
    at in failures.Values && |FailuresWithin(failures, c.window, at)| >= c.limit
  }

  ghost predicate LatestTrigger(c: Config, failures: Scores, at: int) {
    Triggers(c, failures, at) && forall other :: Triggers(c, failures, other) ==> other <= at
  }

  datatype State = State(sets: Sets, flags: Flags, now: int, history: seq<Event>)

  ghost predicate Unused(history: seq<Event>, member: Member) {
    forall e :: e in history && e.Failure? ==> e.member != member
  }

  ghost predicate Fail(c: Config, s: State, s': State, subjects: seq<Subject>, member: Member) {
    && Unused(s.history, member)
    && (s'.sets, s'.flags) == RecordAll(c, s.sets, s.flags, s.now, subjects, member)
    && s'.now == s.now
    && s'.history == s.history + [Failure(s.now, member, subjects)]
  }

  ghost predicate Cleared(s: State, s': State, subjects: seq<Subject>) {
    s' == State(s.sets - FailuresKeys(subjects), s.flags - LockKeys(subjects), s.now, s.history + [Clear(subjects)])
  }

  ghost predicate Next(c: Config, s: State, s': State) {
    || (s'.now >= s.now && s' == s.(now := s'.now))
    || (exists subjects, member :: Fail(c, s, s', subjects, member))
    || (exists subjects :: Cleared(s, s', subjects))
  }

  ghost predicate IsRun(c: Config, run: seq<State>) {
    && |run| > 0
    && run[0].sets == map[] && run[0].flags == map[] && run[0].history == []
    && forall i :: 0 < i < |run| ==> Next(c, run[i - 1], run[i])
  }

  /** The stored failures agree with the history inside the window, and outlive it. */
  ghost predicate SetAgrees(c: Config, s: State, subject: Subject) {
    var failures := FailuresSince(s.history, subject);
    var entry := Live(s.sets, s.now, FailuresKey(subject));
    && (forall m :: m in failures ==> failures[m] <= s.now)
    && Above(ScoresOf(entry), s.now - c.window) == Above(failures, s.now - c.window)
    && (forall m :: m in ScoresOf(entry) ==>
                      entry.value.expireAt.Some? && ScoresOf(entry)[m] + c.Retention() <= entry.value.expireAt.value)
  }

  /** A lock remembers exactly the latest trigger among `failures`. */
  ghost predicate LockFits(c: Config, failures: Scores, flags: Flags, lock: Key) {
    if lock in flags then flags[lock].Some? && LatestTrigger(c, failures, flags[lock].value - c.lockout)
    else forall at :: !Triggers(c, failures, at)
  }

  ghost predicate LockAgrees(c: Config, s: State, subject: Subject) {
    LockFits(c, FailuresSince(s.history, subject), s.flags, LockKey(subject))
  }

  /** Some failure completed a window of `limit` failures less than `lockout` ago. */
  ghost predicate LockedOut(c: Config, failures: Scores, now: int) {
    exists at :: Triggers(c, failures, at) && now < at + c.lockout
  }

  ghost predicate Inv(c: Config, s: State) {
    forall subject :: SetAgrees(c, s, subject) && LockAgrees(c, s, subject)
  }

  lemma TickKeeps(c: Config, s: State, s': State, subject: Subject)
    requires SetAgrees(c, s, subject) && s'.now >= s.now && s' == s.(now := s'.now)
    ensures SetAgrees(c, s', subject)
  {
    var failures := FailuresSince(s.history, subject);
    var entry, entry' := Live(s.sets, s.now, FailuresKey(subject)), Live(s.sets, s'.now, FailuresKey(subject));
    var stored, logged := Above(ScoresOf(entry'), s'.now - c.window), Above(failures, s'.now - c.window);
    forall m
      ensures m in stored <==> m in logged
      ensures m in stored ==> stored[m] == logged[m]
    {
      var before := Above(ScoresOf(entry), s.now - c.window);
      if m in stored { assert m in before; }
      if m in logged { assert m in before; }
    }
  }

  lemma {:induction false} UnusedMember(history: seq<Event>, subject: Subject, member: Member)
    requires Unused(history, member)
    ensures member !in FailuresSince(history, subject)
  {
    if history != [] {
      assert forall e :: e in history[..|history| - 1] ==> e in history;
      UnusedMember(history[..|history| - 1], subject, member);
      assert history[|history| - 1] in history;
    }
  }

  lemma RecordedScores(c: Config, entry: Option<SortedSet>, now: int, member: Member)
    ensures var recorded := RecordedEntry(c, entry, now, member);
            && recorded.Some? && recorded.value.expireAt == Some(now + c.Retention())
            && ScoresOf(recorded) == Above(ScoresOf(entry), now - c.window)[member := now]
            && Above(ScoresOf(recorded), now - c.window) == ScoresOf(recorded)
  {
    PurgeFacts(entry, now - c.window);
  }

  /** What a recorded failure adds to the history and to the set of one subject. */
  lemma FailRecords(c: Config, s: State, s': State, subjects: seq<Subject>, member: Member, subject: Subject)
    requires Fail(c, s, s', subjects, member)
    ensures var failures, entry := FailuresSince(s.history, subject), Live(s.sets, s.now, FailuresKey(subject));
            && FailuresSince(s'.history, subject) ==
               (if subject in subjects then failures[member := s.now] else failures)
            && Live(s'.sets, s.now, FailuresKey(subject)) ==
               (if subject in subjects then RecordedEntry(c, entry, s.now, member) else entry)
  {
    hide RecordAll, FailuresKey, LockKey, RecordedEntry, Live;
    assert s'.history[..|s.history|] == s.history;
    RecordAllPointwise(c, s.sets, s.flags, s.now, subjects, member, subject);
  }

  lemma AboveAdded(failures: Scores, member: Member, now: int, floor: int)
    requires floor < now
    ensures Above(failures[member := now], floor) == Above(failures, floor)[member := now]
  {
  }

  lemma WithinIsAbove(failures: Scores, window: int, now: int)
    requires forall m :: m in failures ==> failures[m] <= now
    ensures FailuresWithin(failures, window, now) == Above(failures, now - window).Keys
  {
  }

  lemma FailKeepsSet(c: Config, s: State, s': State, subjects: seq<Subject>, member: Member, subject: Subject)
    requires SetAgrees(c, s, subject) && Fail(c, s, s', subjects, member)
    ensures SetAgrees(c, s', subject)
    ensures subject in subjects ==>
              |ScoresOf(RecordedEntry(c, Live(s.sets, s.now, FailuresKey(subject)), s.now, member))| ==
              |FailuresWithin(FailuresSince(s'.history, subject), c.window, s.now)|
  {
    hide RecordAll, FailuresKey, LockKey, RecordedEntry, Live, Above, FailuresWithin, FailuresSince;
    FailRecords(c, s, s', subjects, member, subject);
    var failures, failures' := FailuresSince(s.history, subject), FailuresSince(s'.history, subject);
    var entry, floor := Live(s.sets, s.now, FailuresKey(subject)), s.now - c.window;
    if subject in subjects {
      RecordedScores(c, entry, s.now, member);
      AboveAdded(failures, member, s.now, floor);
      WithinIsAbove(failures', c.window, s.now);
      KeptScores(ScoresOf(entry), floor);
      KeptScores(failures, floor);
    }
  }

  lemma KeptScores(scores: Scores, floor: int)
    ensures forall m :: m in Above(scores, floor) ==> m in scores && Above(scores, floor)[m] == scores[m]
  {
  }

  /** Triggers in the past are not affected by a failure recorded now. */
  lemma EarlierTriggers(c: Config, failures: Scores, member: Member, now: int, at: int)
    requires member !in failures && at != now && forall m :: m in failures ==> failures[m] <= now
    ensures Triggers(c, failures[member := now], at) <==> Triggers(c, failures, at)
  {
    var failures' := failures[member := now];
    if at in failures.Values {
      var m :| m in failures && failures[m] == at;
      assert failures'[m] == at && at in failures'.Values;
    }
    if at < now {
      assert FailuresWithin(failures', c.window, at) == FailuresWithin(failures, c.window, at);
    }
  }

  lemma FailKeepsLock(c: Config, s: State, s': State, subjects: seq<Subject>, member: Member, subject: Subject)
    requires SetAgrees(c, s, subject) && LockAgrees(c, s, subject) && Fail(c, s, s', subjects, member)
    ensures LockAgrees(c, s', subject)
  {
    hide RecordAll, RecordedEntry, FailuresKey, LockKey;
    var failures, failures' := FailuresSince(s.history, subject), FailuresSince(s'.history, subject);
    assert s'.history[..|s.history|] == s.history;
    RecordAllPointwise(c, s.sets, s.flags, s.now, subjects, member, subject);
    FailKeepsSet(c, s, s', subjects, member, subject);
    if subject in subjects {
      UnusedMember(s.history, subject, member);
      assert failures' == failures[member := s.now];
      forall at | at != s.now ensures Triggers(c, failures', at) <==> Triggers(c, failures, at) {
        EarlierTriggers(c, failures, member, s.now, at);
      }
      assert failures'[member] == s.now && s.now in failures'.Values;
      assert forall at :: Triggers(c, failures', at) ==> at <= s.now;
      if |FailuresWithin(failures', c.window, s.now)| >= c.limit {
        assert LatestTrigger(c, failures', s.now);
      } else {
        assert Triggers(c, failures, s.now) ==> Triggers(c, failures', s.now) by {
          SubsetSize(FailuresWithin(failures, c.window, s.now), FailuresWithin(failures', c.window, s.now));
        }
        assert forall at :: Triggers(c, failures', at) <==> Triggers(c, failures, at);
      }
    } else {
      assert failures' == failures;
    }
  }

  lemma ClearKeeps(c: Config, s: State, s': State, subjects: seq<Subject>, subject: Subject)
    requires SetAgrees(c, s, subject) && LockAgrees(c, s, subject) && Cleared(s, s', subjects)
    ensures SetAgrees(c, s', subject) && LockAgrees(c, s', subject)
  {
    assert s'.history[..|s.history|] == s.history;
    if subject in subjects {
      assert FailuresSince(s'.history, subject) == map[];
      assert FailuresKey(subject) in FailuresKeys(subjects) && LockKey(subject) in LockKeys(subjects);
    } else {
      OtherKeys(subjects, subject);
    }
  }

  lemma {:induction false} RunKeepsInv(c: Config, run: seq<State>, i: nat)
    requires IsRun(c, run) && i < |run|
    ensures Inv(c, run[i])
    decreases i
  {
    if i > 0 {
      RunKeepsInv(c, run, i - 1);
      var s, s' := run[i - 1], run[i];
      assert Next(c, s, s');
      forall subject ensures SetAgrees(c, s', subject) && LockAgrees(c, s', subject) {
        assert SetAgrees(c, s, subject) && LockAgrees(c, s, subject);
        if s'.now >= s.now && s' == s.(now := s'.now) {
          TickKeeps(c, s, s', subject);
        } else if exists subjects, member :: Fail(c, s, s', subjects, member) {
          var subjects, member :| Fail(c, s, s', subjects, member);
          FailKeepsSet(c, s, s', subjects, member, subject);
          FailKeepsLock(c, s, s', subjects, member, subject);
        } else {
          var subjects :| Cleared(s, s', subjects);
          ClearKeeps(c, s, s', subjects, subject);
        }
      }
    }
  }

  /**
   A subject is told to wait exactly while some failure since its last clear completed a window of
   `limit` failures less than `lockout` ago; it is told the ceiling in seconds of what is left of
   the latest such lockout; and a lock without an expiry is never found.
   */
  lemma LockoutMatchesHistory(c: Config, run: seq<State>, i: nat, subject: Subject)
    requires IsRun(c, run) && i < |run|
    ensures var failures, seconds := FailuresSince(run[i].history, subject),
                                     LockSeconds(run[i].flags, run[i].now, LockKey(subject));
            && (seconds > 0 <==> LockedOut(c, failures, run[i].now))
            && (forall at :: LatestTrigger(c, failures, at) && run[i].now < at + c.lockout ==>
                               seconds == CeilSeconds(at + c.lockout - run[i].now))
            && Pttl(run[i].flags, run[i].now, LockKey(subject)) != -1
  {
    hide IsRun, LockKey, FailuresKey, SetAgrees, LockFits, LockedOut, LockSeconds, Pttl, CeilSeconds;
    RunKeepsInv(c, run, i);
    assert LockAgrees(c, run[i], subject);
    LockMatches(c, FailuresSince(run[i].history, subject), run[i].flags, run[i].now, LockKey(subject));
  }

  lemma LockMatches(c: Config, failures: Scores, flags: Flags, now: int, lock: Key)
    requires LockFits(c, failures, flags, lock)
    ensures LockSeconds(flags, now, lock) > 0 <==> LockedOut(c, failures, now)
    ensures forall at :: LatestTrigger(c, failures, at) && now < at + c.lockout ==>
              LockSeconds(flags, now, lock) == CeilSeconds(at + c.lockout - now)
    ensures Pttl(flags, now, lock) != -1
  {
    hide Triggers, CeilSeconds;
    if lock in flags {
      var latest := flags[lock].value - c.lockout;
      LockHolds(flags, now, lock);
      assert Triggers(c, failures, latest);
      forall at | LatestTrigger(c, failures, at) && now < at + c.lockout
        ensures LockSeconds(flags, now, lock) == CeilSeconds(at + c.lockout - now)
      {
        assert at == latest;
      }
      if LockedOut(c, failures, now) {
        var at :| Triggers(c, failures, at) && now < at + c.lockout;
        assert at <= latest;
      }
    }
  }

  /** A lock counts, in whole seconds, until it expires, and as one second if it never does. */
  lemma LockHolds(flags: Flags, now: int, lock: Key)
    ensures lock !in flags ==> LockSeconds(flags, now, lock) == 0
    ensures lock in flags && flags[lock].None? ==> LockSeconds(flags, now, lock) == 1
    ensures lock in flags && flags[lock].Some? ==>
              var left := flags[lock].value - now;
              && Pttl(flags, now, lock) != -1
              && LockSeconds(flags, now, lock) == (if left > 0 then CeilSeconds(left) else 0)
              && (LockSeconds(flags, now, lock) > 0 <==> left > 0)
  {
  }

  lemma LongestLockStep(flags: Flags, now: int, subjects: seq<Subject>, last: Subject)
    ensures var earlier, seconds := LongestLock(flags, now, subjects), LockSeconds(flags, now, LockKey(last));
            LongestLock(flags, now, subjects + [last]) == if seconds > earlier then seconds else earlier
  {
    hide LockSeconds, LockKey;
    assert (subjects + [last])[..|subjects|] == subjects;
  }

  /** The answer for several subjects is that of the subject locked longest. */
  lemma {:induction false} LongestLockBounds(flags: Flags, now: int, subjects: seq<Subject>) returns (held: Subject)
    ensures forall s :: s in subjects ==> LockSeconds(flags, now, LockKey(s)) <= LongestLock(flags, now, subjects)
    ensures LongestLock(flags, now, subjects) > 0 ==>
              held in subjects && LockSeconds(flags, now, LockKey(held)) == LongestLock(flags, now, subjects)
    ensures LongestLock(flags, now, subjects) >= 0
  {
    hide LockSeconds, LockKey;
    held := "";
    if subjects != [] {
      var front, last := subjects[..|subjects| - 1], subjects[|subjects| - 1];
      held := LongestLockBounds(flags, now, front);
      LongestLockStep(flags, now, front, last);
      assert subjects == front + [last];
      forall s | s in subjects ensures LockSeconds(flags, now, LockKey(s)) <= LongestLock(flags, now, subjects) {
        assert s in front || s == last;
      }
      if LongestLock(flags, now, subjects) != LongestLock(flags, now, front) { held := last; }
      assert LongestLock(flags, now, subjects) > 0 ==> held in front || held == last;
    }
  }
}
