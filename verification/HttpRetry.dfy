/**
 The retry loop and the bounded body reader (src/apex/adapters/http_resilience.py:275-312, 315-358,
 393-508, 542-618, 654-735). The transport, the clock and the delivery of cancellation are a `World` whose
 answers are arbitrary; responses that hold a connection-pool slot are its `open` set.
 */
module HttpRetry {
  import opened CircuitBreakers
  import opened Extrema
  import opened Options

  type Byte = n: int | 0 <= n < 256

  // ---- Delays -------------------------------------------------------------------------------

  datatype RetryPolicy = RetryPolicy(attempts: int, baseDelay: real, maxDelay: real, retryAfterCap: real,
                                     totalTimeout: Option<real>, transient: set<int>)
  {
    /** What __post_init__ enforces on the delays. */
    predicate Valid() {
      attempts >= 1 && baseDelay >= 0.0 && maxDelay >= 0.0 && retryAfterCap >= 0.0
      && (totalTimeout.Some? ==> totalTimeout.value >= 0.0)
    }
  }

  /** math.ldexp(x, n) */
  function Scaled(x: real, n: nat): real { if n == 0 then x else 2.0 * Scaled(x, n - 1) }

  function Jittered(base: real, jitter: real): real { base * (1.0 + jitter * 0.25) }

  /** The jittered exponential backoff before the next attempt, or nothing when the jitter is out of range. */
  function Delay(policy: RetryPolicy, attempt: nat, jitter: real): Option<real> {
    if !(0.0 <= jitter <= 1.0) then None
    else
      var base := Min(Scaled(policy.baseDelay, if attempt >= 1 then attempt - 1 else 0), policy.maxDelay);
      Some(Min(Jittered(base, jitter), policy.maxDelay))
  }

  /** The Retry-After header: section 10.2.3 of RFC 9110 allows seconds or a date. */
  datatype RetryAfter = Absent | Seconds(seconds: real) | Date(secondsFromNow: real) | Unreadable

  function RetryDelay(policy: RetryPolicy, retryAfter: RetryAfter, attempt: nat, jitter: real): Option<real> {
    var cap := Max(policy.retryAfterCap, policy.maxDelay);
    match retryAfter
    case Absent => Delay(policy, attempt, jitter)
    case Seconds(s) => Some(Min(Max(s, 0.0), cap))
    case Date(s) => Some(Min(Max(s, 0.0), cap))
    case Unreadable => Delay(policy, attempt, jitter)
  }

  lemma {:induction false} ScaledGrows(x: real, n: nat, m: nat)
    requires x >= 0.0 && n <= m
    ensures 0.0 <= Scaled(x, n) <= Scaled(x, m)
    decreases m
  {
    if n < m {
      ScaledGrows(x, n, m - 1);
    } else if n > 0 {
      ScaledGrows(x, n - 1, n - 1);
    }
  }

  lemma JitteredBounds(base: real, next: real, jitter: real)
    requires 0.0 <= base <= next && 0.0 <= jitter <= 1.0
    ensures base <= Jittered(base, jitter) <= base * 1.25
    ensures Jittered(base, jitter) <= Jittered(next, jitter)
    ensures Jittered(base, 0.0) == base && Jittered(base, 1.0) == base * 1.25
  {
    assert 0.0 <= base * jitter <= base;
    assert Jittered(base, jitter) == base + (base * jitter) * 0.25;
    assert (next - base) * (1.0 + jitter * 0.25) >= 0.0;
  }

  /** The backoff is between the capped exponential and a quarter more, never above the cap, and never shrinks. */
  lemma DelayBounds(policy: RetryPolicy, attempt: nat, jitter: real)
    requires policy.Valid() && attempt >= 1 && 0.0 <= jitter <= 1.0
    ensures var base := Min(Scaled(policy.baseDelay, attempt - 1), policy.maxDelay);
            && Delay(policy, attempt, jitter).Some?
            && 0.0 <= base <= Delay(policy, attempt, jitter).value
            && Delay(policy, attempt, jitter).value <= Min(base * 1.25, policy.maxDelay)
            && (jitter == 0.0 ==> Delay(policy, attempt, jitter).value == base)
            && (jitter == 1.0 ==> Delay(policy, attempt, jitter).value == Min(base * 1.25, policy.maxDelay))
            && Delay(policy, attempt, jitter).value <= Delay(policy, attempt + 1, jitter).value
  {
    ScaledGrows(policy.baseDelay, attempt - 1, attempt);
    hide Scaled, Jittered;
    JitteredBounds(Min(Scaled(policy.baseDelay, attempt - 1), policy.maxDelay),
                   Min(Scaled(policy.baseDelay, attempt), policy.maxDelay), jitter);
  }

  /**
   What determines every backoff: without jitter it starts at the base delay and doubles with each attempt, up
   to the cap, and jitter adds up to a quarter, up to the cap again.
   */
  lemma BackoffDoubles(policy: RetryPolicy, attempt: nat, jitter: real, plain: real)
    requires policy.Valid() && attempt >= 1 && 0.0 <= jitter <= 1.0 && Delay(policy, attempt, 0.0) == Some(plain)
    ensures attempt == 1 ==> plain == Min(policy.baseDelay, policy.maxDelay)
    ensures Delay(policy, attempt + 1, 0.0) == Some(Min(2.0 * plain, policy.maxDelay))
    ensures Delay(policy, attempt, jitter) == Some(Min(plain + plain / 4.0 * jitter, policy.maxDelay))
  {
    hide Scaled, Delay, Jittered;
    ScaledStep(policy.baseDelay, attempt - 1);
    DelayFrom(policy, attempt, jitter);
    DelayFrom(policy, attempt + 1, 0.0);
    JitteredQuarter(plain, jitter);
  }

  lemma DelayFrom(policy: RetryPolicy, attempt: nat, jitter: real)
    requires policy.Valid() && attempt >= 1 && 0.0 <= jitter <= 1.0
    ensures var base := Min(Scaled(policy.baseDelay, attempt - 1), policy.maxDelay);
            && Scaled(policy.baseDelay, attempt - 1) >= 0.0
            && Delay(policy, attempt, 0.0) == Some(base)
            && Delay(policy, attempt, jitter) == Some(Min(Jittered(base, jitter), policy.maxDelay))
  {
    hide Scaled, Jittered;
    ScaledGrows(policy.baseDelay, attempt - 1, attempt - 1);
    JitteredQuarter(Min(Scaled(policy.baseDelay, attempt - 1), policy.maxDelay), 0.0);
  }

  lemma ScaledStep(x: real, n: nat)
    ensures Scaled(x, 0) == x && Scaled(x, n + 1) == 2.0 * Scaled(x, n)
  {
  }

  lemma JitteredQuarter(base: real, jitter: real)
    ensures Jittered(base, jitter) == base + base / 4.0 * jitter
    ensures jitter == 0.0 ==> Jittered(base, jitter) == base
  {
  }

  /** A server-sent delay is honoured up to its cap; none is negative; only a bad jitter leaves no delay. */
  lemma RetryDelayBounds(policy: RetryPolicy, retryAfter: RetryAfter, attempt: nat, jitter: real)
    requires policy.Valid() && attempt >= 1
    ensures RetryDelay(policy, retryAfter, attempt, jitter).None? <==>
            (retryAfter.Absent? || retryAfter.Unreadable?) && !(0.0 <= jitter <= 1.0)
    ensures RetryDelay(policy, retryAfter, attempt, jitter).Some? ==>
              0.0 <= RetryDelay(policy, retryAfter, attempt, jitter).value <= Max(policy.retryAfterCap, policy.maxDelay)
    ensures retryAfter.Seconds? && 0.0 <= retryAfter.seconds <= Max(policy.retryAfterCap, policy.maxDelay) ==>
              RetryDelay(policy, retryAfter, attempt, jitter) == Some(retryAfter.seconds)
    ensures retryAfter.Date? && 0.0 <= retryAfter.secondsFromNow <= Max(policy.retryAfterCap, policy.maxDelay) ==>
              RetryDelay(policy, retryAfter, attempt, jitter) == Some(retryAfter.secondsFromNow)
    ensures retryAfter.Absent? || retryAfter.Unreadable? ==>
              RetryDelay(policy, retryAfter, attempt, jitter) == Delay(policy, attempt, jitter)
    ensures var sent := if retryAfter.Seconds? then Some(retryAfter.seconds)
                        else if retryAfter.Date? then Some(retryAfter.secondsFromNow) else None;
            var cap := Max(policy.retryAfterCap, policy.maxDelay);
            sent.Some? ==>
              && (sent.value < 0.0 ==> RetryDelay(policy, retryAfter, attempt, jitter) == Some(0.0))
              && (sent.value > cap ==> RetryDelay(policy, retryAfter, attempt, jitter) == Some(cap))
  {
    if 0.0 <= jitter <= 1.0 { DelayBounds(policy, attempt, jitter); }
  }

  // ---- The world ----------------------------------------------------------------------------

  /** How the transport answers a send. */
  datatype Answer = Status(code: int) | TransportFailed | TimedOut | Cancelled

  datatype AwaitResult = Completed | Interrupted | Errored

  /**
   What the outside does in one turn of the retry loop: it answers the send, and then, as far as the turn gets,
   gives a Retry-After header, cancels the close `interrupts` times, lets it fail, draws the jitter and
   ends the pause.
   */
  datatype Turn = Turn(answer: Answer, header: RetryAfter, interrupts: nat, closeFails: bool, jitter: real,
                       slept: AwaitResult)

  /** A requested pause, and how often the clock had been read before. */
  datatype Slept = Slept(seconds: real, readingsBefore: nat)

  /**
   What the outside sees: clock readings; starts of sends, each with the call's responses then open and with how
   often the clock had been read before; requested pauses.
   */
  datatype Log = Log(readings: seq<real>, sendTimes: seq<real>, openAtSend: seq<set<nat>>, readsAtSend: seq<nat>,
                     sleeps: seq<Slept>)

  /** The clock, and the open responses that hold a slot of the connection pool, each with the call it belongs to. */
  class World {
    var now: real
    var open: map<nat, nat>
    var nextId: nat
    ghost var log: Log

    ghost predicate Valid()
      reads this
    {
      && |log.openAtSend| == |log.readsAtSend| == |log.sendTimes| && (forall id :: id in open ==> id < nextId)
      && (log.readings != [] ==> log.readings[|log.readings| - 1] <= now)
    }

    /** The open responses of a call. */
    ghost function Owned(who: nat): set<nat>
      reads this
    {
      set id | id in open && open[id] == who
    }

    constructor ()
      ensures Valid() && open == map[] && log == Log([], [], [], [], [])
    {
      now, open, nextId, log := 0.0, map[], 0, Log([], [], [], [], []);
    }

    /** Time passes, and other calls open and close responses of their own. */
    method Pass(me: nat)
      requires Valid()
      modifies this`now, this`open, this`nextId
      ensures Valid() && now >= old(now) && Owned(me) == old(Owned(me))
    {
      var passed: real, turns: nat := *, *;
      if passed > 0.0 { now := now + passed; }
      while turns > 0
        invariant Valid() && now >= old(now) && Owned(me) == old(Owned(me))
      {
        turns := turns - 1;
        var other: nat, closed: nat := *, *;
        if other != me {
          open, nextId := open[nextId := other], nextId + 1;
        } else if closed in open && open[closed] != me {
          open := open - {closed};
        }
      }
    }

    /** time.monotonic() */
    method Clock() returns (t: real)
      requires Valid()
      modifies this`now, this`log
      ensures Valid() && t == now >= old(now) && log == old(log).(readings := old(log).readings + [t])
    {
      var passed: real := *;
      if passed > 0.0 { now := now + passed; }
      t := now;
      log := log.(readings := log.readings + [t]);
    }

    /** client.send: a new open response, or no response at all. The send starts now. */
    method Send(me: nat, answer: Answer) returns (id: nat)
      requires Valid()
      modifies this
      ensures Valid() && now >= old(now)
      ensures log == old(log).(sendTimes := old(log).sendTimes + [old(now)],
                               openAtSend := old(log).openAtSend + [old(Owned(me))],
                               readsAtSend := old(log).readsAtSend + [|old(log).readings|])
      ensures answer.Status? ==> id !in old(Owned(me))
      ensures Owned(me) == old(Owned(me)) + if answer.Status? then {id} else {}
    {
      log := log.(sendTimes := log.sendTimes + [now], openAtSend := log.openAtSend + [Owned(me)],
                  readsAtSend := log.readsAtSend + [|log.readings|]);
      Pass(me);
      id := nextId;
      if answer.Status? {
        open, nextId := open[nextId := me], nextId + 1;
      }
    }

    /** A suspension point that holds nothing. */
    method Sleep(me: nat, seconds: real)
      requires Valid()
      modifies this
      ensures Valid() && now >= old(now) && Owned(me) == old(Owned(me))
      ensures log == old(log).(sleeps := old(log).sleeps + [Slept(seconds, |old(log).readings|)])
    {
      Pass(me);
      log := log.(sleeps := log.sleeps + [Slept(seconds, |log.readings|)]);
    }
  }

  /**
   Close a response although the caller is cancelled `interrupts` more times meanwhile. The close
   task is shielded and settles once; a settled close has given its slot back even if it failed.
   */
  method CloseDefinitively(world: World, me: nat, id: nat, interrupts: nat, fails: bool) returns (result: AwaitResult)
    requires world.Valid() && id in world.Owned(me)
    modifies world`now, world`open, world`nextId
    ensures world.Valid() && world.now >= old(world.now)
    ensures world.Owned(me) == old(world.Owned(me)) - {id}
    ensures result == if interrupts > 0 then Interrupted else if fails then Errored else Completed
  {
    var done, interrupted, left := false, false, interrupts;
    while !done
      invariant world.Valid() && world.now >= old(world.now)
      invariant world.Owned(me) == if done then old(world.Owned(me)) - {id} else old(world.Owned(me))
      invariant interrupted <==> left < interrupts
      invariant 0 <= left <= interrupts && (done ==> left == 0)
      decreases left, !done
    {
      world.Pass(me);
      if left > 0 {
        left, interrupted := left - 1, true;
      } else {
        world.open := world.open - {id};
        done := true;
      }
    }
    result := if interrupted then Interrupted else if fails then Errored else Completed;
  }

  // ---- The breaker as one of its callers sees it --------------------------------------------

  datatype Reason =
    | CircuitOpen | Transport | SendDeadline | SleepDeadline | WasCancelled | BadDelay | SleepFailed | CloseFailed

  datatype Outcome = Returned(id: nat, status: int) | Raised(reason: Reason)

  /** What one caller did to the breaker: checks that passed, checks that rejected, and outcomes. */
  datatype Tally = Tally(passed: nat, rejected: nat, succeeded: nat, failed: nat)

  ghost function Counted(s: Settings, t: Tally, earlier: seq<Event>, e: Event, who: nat): Tally {
    if e.who != who then t
    else
      match e
      case Checked(_, at) =>
        if Rejects(s, earlier, at) then t.(rejected := t.rejected + 1) else t.(passed := t.passed + 1)
      case Succeeded(_) => t.(succeeded := t.succeeded + 1)
      case Failed(_, _) => t.(failed := t.failed + 1)
  }

  /** What `who` did after the first `from` events. */
  ghost function TallyOf(s: Settings, history: seq<Event>, from: nat, who: nat): Tally {
    if |history| <= from then Tally(0, 0, 0, 0)
    else
      var earlier, last := history[..|history| - 1], history[|history| - 1];
      Counted(s, TallyOf(s, earlier, from, who), earlier, last, who)
  }

  lemma TallyGrows(s: Settings, history: seq<Event>, from: nat, who: nat, e: Event)
    requires from <= |history|
    ensures TallyOf(s, history + [e], from, who) == Counted(s, TallyOf(s, history, from, who), history, e, who)
  {
    Appended(history, e);
  }

  /** Other calls may use the shared breaker, and the pool, in any way. */
  method Others(world: World, breaker: CircuitBreaker?, me: nat, ghost from: nat)
    requires world.Valid() && (breaker != null ==> breaker.Valid() && from <= |breaker.history|)
    modifies world`now, world`open, world`nextId, breaker
    ensures world.Valid() && world.now >= old(world.now) && world.Owned(me) == old(world.Owned(me))
    ensures breaker != null ==>
              && breaker.Valid() && old(breaker.history) <= breaker.history
              && TallyOf(breaker.settings, breaker.history, from, me) ==
                 TallyOf(breaker.settings, old(breaker.history), from, me)
  {
    hide TallyOf, Rejects, IsOpen, StreakStart, FailuresAfter, LatestFailure;
    world.Pass(me);
    var turns: nat := *;
    while turns > 0
      invariant world.Valid() && world.now >= old(world.now) && world.Owned(me) == old(world.Owned(me))
      invariant breaker != null ==>
                  && breaker.Valid() && old(breaker.history) <= breaker.history
                  && TallyOf(breaker.settings, breaker.history, from, me) ==
                     TallyOf(breaker.settings, old(breaker.history), from, me)
    {
      turns := turns - 1;
      world.Pass(me);
      var other: nat, kind: nat := *, *;
      if breaker != null && other != me {
        OtherEvent(breaker, world.now, other, kind, me, from);
      }
    }
  }

  method OtherEvent(breaker: CircuitBreaker, now: real, other: nat, kind: nat, ghost me: nat, ghost from: nat)
    requires breaker.Valid() && other != me && from <= |breaker.history|
    modifies breaker
    ensures breaker.Valid() && old(breaker.history) <= breaker.history
    ensures TallyOf(breaker.settings, breaker.history, from, me) ==
            TallyOf(breaker.settings, old(breaker.history), from, me)
  {
    hide TallyOf, Rejects, IsOpen, StreakStart, FailuresAfter, LatestFailure;
    ghost var before := breaker.history;
    if kind == 0 {
      var _ := breaker.BeforeRequest(now, other);
      TallyGrows(breaker.settings, before, from, me, Checked(other, now));
    } else if kind == 1 {
      breaker.RecordSuccess(other);
      TallyGrows(breaker.settings, before, from, me, Succeeded(other));
    } else {
      breaker.RecordFailure(now, other);
      TallyGrows(breaker.settings, before, from, me, Failed(other, now));
    }
  }

  // ---- One request --------------------------------------------------------------------------

  /** One call: who makes it, how often it may send, what was logged when it started, and its turns, from one. */
  datatype Call = Call(who: nat, policy: RetryPolicy, limit: int, before: Log, turns: nat -> Turn)

  /** The absolute deadline of a call, counted from its first clock reading. */
  ghost function DeadlineOf(call: Call, log: Log): Option<real> {
    if call.policy.totalTimeout.None? || |call.before.readings| >= |log.readings| then None
    else Some(log.readings[|call.before.readings|] + call.policy.totalTimeout.value)
  }

  /**
   What a call may have done: at most `limit` sends, each before the deadline and each with no response
   of the call open; no pause negative, above the delay caps, or longer than the whole call may take.
   */
  ghost predicate Respects(call: Call, log: Log) {
    var sends, first, limit := |call.before.sendTimes|, |call.before.readings|, call.policy.totalTimeout;
    && call.before.readings <= log.readings && call.before.sendTimes <= log.sendTimes
    && call.before.sleeps <= log.sleeps
    && |log.openAtSend| == |log.readsAtSend| == |log.sendTimes| <= sends + call.limit
    && |call.before.readsAtSend| == sends
    && (limit.Some? ==>
          && first < |log.readings|
          && forall i :: sends <= i < |log.sendTimes| ==> log.sendTimes[i] - log.readings[first] < limit.value)
    && (forall i :: sends <= i < |log.sendTimes| ==> log.readsAtSend[i] <= |log.readings|)
    && (forall i :: sends <= i < |log.sendTimes| ==> log.openAtSend[i] == {})
    && (forall i :: |call.before.sleeps| <= i < |log.sleeps| ==> PauseRespects(call.policy, log.sleeps[i].seconds))
  }

  predicate PauseRespects(policy: RetryPolicy, seconds: real) {
    && 0.0 <= seconds <= Max(policy.retryAfterCap, policy.maxDelay)
    && (policy.totalTimeout.Some? ==> seconds <= policy.totalTimeout.value)
  }

  /** How many sends, and how many pauses, a call has made. */
  function Sends(call: Call, log: Log): int { |log.sendTimes| - |call.before.sendTimes| }

  function Pauses(call: Call, log: Log): int { |log.sleeps| - |call.before.sleeps| }

  /** The outcomes a breaker learns about; a cancelled or interrupted call is neither success nor failure. */
  predicate Reported(outcome: Outcome) {
    outcome.Returned? || outcome.reason == Transport || outcome.reason == SendDeadline
  }

  predicate IsSuccess(outcome: Outcome, transient: set<int>) { outcome.Returned? && outcome.status !in transient }

  /**
   What one call of `sends` sends does to the breaker, whatever other calls do to it meanwhile: a check
   before each send, which let it through; a check that rejected exactly when the call reports an open
   circuit; at most one outcome, and the right one.
   */
  ghost predicate BreakerAgrees(breaker: CircuitBreaker?, call: Call, asked: seq<Event>, sends: int, outcome: Outcome)
    reads breaker
  {
    breaker != null ==>
      var t := TallyOf(breaker.settings, breaker.history, |asked|, call.who);
      && asked <= breaker.history
      && (t.passed == sends || (t.passed == sends + 1 && outcome == Raised(SendDeadline)))
      && t.rejected == (if outcome == Raised(CircuitOpen) then 1 else 0)
      && t.succeeded == (if IsSuccess(outcome, call.policy.transient) then 1 else 0)
      && t.failed == (if Reported(outcome) && !IsSuccess(outcome, call.policy.transient) then 1 else 0)
  }

  /** Inside a call: `n` checks so far, all passed, and no outcome yet. */
  ghost predicate Checking(breaker: CircuitBreaker?, who: nat, asked: seq<Event>, n: nat)
    reads breaker
  {
    breaker != null ==>
      && breaker.Valid() && asked <= breaker.history
      && TallyOf(breaker.settings, breaker.history, |asked|, who) == Tally(n, 0, 0, 0)
  }

  /** The local `deadline` is the call's, and the clock has not gone back behind the call's start. */
  ghost predicate DeadlineKnown(call: Call, log: Log, deadline: Option<real>, now: real) {
    && deadline == DeadlineOf(call, log) && (deadline.Some? <==> call.policy.totalTimeout.Some?)
    && (deadline.Some? ==> deadline.value - call.policy.totalTimeout.value <= now)
  }

  // ---- What the outside did, and what became of it ------------------------------------------

  /** The answers after which a call may try again. */
  predicate Retryable(policy: RetryPolicy, answer: Answer) {
    answer.TransportFailed? || (answer.Status? && answer.code in policy.transient)
  }

  /** The discarded response, if there is one, was closed without an interruption or an error. */
  predicate ClosedQuietly(turn: Turn) {
    turn.answer.Status? ==> turn.interrupts == 0 && !turn.closeFails
  }

  function DelayOf(policy: RetryPolicy, turn: Turn, attempt: nat): Option<real> {
    RetryDelay(policy, if turn.answer.Status? then turn.header else Absent, attempt, turn.jitter)
  }

  /** The turn ends in another attempt. */
  predicate Continues(policy: RetryPolicy, turn: Turn, attempt: nat) {
    && Retryable(policy, turn.answer) && ClosedQuietly(turn) && DelayOf(policy, turn, attempt).Some?
    && turn.slept == Completed
  }

  /**
   The pause after an attempt is its delay. With a deadline it is the smaller of that and what was left of the
   total timeout when the clock was read last, after the attempt's send.
   */
  ghost predicate PausedAfter(call: Call, log: Log, attempt: nat)
    requires 1 <= attempt && |call.before.sleeps| + attempt <= |log.sleeps|
    requires |call.before.readsAtSend| + attempt <= |log.readsAtSend|
  {
    var delay := DelayOf(call.policy, call.turns(attempt), attempt);
    var pause := log.sleeps[|call.before.sleeps| + attempt - 1];
    var first, sent := |call.before.readings|, log.readsAtSend[|call.before.readsAtSend| + attempt - 1];
    && delay.Some?
    && match call.policy.totalTimeout
       case None => pause.seconds == delay.value
       case Some(limit) =>
         && first < |log.readings| && sent < pause.readingsBefore <= |log.readings|
         && pause.seconds == Min(delay.value, limit - (log.readings[pause.readingsBefore - 1] - log.readings[first]))
  }

  /** The first `n` turns each ended in another attempt, after a pause. */
  ghost predicate Story(call: Call, log: Log, n: int) {
    && |call.before.sleeps| + n <= |log.sleeps| && |call.before.readsAtSend| + n <= |log.readsAtSend|
    && forall i :: 1 <= i <= n ==> Continues(call.policy, call.turns(i), i) && PausedAfter(call, log, i)
  }

  /** When the clock was read last, the whole timeout had passed since the call's first reading. */
  ghost predicate DeadlinePassed(call: Call, log: Log) {
    && call.policy.totalTimeout.Some? && |call.before.readings| < |log.readings|
    && log.readings[|log.readings| - 1] - log.readings[|call.before.readings|] >= call.policy.totalTimeout.value
  }

  /** What the outside did in its last turn, the `n`th, to make a call raise one of the remaining exceptions. */
  ghost predicate ExplainsRaise(call: Call, log: Log, n: nat, reason: Reason) {
    var turn := call.turns(n);
    match reason
    case WasCancelled =>
      || turn.answer.Cancelled?
      || (Retryable(call.policy, turn.answer)
          && ((turn.answer.Status? && turn.interrupts > 0) || (ClosedQuietly(turn) && turn.slept.Interrupted?)))
    case CloseFailed =>
      Retryable(call.policy, turn.answer) && turn.answer.Status? && turn.interrupts == 0 && turn.closeFails
    case BadDelay =>
      Retryable(call.policy, turn.answer) && ClosedQuietly(turn) && DelayOf(call.policy, turn, n).None?
    case SleepFailed =>
      && Retryable(call.policy, turn.answer) && ClosedQuietly(turn) && turn.slept.Errored?
      && call.policy.totalTimeout.None?
    case SleepDeadline =>
      && Retryable(call.policy, turn.answer) && ClosedQuietly(turn)
      && ((call.policy.totalTimeout.Some? && turn.slept.Errored?) || DeadlinePassed(call, log))
    case _ => false
  }

  /** What the outside did in the last turn to make a call of `n` sends end the way it does. */
  ghost predicate Explains(call: Call, log: Log, n: int, outcome: Outcome) {
    match outcome
    case Returned(_, status) => n >= 1 && call.turns(n).answer == Status(status)
    case Raised(Transport) => n >= 1 && call.turns(n).answer == TransportFailed
    case Raised(CircuitOpen) => Story(call, log, n)
    case Raised(SendDeadline) =>
      (n >= 1 && call.turns(n).answer == TimedOut) || (n >= 0 && Story(call, log, n) && DeadlinePassed(call, log))
    case Raised(reason) => n >= 1 && ExplainsRaise(call, log, n, reason)
  }

  ghost predicate LogGrows(log: Log, log': Log) {
    log.readings <= log'.readings && log.readsAtSend <= log'.readsAtSend && log.sleeps <= log'.sleeps
  }

  /** Nothing the call has still to do changes what was slept before. */
  lemma StoryStays(call: Call, log: Log, log': Log, n: int)
    requires Story(call, log, n) && LogGrows(log, log')
    ensures Story(call, log', n)
  {
    forall i | 1 <= i <= n ensures Continues(call.policy, call.turns(i), i) && PausedAfter(call, log', i) {
      assert PausedAfter(call, log, i);
    }
  }

  lemma StoryShrinks(call: Call, log: Log, n: int)
    requires Story(call, log, n)
    ensures Story(call, log, n - 1)
  {
  }

  lemma StoryGrows(call: Call, log: Log, n: nat)
    requires Story(call, log, n) && |call.before.sleeps| + n + 1 <= |log.sleeps|
    requires |call.before.readsAtSend| + n + 1 <= |log.readsAtSend|
    requires Continues(call.policy, call.turns(n + 1), n + 1) && PausedAfter(call, log, n + 1)
    ensures Story(call, log, n + 1)
  {
  }

  /** A later clock reading leaves the explanation as it is. */
  lemma ExplainsLater(call: Call, log: Log, t: real, n: int, outcome: Outcome)
    requires Explains(call, log, n, outcome) && Respects(call, log)
    requires log.readings != [] ==> log.readings[|log.readings| - 1] <= t
    ensures Explains(call, log.(readings := log.readings + [t]), n, outcome)
  {
    var later := log.(readings := log.readings + [t]);
    ReadAgain(call, log, t);
    if Story(call, log, n) { StoryStays(call, log, later, n); }
    if DeadlinePassed(call, log) { assert DeadlinePassed(call, later); }
  }

  /** What holds at every step of a call. */
  ghost predicate Underway(world: World, call: Call, deadline: Option<real>)
    reads world
  {
    && world.Valid() && call.policy.Valid() && Respects(call, world.log)
    && DeadlineKnown(call, world.log, deadline, world.now)
  }

  /** What holds when a call is over. */
  ghost predicate Ends(world: World, breaker: CircuitBreaker?, call: Call, asked: seq<Event>, outcome: Outcome)
    reads world, breaker
  {
    && world.Valid() && (breaker != null ==> breaker.Valid()) && Respects(call, world.log)
    && world.Owned(call.who) == (if outcome.Returned? then {outcome.id} else {})
    && (outcome.Returned? ==> Sends(call, world.log) == Pauses(call, world.log) + 1)
    && ((outcome.Returned? && outcome.status in call.policy.transient) || outcome == Raised(Transport) ==>
          Sends(call, world.log) == call.limit)
    && BreakerAgrees(breaker, call, asked, Sends(call, world.log), outcome)
    && Story(call, world.log, Sends(call, world.log) - 1) && Explains(call, world.log, Sends(call, world.log), outcome)
  }

  method StreamRequest(world: World, me: nat, policy: RetryPolicy, canRetry: bool, breaker: CircuitBreaker?,
                       turns: nat -> Turn)
    returns (outcome: Outcome)
    requires world.Valid() && world.Owned(me) == {} && policy.Valid() && (breaker != null ==> breaker.Valid())
    modifies world, breaker
    ensures Ends(world, breaker, Call(me, policy, if canRetry then policy.attempts else 1, old(world.log), turns),
                 if breaker == null then [] else old(breaker.history), outcome)
  {
    ghost var call := Call(me, policy, if canRetry then policy.attempts else 1, world.log, turns);
    ghost var asked := if breaker == null then [] else breaker.history;
    var deadline := StartDeadline(world, policy, call);
    var maxAttempts := if policy.attempts > 1 then policy.attempts else 1;
    assert Checking(breaker, me, asked, 0);
    assert call.limit == if canRetry then maxAttempts else 1;
    assert Story(call, world.log, 0);
    hide *;
    for attempt := 1 to maxAttempts + 1
      invariant Underway(world, call, deadline) && world.Owned(me) == {}
      invariant Sends(call, world.log) == Pauses(call, world.log) == attempt - 1
      invariant Checking(breaker, me, asked, attempt - 1) && Story(call, world.log, attempt - 1)
      invariant attempt > 1 ==> canRetry && attempt <= maxAttempts
    {
      var step := Attempt(world, me, policy, attempt, canRetry && attempt < maxAttempts, turns(attempt), breaker,
                          deadline, call, asked);
      if step.Done? {
        return step.outcome;
      }
    }
    assert false; // the error after the loop is never raised
  }

  datatype Step = Again | Done(outcome: Outcome)

  /** A call between two turns, the first `n` of which ended in another attempt. */
  ghost predicate BetweenTurns(world: World, breaker: CircuitBreaker?, call: Call, deadline: Option<real>,
                               asked: seq<Event>, n: nat)
    reads world, breaker
  {
    && Underway(world, call, deadline) && world.Owned(call.who) == {}
    && Sends(call, world.log) == Pauses(call, world.log) == n
    && Checking(breaker, call.who, asked, n) && Story(call, world.log, n)
  }

  /** A call that has sent for the `n`th time, and holds the response, if any. */
  ghost predicate HasSent(world: World, breaker: CircuitBreaker?, call: Call, deadline: Option<real>,
                          asked: seq<Event>, n: nat, open: set<nat>)
    reads world, breaker
  {
    && n >= 1 && Underway(world, call, deadline) && world.Owned(call.who) == open
    && Sends(call, world.log) == n && Pauses(call, world.log) == n - 1
    && Checking(breaker, call.who, asked, n) && Story(call, world.log, n - 1)
  }

  /** One turn of the retry loop. */
  method Attempt(world: World, me: nat, policy: RetryPolicy, attempt: nat, mayRetry: bool, turn: Turn,
                 breaker: CircuitBreaker?, deadline: Option<real>, ghost call: Call, ghost asked: seq<Event>)
    returns (step: Step)
    requires call.who == me && call.policy == policy && call.turns(attempt) == turn
    requires 1 <= attempt <= call.limit && (mayRetry <==> attempt < call.limit)
    requires BetweenTurns(world, breaker, call, deadline, asked, attempt - 1)
    modifies world, breaker
    ensures step.Done? ==> Ends(world, breaker, call, asked, step.outcome)
    ensures step.Again? ==> mayRetry && BetweenTurns(world, breaker, call, deadline, asked, attempt)
  {
    hide Respects, TallyOf, Underway, Ends, Checking, Sends, Pauses, Story, DeadlinePassed, DelayOf;
    var rejected := CheckBreaker(world, me, breaker, deadline, call, asked, attempt - 1);
    if rejected {
      return Done(Raised(CircuitOpen));
    }
    var sent, id := SendWithDeadline(world, me, turn.answer, deadline, call, attempt - 1);
    if !sent {
      StoryShrinks(call, world.log, attempt - 1);
      ReportFailure(world, me, breaker, call, asked, attempt, Raised(SendDeadline), deadline);
      return Done(Raised(SendDeadline));
    }
    match turn.answer {
      case Cancelled =>
        Silent(world, breaker, call, asked, attempt, WasCancelled, deadline);
        step := Done(Raised(WasCancelled));
      case TimedOut =>
        ReportFailure(world, me, breaker, call, asked, attempt, Raised(SendDeadline), deadline);
        step := Done(Raised(SendDeadline));
      case TransportFailed =>
        if mayRetry {
          step := Pause(world, me, policy, Absent, attempt, turn, breaker, deadline, call, asked);
        } else {
          ReportFailure(world, me, breaker, call, asked, attempt, Raised(Transport), deadline);
          step := Done(Raised(Transport));
        }
      case Status(code) =>
        step := Answered(world, me, policy, attempt, mayRetry, turn, breaker, deadline, id, call, asked);
    }
  }

  /** A response has arrived: it is the result, or it is closed before anything in it is interpreted. */
  method Answered(world: World, me: nat, policy: RetryPolicy, attempt: nat, mayRetry: bool, turn: Turn,
                  breaker: CircuitBreaker?, deadline: Option<real>, id: nat, ghost call: Call, ghost asked: seq<Event>)
    returns (step: Step)
    requires call.who == me && call.policy == policy && call.turns(attempt) == turn && turn.answer.Status?
    requires 1 <= attempt <= call.limit && (mayRetry <==> attempt < call.limit)
    requires HasSent(world, breaker, call, deadline, asked, attempt, {id})
    modifies world, breaker
    ensures step.Done? ==> Ends(world, breaker, call, asked, step.outcome)
    ensures step.Again? ==> mayRetry && BetweenTurns(world, breaker, call, deadline, asked, attempt)
  {
    hide Respects, TallyOf, Underway, Ends, Checking, Sends, Pauses, Story, DeadlinePassed, DelayOf;
    var status := turn.answer.code;
    if status !in policy.transient {
      ReportSuccess(world, me, breaker, call, asked, attempt, id, status, deadline);
      return Done(Returned(id, status));
    }
    if !mayRetry {
      ReportFailure(world, me, breaker, call, asked, attempt, Returned(id, status), deadline);
      return Done(Returned(id, status));
    }
    var closed := CloseOwn(world, me, id, turn.interrupts, turn.closeFails, deadline, call);
    if closed == Interrupted {
      Silent(world, breaker, call, asked, attempt, WasCancelled, deadline);
      return Done(Raised(WasCancelled));
    }
    if closed == Errored {
      Silent(world, breaker, call, asked, attempt, CloseFailed, deadline);
      return Done(Raised(CloseFailed));
    }
    step := Pause(world, me, policy, turn.header, attempt, turn, breaker, deadline, call, asked);
  }

  method CloseOwn(world: World, me: nat, id: nat, interrupts: nat, fails: bool, deadline: Option<real>,
                  ghost call: Call)
    returns (closed: AwaitResult)
    requires Underway(world, call, deadline) && world.Owned(me) == {id}
    modifies world`now, world`open, world`nextId
    ensures Underway(world, call, deadline) && world.Owned(me) == {}
    ensures closed == if interrupts > 0 then Interrupted else if fails then Errored else Completed
  {
    hide Respects;
    assert id in world.Owned(me);
    closed := CloseDefinitively(world, me, id, interrupts, fails);
  }

  /** Compute the delay and sleep it. No response is in hand here. */
  method Pause(world: World, me: nat, policy: RetryPolicy, header: RetryAfter, attempt: nat, turn: Turn,
               breaker: CircuitBreaker?, deadline: Option<real>, ghost call: Call, ghost asked: seq<Event>)
    returns (step: Step)
    requires call.who == me && call.policy == policy && call.turns(attempt) == turn && attempt >= 1
    requires header == (if turn.answer.Status? then turn.header else Absent)
    requires Retryable(policy, turn.answer) && ClosedQuietly(turn)
    requires HasSent(world, breaker, call, deadline, asked, attempt, {})
    modifies world
    ensures step.Done? ==> Ends(world, breaker, call, asked, step.outcome)
    ensures step.Again? ==> BetweenTurns(world, breaker, call, deadline, asked, attempt)
  {
    hide Respects, TallyOf, BreakerAgrees, Ends, Delay, RetryDelay, Story, DeadlineOf;
    var delay := RetryDelay(policy, header, attempt, turn.jitter);
    if delay.None? {
      Silent(world, breaker, call, asked, attempt, BadDelay, deadline);
      return Done(Raised(BadDelay));
    }
    RetryDelayBounds(policy, header, attempt, turn.jitter);
    ghost var log := world.log;
    var raised := SleepWithDeadline(world, me, delay.value, turn.slept, deadline, call);
    StoryStays(call, log, world.log, attempt - 1);
    if raised.Some? {
      Silent(world, breaker, call, asked, attempt, raised.value, deadline);
      step := Done(Raised(raised.value));
    } else {
      PausedNow(call, log, world.log, attempt, delay.value, deadline);
      StoryGrows(call, world.log, attempt - 1);
      step := Again;
    }
  }

  /** A pause asked for at the end of a turn is the one its delay and the clock call for. */
  lemma PausedNow(call: Call, log: Log, log': Log, attempt: nat, delay: real, deadline: Option<real>)
    requires Respects(call, log) && Sends(call, log) == attempt >= 1 && Pauses(call, log) == attempt - 1
    requires deadline == DeadlineOf(call, log) && (deadline.Some? <==> call.policy.totalTimeout.Some?)
    requires DelayOf(call.policy, call.turns(attempt), attempt) == Some(delay)
    requires log' == log.(readings := log'.readings, sleeps := log'.sleeps)
    requires deadline.None? ==> log' == log.(sleeps := log.sleeps + [Slept(delay, |log.readings|)])
    requires deadline.Some? ==>
               && |log'.readings| == |log.readings| + 1 && log.readings <= log'.readings
               && var rest := deadline.value - log'.readings[|log.readings|];
               log'.sleeps == log.sleeps + [Slept(Min(delay, rest), |log'.readings|)]
    ensures |call.before.sleeps| + attempt <= |log'.sleeps| && |call.before.readsAtSend| + attempt <= |log'.readsAtSend|
    ensures PausedAfter(call, log', attempt)
  {
    hide DelayOf;
  }

  method StartDeadline(world: World, policy: RetryPolicy, ghost call: Call) returns (deadline: Option<real>)
    requires world.Valid() && policy.Valid() && call.policy == policy && call.before == world.log && call.limit >= 0
    modifies world`now, world`log
    ensures Underway(world, call, deadline) && world.log == old(world.log).(readings := world.log.readings)
    ensures Sends(call, world.log) == Pauses(call, world.log) == 0
  {
    deadline := None;
    if policy.totalTimeout.Some? {
      var start := world.Clock();
      deadline := Some(start + Max(policy.totalTimeout.value, 0.0));
    }
  }

  /** Reading the clock again changes neither the deadline nor what has been sent or slept. */
  lemma ReadAgain(call: Call, log: Log, t: real)
    requires Respects(call, log)
    ensures var read := log.(readings := log.readings + [t]);
            Respects(call, read) && (call.policy.totalTimeout.Some? ==> DeadlineOf(call, read) == DeadlineOf(call, log))
  {
  }

  /** One more send in time, with nothing of the call open. */
  lemma SendOnce(call: Call, log: Log, at: real)
    requires Respects(call, log) && Sends(call, log) < call.limit
    requires DeadlineOf(call, log).Some? ==> at < DeadlineOf(call, log).value
    ensures var sent := log.(sendTimes := log.sendTimes + [at], openAtSend := log.openAtSend + [{}],
                             readsAtSend := log.readsAtSend + [|log.readings|]);
            Respects(call, sent) && DeadlineOf(call, sent) == DeadlineOf(call, log)
  {
  }

  lemma SleepOnce(call: Call, log: Log, pause: real)
    requires Respects(call, log) && PauseRespects(call.policy, pause)
    ensures var slept := log.(sleeps := log.sleeps + [Slept(pause, |log.readings|)]);
            Respects(call, slept) && DeadlineOf(call, slept) == DeadlineOf(call, log)
  {
  }

  /** Read the clock in the middle of a call. */
  method ReadClock(world: World, deadline: Option<real>, ghost call: Call) returns (at: real)
    requires Underway(world, call, deadline)
    modifies world`now, world`log
    ensures Underway(world, call, deadline) && at == world.now >= old(world.now)
    ensures world.log == old(world.log).(readings := old(world.log).readings + [at])
  {
    ghost var log := world.log;
    at := world.Clock();
    ReadAgain(call, log, at);
  }

  /** Send unless the deadline has been reached. */
  method SendWithDeadline(world: World, me: nat, answer: Answer, deadline: Option<real>, ghost call: Call, ghost n: nat)
    returns (sent: bool, id: nat)
    requires Underway(world, call, deadline) && world.Owned(me) == {} && Sends(call, world.log) == n < call.limit
    requires Story(call, world.log, n)
    modifies world
    ensures Underway(world, call, deadline) && Story(call, world.log, n)
    ensures world.Owned(me) == if sent && answer.Status? then {id} else {}
    ensures Pauses(call, world.log) == Pauses(call, old(world.log))
    ensures Sends(call, world.log) == if sent then n + 1 else n
    ensures !sent ==> DeadlinePassed(call, world.log)
  {
    hide Respects, Story;
    ghost var log := world.log;
    sent, id := false, 0;
    if deadline.Some? {
      var at := ReadClock(world, deadline, call);
      StoryStays(call, log, world.log, n);
      if deadline.value - at <= 0.0 {
        return;
      }
    }
    SendOnce(call, world.log, world.now);
    id := world.Send(me, answer);
    sent := true;
    StoryStays(call, log, world.log, n);
  }

  /** Sleep `delay` seconds, or what is left until the deadline. */
  method SleepWithDeadline(world: World, me: nat, delay: real, slept: AwaitResult, deadline: Option<real>,
                           ghost call: Call)
    returns (raised: Option<Reason>)
    requires Underway(world, call, deadline) && 0.0 <= delay <= Max(call.policy.retryAfterCap, call.policy.maxDelay)
    modifies world
    ensures Underway(world, call, deadline) && world.Owned(me) == old(world.Owned(me))
    ensures world.log == old(world.log).(readings := world.log.readings, sleeps := world.log.sleeps)
    ensures deadline.None? ==>
              && world.log == old(world.log).(sleeps := old(world.log).sleeps
                                                        + [Slept(delay, |old(world.log).readings|)])
              && raised == (match slept case Completed => None case Interrupted => Some(WasCancelled)
                            case Errored => Some(SleepFailed))
    ensures deadline.Some? ==>
              && |world.log.readings| == |old(world.log).readings| + 1
              && var at := world.log.readings[|old(world.log).readings|];
              && world.log.readings == old(world.log).readings + [at] &&
              if at >= deadline.value
              then && raised == Some(SleepDeadline) && world.log.sleeps == old(world.log).sleeps
                   && DeadlinePassed(call, world.log)
              else && world.log.sleeps == old(world.log).sleeps
                                          + [Slept(Min(delay, deadline.value - at), |world.log.readings|)]
                   && raised == (match slept case Completed => None case Interrupted => Some(WasCancelled)
                                 case Errored => Some(SleepDeadline))
  {
    hide Respects;
    var pause := delay;
    if deadline.Some? {
      var at := ReadClock(world, deadline, call);
      if deadline.value - at <= 0.0 {
        return Some(SleepDeadline);
      }
      pause := Min(delay, deadline.value - at);
    }
    SleepOnce(call, world.log, pause);
    world.Sleep(me, pause);
    raised := match slept
      case Completed => None
      case Interrupted => Some(WasCancelled)
      case Errored => Some(if deadline.Some? then SleepDeadline else SleepFailed);
  }

  /** What has just been done to the breaker; the clock has just been read. */
  ghost predicate LastEvent(breaker: CircuitBreaker, e: Event)
    reads breaker
  {
    breaker.history != [] && breaker.history[|breaker.history| - 1] == e
  }

  ghost predicate LastReading(world: World)
    reads world
  {
    world.log.readings != [] && world.log.readings[|world.log.readings| - 1] == world.now
  }

  /** Before each attempt; other calls may have used the breaker since. */
  method CheckBreaker(world: World, me: nat, breaker: CircuitBreaker?, deadline: Option<real>, ghost call: Call,
                      ghost asked: seq<Event>, ghost n: nat)
    returns (rejected: bool)
    requires BetweenTurns(world, breaker, call, deadline, asked, n) && call.who == me
    modifies world, breaker
    ensures Underway(world, call, deadline) && world.Owned(me) == {}
    ensures Sends(call, world.log) == Pauses(call, world.log) == n && Story(call, world.log, n)
    ensures if rejected then breaker != null && Ends(world, breaker, call, asked, Raised(CircuitOpen))
            else Checking(breaker, me, asked, n + 1)
    ensures breaker != null ==> LastEvent(breaker, Checked(me, world.now)) && LastReading(world)
  {
    hide Respects, TallyOf, Rejects, IsOpen, StreakStart, FailuresAfter, LatestFailure, Story;
    ghost var log := world.log;
    rejected := false;
    Others(world, breaker, me, |asked|);
    if breaker != null {
      var at := ReadClock(world, deadline, call);
      StoryStays(call, log, world.log, n);
      StoryShrinks(call, world.log, n);
      TallyGrows(breaker.settings, breaker.history, |asked|, me, Checked(me, at));
      rejected := breaker.BeforeRequest(at, me);
    }
  }

  method ReportSuccess(world: World, me: nat, breaker: CircuitBreaker?, ghost call: Call, ghost asked: seq<Event>,
                       ghost sends: nat, ghost id: nat, ghost status: int, ghost deadline: Option<real>)
    requires HasSent(world, breaker, call, deadline, asked, sends, {id}) && call.who == me
    requires status !in call.policy.transient && call.turns(sends).answer == Status(status)
    modifies world`now, world`open, world`nextId, breaker
    ensures Ends(world, breaker, call, asked, Returned(id, status))
    ensures breaker != null ==> LastEvent(breaker, Succeeded(me))
  {
    hide Respects, TallyOf, Rejects, IsOpen, StreakStart, FailuresAfter, LatestFailure, Story;
    Others(world, breaker, me, |asked|);
    if breaker != null {
      TallyGrows(breaker.settings, breaker.history, |asked|, me, Succeeded(me));
      breaker.RecordSuccess(me);
    }
  }

  method ReportFailure(world: World, me: nat, breaker: CircuitBreaker?, ghost call: Call, ghost asked: seq<Event>,
                       ghost checks: nat, ghost outcome: Outcome, ghost deadline: Option<real>)
    requires Underway(world, call, deadline) && call.who == me && Checking(breaker, me, asked, checks)
    requires Reported(outcome) && !IsSuccess(outcome, call.policy.transient)
    requires world.Owned(me) == (if outcome.Returned? then {outcome.id} else {})
    requires outcome.Returned? ==> Sends(call, world.log) == Pauses(call, world.log) + 1
    requires if outcome == Raised(SendDeadline) then checks - 1 <= Sends(call, world.log) <= checks
             else Sends(call, world.log) == checks == call.limit
    requires Story(call, world.log, Sends(call, world.log) - 1)
    requires Explains(call, world.log, Sends(call, world.log), outcome)
    modifies world, breaker
    ensures Ends(world, breaker, call, asked, outcome)
    ensures breaker != null ==> LastEvent(breaker, Failed(me, world.now)) && LastReading(world)
  {
    hide Respects, TallyOf, Rejects, IsOpen, StreakStart, FailuresAfter, LatestFailure, Story, Explains;
    Others(world, breaker, me, |asked|);
    if breaker != null {
      ghost var log := world.log;
      var failedAt := world.Clock();
      ReadAgain(call, log, failedAt);
      StoryStays(call, log, world.log, Sends(call, log) - 1);
      ExplainsLater(call, log, failedAt, Sends(call, log), outcome);
      TallyGrows(breaker.settings, breaker.history, |asked|, me, Failed(me, failedAt));
      breaker.RecordFailure(failedAt, me);
    }
  }

  /** A call that ends in an exception the breaker never hears of. */
  lemma Silent(world: World, breaker: CircuitBreaker?, call: Call, asked: seq<Event>, sends: nat, reason: Reason,
               deadline: Option<real>)
    requires Underway(world, call, deadline) && world.Owned(call.who) == {} && Checking(breaker, call.who, asked, sends)
    requires Sends(call, world.log) == sends && !Reported(Raised(reason)) && reason != CircuitOpen
    requires Story(call, world.log, sends - 1) && Explains(call, world.log, sends, Raised(reason))
    ensures Ends(world, breaker, call, asked, Raised(reason))
  {
    hide Respects, TallyOf, Story, Explains;
  }

  // ---- The bounded body ---------------------------------------------------------------------

  /** How the stream of chunks ends: exhausted, or with an exception. */
  datatype Ending = Finished | Broken(reason: Reason)

  datatype Headers = Headers(identityEncoding: bool, contentLength: Option<int>, deadlineExpired: bool)

  /** What a response turns out to be while its body is read. */
  datatype Reply = Reply(headers: Headers, chunks: seq<seq<Byte>>, ending: Ending)

  datatype Body = Buffered(body: seq<Byte>) | TooLarge | Unread(reason: Reason) | Expired

  function Flatten(chunks: seq<seq<Byte>>): seq<Byte> {
    if chunks == [] then [] else Flatten(chunks[..|chunks| - 1]) + chunks[|chunks| - 1]
  }

  lemma {:induction false} FlattenGrows(chunks: seq<seq<Byte>>, i: nat)
    requires i <= |chunks|
    ensures |Flatten(chunks[..i])| <= |Flatten(chunks)|
    decreases |chunks|
  {
    if i == |chunks| {
      assert chunks[..i] == chunks;
    } else {
      FlattenGrows(chunks[..|chunks| - 1], i);
      assert chunks[..|chunks| - 1][..i] == chunks[..i];
    }
  }

  /** The chunks are joined in order. */
  lemma {:induction false} FlattenJoins(a: seq<seq<Byte>>, b: seq<seq<Byte>>, chunk: seq<Byte>)
    ensures Flatten([chunk]) == chunk && Flatten(a + b) == Flatten(a) + Flatten(b)
  {
    assert [chunk][..0] == [];
    if b == [] {
      assert a + b == a;
    } else {
      FlattenJoins(a, b[..|b| - 1], chunk);
      assert (a + b)[..|a + b| - 1] == a + b[..|b| - 1];
    }
  }

  /** An exception raised while closing replaces whatever was about to be returned or raised. */
  function AfterClose(closed: AwaitResult, otherwise: Body): Body {
    match closed
    case Completed => otherwise
    case Interrupted => Unread(WasCancelled)
    case Errored => Unread(CloseFailed)
  }

  predicate Fits(reply: Reply, maxBytes: nat) {
    && reply.headers.identityEncoding && |Flatten(reply.chunks)| <= maxBytes
    && (reply.headers.contentLength.Some? ==> reply.headers.contentLength.value <= maxBytes)
  }

  /** How reading a reply ends when closing it neither fails nor is interrupted. */
  ghost predicate ReadsAs(reply: Reply, maxBytes: nat, result: Body) {
    && (result.Expired? <==> reply.headers.deadlineExpired)
    && (result.TooLarge? <==> !reply.headers.deadlineExpired && !Fits(reply, maxBytes))
    && (result.Buffered? <==> !reply.headers.deadlineExpired && Fits(reply, maxBytes) && reply.ending.Finished?)
    && (result.Buffered? ==> result.body == Flatten(reply.chunks))
    && (result.Unread? ==> reply.ending == Broken(result.reason))
  }

  method ReadBounded(world: World, me: nat, id: nat, reply: Reply, maxBytes: nat, interrupts: nat,
                     closeFails: bool)
    returns (result: Body)
    requires world.Valid() && id in world.Owned(me)
    modifies world`now, world`open, world`nextId
    ensures world.Valid() && world.Owned(me) == old(world.Owned(me)) - {id}
    ensures if interrupts > 0 then result == Unread(WasCancelled)
            else if closeFails then result == Unread(CloseFailed)
            else ReadsAs(reply, maxBytes, result)
  {
    var headers, chunks := reply.headers, reply.chunks;
    if headers.deadlineExpired {
      var closed := CloseDefinitively(world, me, id, interrupts, closeFails);
      return AfterClose(closed, Expired);
    }
    if !headers.identityEncoding {
      var closed := CloseDefinitively(world, me, id, interrupts, closeFails);
      return AfterClose(closed, TooLarge);
    }
    if headers.contentLength.Some? && headers.contentLength.value > maxBytes {
      var closed := CloseDefinitively(world, me, id, interrupts, closeFails);
      return AfterClose(closed, TooLarge);
    }
    var body: seq<Byte> := [];
    var tooLarge := false;
    var i := 0;
    while i < |chunks| && !tooLarge
      invariant i <= |chunks| && |body| <= maxBytes
      invariant body == Flatten(chunks[..i])
      invariant tooLarge ==> |Flatten(chunks)| > maxBytes
      invariant world.Valid() && world.Owned(me) == old(world.Owned(me))
      decreases |chunks| - i, !tooLarge
    {
      assert chunks[..i + 1][..i] == chunks[..i];
      world.Pass(me);
      if |body| + |chunks[i]| > maxBytes {
        FlattenGrows(chunks, i + 1);
        tooLarge := true;
      } else {
        body := body + chunks[i];
        i := i + 1;
      }
    }
    assert chunks[..|chunks|] == chunks;
    var closed := CloseDefinitively(world, me, id, interrupts, closeFails);
    result := AfterClose(closed, if tooLarge then TooLarge
                                 else if reply.ending.Broken? then Unread(reply.ending.reason) else Buffered(body));
  }

  /**
   The buffered form: retry, then read what the response turns out to be. Whatever happens no response of
   the call stays open, and reading changes nothing of what the call did before.
   */
  method BufferedRequest(world: World, me: nat, policy: RetryPolicy, canRetry: bool, breaker: CircuitBreaker?,
                         turns: nat -> Turn, reply: Reply, maxBytes: nat, interrupts: nat, closeFails: bool)
    returns (outcome: Outcome, result: Body)
    requires world.Valid() && world.Owned(me) == {} && policy.Valid() && (breaker != null ==> breaker.Valid())
    modifies world, breaker
    ensures world.Valid() && world.Owned(me) == {}
    ensures var call := Call(me, policy, if canRetry then policy.attempts else 1, old(world.log), turns);
            var n := Sends(call, world.log);
            && Respects(call, world.log) && Story(call, world.log, n - 1) && Explains(call, world.log, n, outcome)
            && BreakerAgrees(breaker, call, if breaker == null then [] else old(breaker.history), n, outcome)
    ensures outcome.Raised? ==> result == Unread(outcome.reason)
    ensures outcome.Returned? ==>
              if interrupts > 0 then result == Unread(WasCancelled)
              else if closeFails then result == Unread(CloseFailed)
              else ReadsAs(reply, maxBytes, result)
  {
    hide Respects, BreakerAgrees, ReadsAs, Story, Explains;
    outcome := StreamRequest(world, me, policy, canRetry, breaker, turns);
    if outcome.Raised? {
      return outcome, Unread(outcome.reason);
    }
    assert outcome.id in world.Owned(me);
    result := ReadBounded(world, me, outcome.id, reply, maxBytes, interrupts, closeFails);
  }
}
