/**
 The deadline-sharing cleanup of hook credentials (scripts/cleanup_csi_hook_material.py:114-241, 271-387):
 every kubectl command runs inside one deadline that signals can only shorten, and Secrets are touched
 only after both drains succeeded.
 */
module CleanupRunners {
  import opened Extrema
  import opened Options

  const SIGNAL_CLEANUP_SECONDS := 8.0
  const TERMINATION_GRACE_SECONDS := 0.5
  const MIN_COMMAND_SECONDS := 0.01
  const IDENTITY_COMMAND_MAX_SECONDS := 1.0
  const IDENTITY_FRACTION := 0.05
  const JOB_FRACTION := 0.4
  const POD_FRACTION := 0.55

  /** The part of the remaining time a command is offered. */
  function Share(fraction: real, remaining: real): real { remaining * fraction }

  /** How Popen.wait answers: an exit code, TimeoutExpired, or OSError. */
  datatype WaitResult = Exited(code: int) | Expired | Broken

  /** The commands, in the order in which they are issued. */
  datatype Command = Identity(i: nat) | Jobs | Pods | Secret(i: nat)

  /**
   A command as it was issued: the fraction and the cap of its budget, the clock, the world's slack so far,
   the time left until the deadline, and the budget itself. Then what became of it: whether the system could
   start its process if it was asked to, the timeout and the answer of the wait for that process, the
   time that passed in its bounded waits, and whether the runner counts it as a success.
   */
  datatype Entry = Entry(command: Command, fraction: real, cap: Option<real>, at: real, slack: real, left: real,
                         budget: real, spawned: Option<bool>, patience: Option<real>, exit: Option<WaitResult>,
                         spent: real, ok: bool)

  /** The clock net of slack when a command is issued, and when it is over. */
  function Begun(e: Entry): real { e.at - e.slack }

  function Ended(e: Entry): real { Begun(e) + e.spent }

  /** Where the clock net of slack stands after the commands of `log`. */
  function Reached(log: seq<Entry>, start: real): real {
    if log == [] then start else Ended(log[|log| - 1])
  }

  /** No time passes between a command and the one before it, except as slack. */
  predicate Continues(log: seq<Entry>, start: real, j: nat)
    requires j < |log|
  {
    Begun(log[j]) == if j == 0 then start else Ended(log[j - 1])
  }

  /**
   The ledger accounts for all the time since `start`: every moment is slack or spent in the bounded waits
   of one command, and no command's waits exceed its budget.
   */
  ghost predicate Accounts(log: seq<Entry>, start: real) {
    && (forall j :: 0 <= j < |log| ==> 0.0 <= log[j].spent <= Max(0.0, log[j].budget))
    && (forall j :: 0 <= j < |log| ==> Continues(log, start, j))
    && (forall i, j :: 0 <= i < j < |log| ==> log[i].slack <= log[j].slack)
  }

  lemma AccountsGrow(log: seq<Entry>, start: real, e: Entry)
    requires Accounts(log, start) && Begun(e) == Reached(log, start) && 0.0 <= e.spent <= Max(0.0, e.budget)
    requires forall j :: 0 <= j < |log| ==> log[j].slack <= e.slack
    ensures Accounts(log + [e], start)
  {
    var log' := log + [e];
    assert log'[|log|] == e && forall j :: 0 <= j < |log| ==> log'[j] == log[j];
    forall j | 0 <= j < |log'| ensures Continues(log', start, j) {
      if j < |log| { assert Continues(log, start, j); }
      if j > 0 { assert log'[j - 1] == log[j - 1]; }
    }
  }

  /** What is done to a process group that has to end: signals with their time, and waits with their timeout. */
  datatype Act = Term(at: real) | Awaited(timeout: real) | Kill(at: real)

  /**
   The monotonic clock, the signals delivered so far, the ledger of finished commands, the entry of the running
   one, and whether a process group is alive that has neither exited nor been sent SIGKILL. `slack` is the
   time that passes outside waits bounded by a command's own budget: scheduling and spawning, at most
   `delay` at a time, and escalation after a signal or a failed wait.
   */
  class World {
    const start: real
    const delay: real
    var now: real
    var alive: bool
    ghost var signals: nat
    ghost var slack: real
    ghost var log: seq<Entry>
    ghost var running: Option<Entry>
    ghost var acts: seq<Act>

    ghost predicate Valid()
      reads this
    {
      && delay >= 0.0 && slack >= 0.0 && Accounts(log, start) && (forall j :: 0 <= j < |log| ==> log[j].slack <= slack)
      && match running
         case None => now - slack == Reached(log, start)
         case Some(e) =>
           && Begun(e) == Reached(log, start) && 0.0 <= e.spent <= Max(0.0, e.budget)
           && (forall j :: 0 <= j < |log| ==> log[j].slack <= e.slack) && e.slack <= slack
           && now - slack == Ended(e)
    }

    constructor (delay: real)
      requires delay >= 0.0
      ensures Valid() && now == 0.0 && slack == 0.0 && log == [] && running.None? && !alive && this.delay == delay
    {
      this.delay, start, now, alive := delay, 0.0, 0.0, false;
      signals, slack, log, running, acts := 0, 0.0, [], None, [];
    }

    /** The process is not scheduled for a while. */
    method Overhead()
      requires Valid()
      modifies this`now, this`slack
      ensures Valid() && now - old(now) == slack - old(slack) && 0.0 <= slack - old(slack) <= delay
    {
      hide Accounts, Reached;
      var passed: real := *;
      if 0.0 < passed <= delay {
        now, slack := now + passed, slack + passed;
      }
    }

    /** How many signals arrive now. */
    method Deliver() returns (n: nat)
      requires Valid()
      modifies this`signals
      ensures Valid() && signals == old(signals) + n
    {
      hide Accounts, Reached;
      var arrived: int := *;
      n := if arrived > 0 then arrived else 0;
      signals := signals + n;
    }

    /** A command is issued now. */
    ghost method Issue(command: Command, fraction: real, cap: Option<real>, left: real, budget: real)
      requires Valid() && running.None?
      modifies this`running
      ensures Valid()
      ensures running == Some(Entry(command, fraction, cap, now, slack, left, budget, None, None, None, 0.0, false))
    {
      hide Accounts, Reached;
      running := Some(Entry(command, fraction, cap, now, slack, left, budget, None, None, None, 0.0, false));
    }

    /** subprocess.Popen: starts a process group or raises OSError. */
    method Spawn() returns (spawned: bool)
      requires Valid() && running.Some? && !alive
      modifies this`alive, this`running
      ensures Valid() && alive == spawned && running == Some(old(running).value.(spawned := Some(spawned)))
    {
      hide Accounts, Reached;
      spawned := *;
      alive := spawned;
      running := Some(running.value.(spawned := Some(spawned)));
    }

    /** The wait for the command itself: its timeout and its answer are on record. */
    method Wait(timeout: real) returns (result: WaitResult)
      requires Valid() && running.Some? && timeout >= 0.0
      requires running.value.spent + timeout <= Max(0.0, running.value.budget)
      modifies this`now, this`alive, this`running
      ensures Valid() && old(now) <= now <= old(now) + timeout
      ensures result == Expired ==> now == old(now) + timeout
      ensures alive == (old(alive) && !result.Exited?)
      ensures running == Some(old(running).value.(spent := old(running).value.spent + now - old(now),
                                                  patience := Some(timeout), exit := Some(result)))
    {
      hide Accounts, Reached;
      result := *;
      var passed: real := *;
      if !(0.0 <= passed <= timeout) || result == Expired { passed := timeout; }
      now := now + passed;
      if result.Exited? { alive := false; }
      running := Some(running.value.(spent := running.value.spent + passed, patience := Some(timeout),
                                     exit := Some(result)));
    }

    /** A later wait, for a process that is being terminated: on the command's account, or else slack. */
    method Linger(timeout: real, late: bool)
      requires Valid() && running.Some? && timeout >= 0.0
      requires late || running.value.spent + timeout <= Max(0.0, running.value.budget)
      modifies this`now, this`slack, this`running, this`acts
      ensures Valid() && old(now) <= now <= old(now) + timeout && acts == old(acts) + [Awaited(timeout)]
      ensures slack - old(slack) == if late then now - old(now) else 0.0
      ensures running.Some? && running.value == old(running).value.(spent := running.value.spent)
    {
      hide Accounts, Reached;
      var passed: real := *;
      if !(0.0 <= passed <= timeout) { passed := timeout; }
      now, acts := now + passed, acts + [Awaited(timeout)];
      if late {
        slack := slack + passed;
      } else {
        running := Some(running.value.(spent := running.value.spent + passed));
      }
    }

    /** SIGTERM to the whole process group, which may ignore it. */
    method Terminate()
      requires Valid()
      modifies this`acts
      ensures Valid() && acts == old(acts) + [Term(now)]
    {
      acts := acts + [Term(now)];
    }

    /** SIGKILL to the whole process group. */
    method Kill()
      requires Valid()
      modifies this`alive, this`acts
      ensures Valid() && !alive && acts == old(acts) + [Act.Kill(now)]
    {
      alive, acts := false, acts + [Act.Kill(now)];
    }

    /** The running command is over. */
    ghost method Finish(ok: bool)
      requires Valid() && running.Some?
      modifies this`log, this`running
      ensures Valid() && running.None? && log == old(log) + [old(running).value.(ok := ok)]
    {
      AccountsGrow(log, start, running.value.(ok := ok));
      hide Accounts;
      log, running := log + [running.value.(ok := ok)], None;
    }
  }

  class CleanupRunner {
    var deadline: real
    var active: bool
    var signalCount: nat
    var handling: bool
    ghost var firstSignal: Option<real>
    ghost const baseline: nat

    /** From the first signal on, at most eight seconds remain. */
    ghost predicate Valid()
      reads this
    {
      && !handling
      && (signalCount == 0 <==> firstSignal.None?)
      && (firstSignal.Some? ==> deadline <= firstSignal.value + SIGNAL_CLEANUP_SECONDS)
    }

    constructor (now: real, timeout: real, ghost signals: nat)
      ensures Valid() && deadline == now + timeout && signalCount == 0 && !active && baseline == signals
    {
      deadline, active, signalCount, handling, firstSignal := now + timeout, false, 0, false, None;
      baseline := signals;
    }

    /** One signal, with `nested` more arriving while it is handled; only the outer one may interrupt. */
    method HandleSignal(now: real, nested: nat) returns (interrupts: bool)
      requires Valid() && (firstSignal.Some? ==> firstSignal.value <= now) && (active || nested == 0)
      modifies this
      ensures Valid() && signalCount == old(signalCount) + 1 + nested
      ensures deadline == Min(old(deadline), now + SIGNAL_CLEANUP_SECONDS)
      ensures active == old(active) && interrupts == active
      ensures firstSignal == if old(firstSignal).Some? then old(firstSignal) else Some(now)
    {
      signalCount := signalCount + 1;
      deadline := Min(deadline, now + SIGNAL_CLEANUP_SECONDS);
      if firstSignal.None? { firstSignal := Some(now); }
      interrupts := active;
      if active {
        handling := true;
        var left := nested;
        while left > 0
          invariant handling && active == old(active) && signalCount + left == old(signalCount) + 1 + nested
          invariant deadline == Min(old(deadline), now + SIGNAL_CLEANUP_SECONDS)
          invariant firstSignal == if old(firstSignal).Some? then old(firstSignal) else Some(now)
        {
          signalCount := signalCount + 1;
          deadline := Min(deadline, now + SIGNAL_CLEANUP_SECONDS);
          left := left - 1;
        }
        handling := false;
      }
    }

    /** The runner has counted every signal delivered since it was made. */
    ghost predicate Ready(world: World)
      reads this, world
    {
      && Valid() && world.Valid() && (firstSignal.Some? ==> firstSignal.value <= world.now)
      && world.signals == baseline + signalCount
    }

    /** What holds between any two points of a run: time and signals advance, the deadline never grows. */
    twostate predicate Advances(world: World)
      reads this, world
    {
      && Ready(world) && world.now >= old(world.now) && world.slack >= old(world.slack)
      && deadline <= old(deadline) && signalCount >= old(signalCount)
      && (signalCount == old(signalCount) ==> deadline == old(deadline) && firstSignal == old(firstSignal))
      && (old(firstSignal).Some? ==> firstSignal == old(firstSignal))
    }

    /** The signals that arrive here are handled; true if one of them unwinds the current wait. */
    method Signals(world: World) returns (interrupted: bool)
      requires Ready(world)
      modifies this, world`signals
      ensures Advances(world) && active == old(active)
      ensures interrupted <==> active && signalCount > old(signalCount)
    {
      hide Accounts, Reached;
      var n := world.Deliver();
      interrupted := false;
      if active && n > 0 {
        interrupted := HandleSignal(world.now, n - 1);
      } else {
        var left := n;
        while left > 0
          invariant Valid() && (firstSignal.Some? ==> firstSignal.value <= world.now) && active == old(active)
          invariant signalCount + left == old(signalCount) + n && left <= n && (left < n ==> !active)
          invariant left == n ==> deadline == old(deadline) && firstSignal == old(firstSignal)
          invariant world.Valid() && world.signals == old(world.signals) + n
          invariant deadline <= old(deadline) && (old(firstSignal).Some? ==> firstSignal == old(firstSignal))
        {
          var _ := HandleSignal(world.now, 0);
          left := left - 1;
        }
      }
    }

    /** The running command may wait until `until` and stay within its budget. */
    ghost predicate Covers(world: World, until: real)
      reads world
    {
      world.running.Some? && until <= Begun(world.running.value) + world.slack + Max(0.0, world.running.value.budget)
    }

    /** Only what the running command has spent changes. */
    twostate predicate OnlySpends(world: World)
      reads world
    {
      && old(world.running).Some? && world.running.Some?
      && world.running.value == old(world.running).value.(spent := world.running.value.spent)
    }

    /**
     TERM, a grace period, KILL, and a last bounded wait; signals here only shorten the deadline. A `late`
     termination is bounded by the aggregate deadline instead of the command's own.
     */
    method TerminateProcessGroup(world: World, until: real, late: bool) returns (interrupted: bool)
      requires Ready(world) && world.running.Some? && (late || Covers(world, until))
      modifies this, world`now, world`alive, world`slack, world`running, world`signals, world`acts
      ensures Advances(world) && active == old(active) && OnlySpends(world) && !world.alive
      ensures interrupted <==> active && signalCount > old(signalCount)
      ensures world.now <= Max(old(world.now), until)
      ensures world.slack - old(world.slack) == if late then world.now - old(world.now) else 0.0
      ensures |world.acts| == |old(world.acts)| + 4 && old(world.acts) <= world.acts
      ensures Escalates(world.acts[|old(world.acts)|..], old(world.now), until)
    {
      hide Accounts, Reached;
      world.Terminate();
      world.Linger(Max(0.0, Min(TERMINATION_GRACE_SECONDS, until - world.now)), late);
      interrupted := Signals(world);
      world.Kill();
      world.Linger(Max(0.0, until - world.now), late);
      var again := Signals(world);
      interrupted := interrupted || again;
    }

    /** TERM at once, KILL after no more than the grace period, and no wait beyond `until`. */
    ghost predicate Escalates(acts: seq<Act>, from: real, until: real)
      requires |acts| == 4
    {
      && acts[0] == Term(from) && acts[1] == Awaited(Max(0.0, Min(TERMINATION_GRACE_SECONDS, until - from)))
      && acts[2].Kill? && acts[3] == Awaited(Max(0.0, until - acts[2].at))
    }

    /** Spawn one command and wait for it until `commandDeadline`, terminating it on any ending but an exit. */
    method Execute(world: World, commandDeadline: real) returns (ok: bool)
      requires Ready(world) && !active && Covers(world, commandDeadline) && !world.alive
      requires world.running.value.exit.None? && world.running.value.patience.None? && world.running.value.spent == 0.0
      modifies this, world`now, world`alive, world`slack, world`running, world`signals, world`acts
      ensures Advances(world) && !active && world.running.Some? && !world.alive
      ensures var before, after := old(world.running).value, world.running.value;
              && after == before.(spent := after.spent, spawned := after.spawned, patience := after.patience,
                                  exit := after.exit)
              && after.spawned.Some? && (after.exit.Some? ==> after.spawned == Some(true))
              && (after.patience.Some? <==> after.exit.Some?) && (ok ==> after.exit == Some(Exited(0)))
              && (signalCount == old(signalCount) ==>
                    && (after.exit.Some? <==> after.spawned == Some(true)) && (ok <==> after.exit == Some(Exited(0)))
                    && (after.exit != Some(Broken) ==> world.slack - old(world.slack) <= world.delay)
                    && (after.patience.Some? ==>
                          after.patience.value >= commandDeadline - old(world.now) - (world.slack - old(world.slack))))
    {
      hide Accounts, Reached;
      var generation := signalCount;
      world.Overhead();
      var spawned := world.Spawn();
      var _ := Signals(world);
      if !spawned {
        return false;
      }
      active := true;
      var interrupted := false;
      if signalCount != generation {
        interrupted := TerminateProcessGroup(world, deadline, true);
      }
      var result := Broken;
      if !interrupted {
        result := world.Wait(Max(0.0, commandDeadline - world.now));
        interrupted := Signals(world);
      }
      ok := Conclude(world, result, interrupted, commandDeadline);
    }

    /** The wait is over; any ending but an exit terminates the process group. */
    method Conclude(world: World, result: WaitResult, interrupted: bool, commandDeadline: real) returns (ok: bool)
      requires Ready(world) && Covers(world, commandDeadline) && (result.Exited? ==> !world.alive)
      modifies this, world`now, world`alive, world`slack, world`running, world`signals, world`acts
      ensures Advances(world) && !active && OnlySpends(world) && !world.alive
      ensures ok <==> result == Exited(0) && !interrupted
      ensures !interrupted && result != Broken ==> world.slack == old(world.slack)
    {
      hide Accounts, Reached;
      active := false;
      ok := !interrupted && result == Exited(0);
      if interrupted || result.Broken? {
        var _ := TerminateProcessGroup(world, deadline, true);
      } else if result.Expired? {
        var _ := TerminateProcessGroup(world, commandDeadline, false);
      }
    }

    /** One command within its share of what is left; too small a share starts no process. */
    method Run(world: World, command: Command, fraction: real, cap: Option<real>) returns (ok: bool)
      requires Ready(world) && !active && 0.0 < fraction <= 1.0 && world.running.None? && !world.alive
      modifies this, world
      ensures Advances(world) && !active && world.running.None? && !world.alive
      ensures |world.log| == |old(world.log)| + 1 && old(world.log) <= world.log
      ensures var e := world.log[|old(world.log)|];
              && e.command == command && e.fraction == fraction && e.cap == cap && e.ok == ok
              && IsRun(e) && e.left <= old(deadline) - e.at
              && 0.0 <= e.slack - old(world.slack) <= world.delay
              && (signalCount == old(signalCount) ==>
                    && e.left == old(deadline) - e.at && IsUndisturbed(e, world.slack)
                    && (e.exit != Some(Broken) ==> world.slack - e.slack <= 2.0 * world.delay))
    {
      hide Share, Accounts, Reached, Budgeted;
      world.Overhead();
      var _ := Signals(world);
      var remaining := deadline - world.now;
      var budget := Capped(Share(fraction, remaining), cap);
      world.Issue(command, fraction, cap, remaining, budget);
      if budget < MIN_COMMAND_SECONDS {
        ok := false;
      } else {
        ShareWithin(fraction, remaining);
        world.Overhead();
        var start := world.now;
        ok := Execute(world, Min(deadline, start + budget));
      }
      world.Finish(ok);
      CappedIsBudgeted(world.log[|world.log| - 1]);
    }
  }

  function Capped(share: real, cap: Option<real>): real {
    if cap.Some? then Min(share, cap.value) else share
  }

  /** A budget is the share or the cap, and exceeds neither. */
  ghost predicate Budgeted(e: Entry) {
    && e.budget <= e.fraction * e.left && (e.cap.Some? ==> e.budget <= e.cap.value)
    && (e.budget == e.fraction * e.left || e.cap == Some(e.budget))
  }

  lemma CappedIsBudgeted(e: Entry)
    requires e.budget == Capped(Share(e.fraction, e.left), e.cap)
    ensures Budgeted(e)
  {
  }

  /**
   What always holds of a finished command: its budget is its share; a process is asked for exactly when the
   budget suffices; it is waited for only if it was started; success is an exit with zero.
   */
  ghost predicate IsRun(e: Entry) {
    && e.budget == Capped(Share(e.fraction, e.left), e.cap) && Budgeted(e)
    && (e.spawned.Some? <==> e.budget >= MIN_COMMAND_SECONDS)
    && (e.exit.Some? ==> e.spawned == Some(true)) && (e.patience.Some? <==> e.exit.Some?)
    && (e.ok ==> e.exit == Some(Exited(0)))
  }

  /**
   What holds besides when no signal came: every started process is waited for, an exit with zero is a
   success, and the wait is the budget less the slack before it.
   */
  ghost predicate IsUndisturbed(e: Entry, slack: real) {
    && (e.exit.Some? <==> e.spawned == Some(true)) && (e.ok <==> e.exit == Some(Exited(0)))
    && (e.patience.Some? ==> e.patience.value >= e.budget - (slack - e.slack))
  }

  // ---- The stages ---------------------------------------------------------------------------

  /** The command issued at position `j` of a cleanup. */
  function CommandAt(j: nat): Command {
    if j < 3 then Identity(j) else if j == 3 then Jobs else if j == 4 then Pods else Secret(j - 5)
  }

  /** The fraction that command is given, when there are `secrets` Secret commands. */
  function FractionAt(j: nat, secrets: nat): real
    requires j < 5 + secrets
  {
    if j < 3 then 0.05 else if j == 3 then 0.4 else if j == 4 then 0.55 else 1.0 / ((secrets - (j - 5)) as real)
  }

  /** Only the identity revocations are capped. */
  function CapAt(j: nat): Option<real> { if j < 3 then Some(1.0) else None }

  /** The command at position `j`, with its own share of what was left when it was issued. */
  ghost predicate IsEntry(e: Entry, j: nat, secrets: nat)
    requires j < 5 + secrets
  {
    e.command == CommandAt(j) && e.fraction == FractionAt(j, secrets) && e.cap == CapAt(j) && IsRun(e)
  }

  /** The commands issued so far are the first ones of a cleanup, each with its own budget. */
  ghost predicate InOrder(log: seq<Entry>, secrets: nat) {
    |log| <= 5 + secrets && forall j :: 0 <= j < |log| ==> IsEntry(log[j], j, secrets)
  }

  /**
   No command had more time left than `deadline` allows. Without a signal each had exactly that, and was
   carried out undisturbed.
   */
  ghost predicate Keeps(log: seq<Entry>, deadline: real, slack: real, quiet: bool) {
    forall j :: 0 <= j < |log| ==>
      && log[j].left <= deadline - log[j].at
      && (quiet ==> log[j].left == deadline - log[j].at && IsUndisturbed(log[j], slack))
  }

  /** Whether the wait for a command broke, so that its termination is bounded by the aggregate deadline only. */
  predicate Broke(e: Entry) { e.exit == Some(Broken) }

  /** Between command `j` and the one before at most three scheduling delays pass as slack. */
  ghost predicate PromptAt(log: seq<Entry>, slack: real, delay: real, j: nat)
    requires j < |log|
  {
    if j == 0 then log[0].slack - slack <= delay
    else !Broke(log[j - 1]) ==> log[j].slack - log[j - 1].slack <= 3.0 * delay
  }

  ghost predicate Prompt(log: seq<Entry>, slack: real, delay: real) {
    forall j :: 0 <= j < |log| ==> PromptAt(log, slack, delay, j)
  }

  /** The slack since the last command was issued, or since the start. */
  ghost predicate PromptUntil(log: seq<Entry>, slack: real, delay: real, now: real) {
    if log == [] then now == slack
    else !Broke(log[|log| - 1]) ==> now - log[|log| - 1].slack <= 2.0 * delay
  }

  lemma PromptGrows(before: seq<Entry>, log: seq<Entry>, slack: real, delay: real, now: real)
    requires Prompt(before, slack, delay) && PromptUntil(before, slack, delay, now)
    requires before <= log && |log| == |before| + 1 && log[|before|].slack - now <= delay
    ensures Prompt(log, slack, delay)
  {
    forall j | 0 <= j < |log| ensures PromptAt(log, slack, delay, j) {
      if j < |before| { assert PromptAt(before, slack, delay, j); }
      if j > 0 { assert log[j - 1] == before[j - 1]; }
    }
  }

  /** Where no wait broke, the slack grows by at most three delays a command. */
  lemma {:induction false} SlackBounded(log: seq<Entry>, slack: real, delay: real, i: nat, j: nat)
    requires Prompt(log, slack, delay) && delay >= 0.0 && i <= j < |log| && forall e :: e in log ==> !Broke(e)
    ensures log[j].slack - log[i].slack <= 3.0 * ((j - i) as real) * delay
    decreases j
  {
    if i < j {
      SlackBounded(log, slack, delay, i, j - 1);
      assert PromptAt(log, slack, delay, j) && log[j - 1] in log;
      var n := (j - 1 - i) as real;
      assert 3.0 * (n + 1.0) * delay == 3.0 * n * delay + 3.0 * delay;
    }
  }

  ghost predicate AllSucceeded(log: seq<Entry>, from: nat) {
    forall j :: from <= j < |log| ==> log[j].ok
  }

  lemma NothingYet(log: seq<Entry>, from: nat)
    requires |log| <= from
    ensures AllSucceeded(log, from)
  {
  }

  lemma LogGrows(before: seq<Entry>, log: seq<Entry>, from: nat, secrets: nat)
    requires from <= |before| < 5 + secrets && before <= log && |log| == |before| + 1
    ensures InOrder(log, secrets) <==> InOrder(before, secrets) && IsEntry(log[|before|], |before|, secrets)
    ensures AllSucceeded(log, from) <==> AllSucceeded(before, from) && log[|before|].ok
  {
    hide IsEntry;
    assert forall j :: 0 <= j < |before| ==> log[j] == before[j];
  }

  lemma SucceededInParts(before: seq<Entry>, log: seq<Entry>)
    requires before <= log
    ensures AllSucceeded(log, 0) <==> AllSucceeded(before, 0) && AllSucceeded(log, |before|)
  {
    assert forall j :: 0 <= j < |before| ==> log[j] == before[j];
  }

  /** What a fraction `f` of the remaining time at most takes away, up to the overhead so far. */
  lemma Decay(remaining: real, reserve: real, slack: real, f: real)
    requires remaining >= reserve - slack && reserve >= 0.0 && slack >= 0.0 && 0.0 < f < 1.0
    ensures remaining - Max(0.0, Share(f, remaining)) >= Share(1.0 - f, reserve) - slack
  {
    hide Share;
    ShareRest(f, remaining);
    ShareRest(f, reserve);
    ShareRest(f, slack);
    ShareSign(f, reserve);
    ShareSign(f, slack);
    ShareSign(f, remaining);
    if remaining >= 0.0 {
      ShareGrows(1.0 - f, reserve - slack, remaining);
      ShareSplits(1.0 - f, reserve - slack, slack);
    }
  }

  lemma ShareRest(f: real, x: real)
    ensures Share(1.0 - f, x) == x - Share(f, x)
  {
  }

  lemma ShareSign(f: real, x: real)
    requires f > 0.0
    ensures x >= 0.0 ==> Share(f, x) >= 0.0
    ensures x <= 0.0 ==> Share(f, x) <= 0.0
  {
  }

  lemma ShareSplits(f: real, x: real, y: real)
    ensures Share(f, x + y) == Share(f, x) + Share(f, y)
  {
  }

  lemma ShareGrows(f: real, x: real, y: real)
    requires f > 0.0 && x <= y
    ensures Share(f, x) <= Share(f, y)
  {
    ShareSplits(f, x, y - x);
    ShareSign(f, y - x);
  }

  lemma ShareWithin(f: real, x: real)
    requires 0.0 < f <= 1.0
    ensures Share(f, x) > 0.0 ==> Share(f, x) <= x
  {
    if x > 0.0 { assert x - x * f == x * (1.0 - f) >= 0.0; } else { ShareSign(f, x); }
  }

  function Times(share: real, m: int): real { share * (m as real) }

  /** Offering one of `m` remaining commands 1/m of the rest leaves every later one its share. */
  lemma EqualShares(remaining: real, share: real, slack: real, m: nat)
    requires m >= 1 && share >= 0.0 && slack >= 0.0 && remaining >= Times(share, m) - slack
    ensures var f := 1.0 / (m as real);
            && 0.0 < f <= 1.0
            && Share(f, remaining) >= share - slack
            && remaining - Max(0.0, Share(f, remaining)) >= Times(share, m - 1) - slack
  {
    var f, n := 1.0 / (m as real), m as real;
    var part := Share(f, remaining);
    assert f * n == 1.0;
    assert part * n == remaining * (f * n) == remaining;
    assert share * ((m - 1) as real) == share * n - share;
    if part >= 0.0 {
      assert remaining - part == part * (n - 1.0) by { assert part * (n - 1.0) == part * n - part; }
      assert (part - share + slack / n) * n == remaining - share * n + slack by { assert slack / n * n == slack; }
      var surplus := part - share + slack / n;
      assert surplus >= 0.0;
      assert part * (n - 1.0) == share * (n - 1.0) - slack / n * (n - 1.0) + surplus * (n - 1.0);
      assert surplus * (n - 1.0) >= 0.0;
      assert slack / n * (n - 1.0) == slack - slack / n && slack / n >= 0.0;
    }
  }

  // ---- What a ledger without signals leaves for the Secrets ---------------------------------

  /** What at least remains before command `j`, of `timeout` and apart from slack. */
  function Reserve(timeout: real, j: nat): real
    requires j <= 5
  {
    if j == 0 then timeout else Share(1.0 - FractionAt(j - 1, 1), Reserve(timeout, j - 1))
  }

  lemma {:induction false} ReservePositive(timeout: real, j: nat)
    requires j <= 5 && timeout > 0.0
    ensures Reserve(timeout, j) > 0.0
  {
    if j > 0 { ReservePositive(timeout, j - 1); }
  }

  /** The whole ledger of a cleanup that no signal disturbed. */
  ghost predicate Undisturbed(log: seq<Entry>, start: real, deadline: real, secrets: nat) {
    Accounts(log, start) && InOrder(log, secrets) && forall j :: 0 <= j < |log| ==> log[j].left == deadline - log[j].at
  }

  /** Between two commands at most the budget of the first passes, and slack. */
  lemma LeftAfter(log: seq<Entry>, start: real, deadline: real, secrets: nat, j: nat)
    requires Undisturbed(log, start, deadline, secrets) && j + 1 < |log|
    ensures log[j + 1].left >= log[j].left - Max(0.0, Share(log[j].fraction, log[j].left))
                               - (log[j + 1].slack - log[j].slack)
  {
    hide Share;
    assert IsEntry(log[j], j, secrets);
    assert Continues(log, start, j + 1) && log[j].spent <= Max(0.0, log[j].budget);
  }

  lemma DrainFraction(j: nat, secrets: nat)
    requires j < 5
    ensures FractionAt(j, secrets) == FractionAt(j, 1) && 0.0 < FractionAt(j, 1) < 1.0
  {
  }

  lemma {:induction false} ReserveRemains(log: seq<Entry>, start: real, secrets: nat, timeout: real, slack: real,
                                          j: nat)
    requires Undisturbed(log, start, start + slack + timeout, secrets) && timeout > 0.0
    requires j <= 5 && j < |log| && log[0].slack >= slack
    ensures log[j].slack >= slack && log[j].left >= Reserve(timeout, j) - (log[j].slack - slack)
  {
    if j == 0 {
      assert Continues(log, start, 0);
    } else {
      var before := log[j - 1];
      ReserveRemains(log, start, secrets, timeout, slack, j - 1);
      ReservePositive(timeout, j - 1);
      assert IsEntry(before, j - 1, secrets) && before.slack <= log[j].slack;
      hide Share, FractionAt;
      DrainFraction(j - 1, secrets);
      LeftAfter(log, start, start + slack + timeout, secrets, j - 1);
      Decay(before.left, Reserve(timeout, j - 1), before.slack - slack, before.fraction);
    }
  }

  lemma ReserveForSecrets(timeout: real)
    ensures Reserve(timeout, 5) == 0.95 * 0.95 * 0.95 * 0.6 * 0.45 * timeout
  {
    assert Reserve(timeout, 1) == 0.95 * timeout;
    assert Reserve(timeout, 3) == 0.95 * Reserve(timeout, 2) && Reserve(timeout, 2) == 0.95 * Reserve(timeout, 1);
    assert Reserve(timeout, 5) == 0.45 * Reserve(timeout, 4) && Reserve(timeout, 4) == 0.6 * Reserve(timeout, 3);
  }

  /** A Secret command that finds `m` shares is offered one and leaves the others. */
  lemma OneShare(e: Entry, j: nat, secrets: nat, share: real, slack: real)
    requires 5 <= j < 5 + secrets && IsEntry(e, j, secrets) && share >= 0.0 && e.slack >= slack
    requires e.left >= Times(share, 5 + secrets - j) - (e.slack - slack)
    ensures e.budget >= share - (e.slack - slack)
    ensures e.left - Max(0.0, Share(e.fraction, e.left)) >= Times(share, 4 + secrets - j) - (e.slack - slack)
  {
    hide Share, Times;
    EqualShares(e.left, share, e.slack - slack, 5 + secrets - j);
  }

  lemma {:induction false} SharesRemain(log: seq<Entry>, start: real, deadline: real, secrets: nat, j: nat, share: real)
    requires Undisturbed(log, start, deadline, secrets) && 5 <= j < |log| == 5 + secrets
    requires share >= 0.0 && Times(share, secrets) == log[5].left
    ensures log[j].slack >= log[5].slack
    ensures log[j].left >= Times(share, 5 + secrets - j) - (log[j].slack - log[5].slack)
    ensures log[j].budget >= share - (log[j].slack - log[5].slack)
  {
    hide *;
    EntryAt(log, start, deadline, secrets, j);
    if j > 5 {
      SharesRemain(log, start, deadline, secrets, j - 1, share);
      EntryAt(log, start, deadline, secrets, j - 1);
      OneShare(log[j - 1], j - 1, secrets, share, log[5].slack);
      LeftAfter(log, start, deadline, secrets, j - 1);
    }
    OneShare(log[j], j, secrets, share, log[5].slack);
  }

  lemma EntryAt(log: seq<Entry>, start: real, deadline: real, secrets: nat, j: nat)
    requires Undisturbed(log, start, deadline, secrets) && j < |log|
    ensures IsEntry(log[j], j, secrets) && (j + 1 < |log| ==> log[j].slack <= log[j + 1].slack)
  {
  }

  lemma ShareOf(total: real, n: nat)
    requires n >= 1 && total >= 0.0
    ensures total / (n as real) >= 0.0 && Times(total / (n as real), n) == total
  {
  }

  /**
   Without a signal the Secrets find at least 0.95^3 * 0.6 * 0.45 of the timeout, and each of their n
   commands is offered 1/n of what they find, up to the slack that has passed.
   */
  lemma SecretsGetTheirShare(log: seq<Entry>, start: real, secrets: nat, timeout: real, slack: real)
    requires Undisturbed(log, start, start + slack + timeout, secrets) && timeout > 0.0
    requires secrets >= 1 && |log| == 5 + secrets && log[0].slack >= slack
    ensures log[5].left >= 0.95 * 0.95 * 0.95 * 0.6 * 0.45 * timeout - (log[5].slack - slack)
    ensures log[5].left >= 0.0 ==>
              forall j :: 5 <= j < |log| ==>
                log[j].budget >= log[5].left / (secrets as real) - (log[j].slack - log[5].slack)
  {
    hide *;
    ReserveRemains(log, start, secrets, timeout, slack, 5);
    ReserveForSecrets(timeout);
    var share := log[5].left / (secrets as real);
    if log[5].left >= 0.0 {
      ShareOf(log[5].left, secrets);
      forall j | 5 <= j < |log|
        ensures log[j].budget >= log[5].left / (secrets as real) - (log[j].slack - log[5].slack)
      {
        SharesRemain(log, start, start + slack + timeout, secrets, j, share);
      }
    }
  }

  /**
   When besides no wait broke, slack is sixteen scheduling delays at the first Secret command and three more
   at each later one, whatever the commands do with their budgets.
   */
  lemma SecretsInTime(log: seq<Entry>, start: real, secrets: nat, timeout: real, slack: real, delay: real)
    requires Undisturbed(log, start, start + slack + timeout, secrets) && timeout > 0.0 && delay >= 0.0
    requires secrets >= 1 && |log| == 5 + secrets && log[0].slack >= slack
    requires Prompt(log, slack, delay) && forall e :: e in log ==> !Broke(e)
    ensures log[5].left >= 0.95 * 0.95 * 0.95 * 0.6 * 0.45 * timeout - 16.0 * delay
    ensures log[5].left >= 0.0 ==>
              forall j :: 5 <= j < |log| ==>
                log[j].budget >= log[5].left / (secrets as real) - 3.0 * ((j - 5) as real) * delay
  {
    hide Undisturbed, Prompt, Broke;
    SecretsGetTheirShare(log, start, secrets, timeout, slack);
    FirstPrompt(log, slack, delay);
    SlackBounded(log, slack, delay, 0, 5);
    forall j | 5 <= j < |log| ensures log[j].slack - log[5].slack <= 3.0 * ((j - 5) as real) * delay {
      SlackBounded(log, slack, delay, 5, j);
    }
  }

  lemma FirstPrompt(log: seq<Entry>, slack: real, delay: real)
    requires Prompt(log, slack, delay) && log != []
    ensures log[0].slack - slack <= delay
  {
    assert PromptAt(log, slack, delay, 0);
  }

  // ---- The cleanup --------------------------------------------------------------------------

  /** Where a cleanup started: the aggregate deadline and the slack of the world then. */
  datatype Origin = Origin(deadline: real, slack: real)

  /** What holds between two commands of a cleanup. */
  ghost predicate Between(world: World, runner: CleanupRunner, secrets: nat, origin: Origin)
    reads world, runner
  {
    && runner.Ready(world) && !runner.active && world.running.None? && !world.alive && InOrder(world.log, secrets)
    && runner.deadline <= origin.deadline && (runner.signalCount == 0 ==> runner.deadline == origin.deadline)
    && Keeps(world.log, origin.deadline, world.slack, runner.signalCount == 0)
    && (runner.signalCount == 0 ==>
          && Prompt(world.log, origin.slack, world.delay)
          && PromptUntil(world.log, origin.slack, world.delay, world.slack))
  }

  lemma KeepsGrows(before: seq<Entry>, log: seq<Entry>, deadline: real, slack: real, slack': real, quiet: bool,
                   quiet': bool)
    requires Keeps(before, deadline, slack, quiet) && slack <= slack' && (quiet' ==> quiet)
    requires before <= log && |log| == |before| + 1
    requires var e := log[|before|];
             e.left <= deadline - e.at && (quiet' ==> e.left == deadline - e.at && IsUndisturbed(e, slack'))
    ensures Keeps(log, deadline, slack', quiet')
  {
    assert forall j :: 0 <= j < |before| ==> log[j] == before[j];
  }

  /** Run the next command of the cleanup. */
  method IssueNext(world: World, runner: CleanupRunner, command: Command, fraction: real, cap: Option<real>,
                   ghost secrets: nat, ghost origin: Origin)
    returns (ok: bool)
    requires Between(world, runner, secrets, origin) && |world.log| < 5 + secrets && 0.0 < fraction <= 1.0
    requires command == CommandAt(|world.log|) && fraction == FractionAt(|world.log|, secrets)
             && cap == CapAt(|world.log|)
    modifies world, runner
    ensures Between(world, runner, secrets, origin) && world.slack >= old(world.slack)
    ensures |world.log| == |old(world.log)| + 1 && old(world.log) <= world.log
    ensures world.log[|old(world.log)|].ok == ok && world.log[|old(world.log)|].slack >= old(world.slack)
    ensures runner.signalCount >= old(runner.signalCount)
  {
    hide InOrder, Keeps, Prompt, IsRun, IsUndisturbed, Share, Accounts, Reached;
    ghost var before, slack, quiet := world.log, world.slack, runner.signalCount == 0;
    ok := runner.Run(world, command, fraction, cap);
    LogGrows(before, world.log, 0, secrets);
    KeepsGrows(before, world.log, origin.deadline, slack, world.slack, quiet, runner.signalCount == 0);
    if runner.signalCount == 0 { PromptGrows(before, world.log, origin.slack, world.delay, slack); }
  }

  /** The Secret stage: each command is offered an equal share of what is left. */
  method IssueSecrets(world: World, runner: CleanupRunner, secrets: nat, ghost origin: Origin) returns (ok: bool)
    requires Between(world, runner, secrets, origin) && secrets >= 1 && |world.log| == 5
    modifies world, runner
    ensures Between(world, runner, secrets, origin)
    ensures |world.log| == 5 + secrets && old(world.log) <= world.log
    ensures ok <==> AllSucceeded(world.log, 5)
  {
    hide Between, AllSucceeded, InOrder;
    NothingYet(world.log, 5);
    ok := true;
    for i := 0 to secrets
      invariant Between(world, runner, secrets, origin)
      invariant |world.log| == 5 + i && old(world.log) <= world.log
      invariant ok <==> AllSucceeded(world.log, 5)
    {
      ghost var before := world.log;
      assert 0.0 < 1.0 / ((secrets - i) as real) <= 1.0;
      var done := IssueNext(world, runner, Secret(i), 1.0 / ((secrets - i) as real), None, secrets, origin);
      LogGrows(before, world.log, 5, secrets);
      if !done { ok := false; }
    }
  }

  /** Revoke the three identities, then drain Jobs and Pods, each attempted whatever became of the others. */
  method Drain(world: World, runner: CleanupRunner, ghost secrets: nat, ghost origin: Origin)
    returns (succeeded: bool, quiesced: bool)
    requires Between(world, runner, secrets, origin) && |world.log| == 0
    modifies world, runner
    ensures Between(world, runner, secrets, origin) && |world.log| == 5
    ensures world.slack >= old(world.slack) && world.log[0].slack >= old(world.slack)
    ensures quiesced <==> world.log[3].ok && world.log[4].ok
    ensures succeeded <==> AllSucceeded(world.log, 0)
  {
    hide Between, AllSucceeded, InOrder;
    NothingYet(world.log, 0);
    ghost var slack := world.slack;
    succeeded := true;
    ghost var before := world.log;
    for i := 0 to 3
      invariant Between(world, runner, secrets, origin) && |world.log| == i
      invariant world.slack >= slack && (i > 0 ==> world.log[0].slack >= slack)
      invariant succeeded <==> AllSucceeded(world.log, 0)
    {
      before := world.log;
      var ok := IssueNext(world, runner, Identity(i), IDENTITY_FRACTION, Some(IDENTITY_COMMAND_MAX_SECONDS), secrets,
                          origin);
      LogGrows(before, world.log, 0, secrets);
      if !ok { succeeded := false; }
    }
    before := world.log;
    var jobDrained := IssueNext(world, runner, Jobs, JOB_FRACTION, None, secrets, origin);
    LogGrows(before, world.log, 0, secrets);
    before := world.log;
    var podDrained := IssueNext(world, runner, Pods, POD_FRACTION, None, secrets, origin);
    LogGrows(before, world.log, 0, secrets);
    quiesced := jobDrained && podDrained;
    succeeded := succeeded && quiesced;
  }

  /** The process of a command exited with zero. */
  predicate Succeeded(e: Entry) { e.exit == Some(Exited(0)) }

  /** Success as the runner counts it is an exit with zero, and nothing else when no signal came. */
  lemma SuccessIsExit(log: seq<Entry>, secrets: nat, deadline: real, slack: real, quiet: bool, j: nat)
    requires InOrder(log, secrets) && Keeps(log, deadline, slack, quiet) && j < |log|
    ensures log[j].ok ==> Succeeded(log[j])
    ensures quiet ==> (log[j].ok <==> Succeeded(log[j]))
  {
    assert IsEntry(log[j], j, secrets);
  }

  /** What the ledger of a finished cleanup says; `quiet` if no signal came. */
  ghost predicate Promised(log: seq<Entry>, secrets: nat, timeout: real, slack: real, delay: real, quiet: bool) {
    && InOrder(log, secrets) && (|log| == 5 || |log| == 5 + secrets)
    && (|log| > 5 ==> Succeeded(log[3]) && Succeeded(log[4]))
    && (quiet && secrets >= 1 ==> (|log| > 5 <==> Succeeded(log[3]) && Succeeded(log[4])))
    && (quiet && |log| > 5 ==>
          && log[5].left >= 0.95 * 0.95 * 0.95 * 0.6 * 0.45 * timeout - (log[5].slack - slack)
          && (log[5].left >= 0.0 ==>
                forall j :: 5 <= j < |log| ==>
                  log[j].budget >= log[5].left / (secrets as real) - (log[j].slack - log[5].slack)))
    && (quiet && |log| > 5 && (forall e :: e in log ==> !Broke(e)) ==>
          && log[5].left >= 0.95 * 0.95 * 0.95 * 0.6 * 0.45 * timeout - 16.0 * delay
          && (log[5].left >= 0.0 ==>
                forall j :: 5 <= j < |log| ==>
                  log[j].budget >= log[5].left / (secrets as real) - 3.0 * ((j - 5) as real) * delay))
  }

  /** What a finished cleanup knows keeps what is promised. */
  lemma LedgerKeepsPromise(log: seq<Entry>, start: real, secrets: nat, timeout: real, slack: real, delay: real,
                           now: real, quiet: bool)
    requires Accounts(log, start) && InOrder(log, secrets) && Keeps(log, start + slack + timeout, now, quiet)
    requires (quiet ==> Prompt(log, slack, delay)) && timeout > 0.0 && delay >= 0.0 && secrets >= 1
    requires |log| >= 5 && log[0].slack >= slack && |log| == if log[3].ok && log[4].ok then 5 + secrets else 5
    ensures Promised(log, secrets, timeout, slack, delay, quiet)
  {
    hide Accounts, InOrder, Keeps, Prompt, Broke, Succeeded;
    SuccessIsExit(log, secrets, start + slack + timeout, now, quiet, 3);
    SuccessIsExit(log, secrets, start + slack + timeout, now, quiet, 4);
    if quiet && |log| > 5 {
      KeepsUndisturbed(log, start, secrets, start + slack + timeout, now);
      SecretsGetTheirShare(log, start, secrets, timeout, slack);
      if forall e :: e in log ==> !Broke(e) {
        SecretsInTime(log, start, secrets, timeout, slack, delay);
      }
    }
  }

  lemma KeepsUndisturbed(log: seq<Entry>, start: real, secrets: nat, deadline: real, now: real)
    requires Accounts(log, start) && InOrder(log, secrets) && Keeps(log, deadline, now, true)
    ensures Undisturbed(log, start, deadline, secrets)
  {
    hide Accounts, InOrder, IsUndisturbed;
  }

  lemma AllExited(log: seq<Entry>, secrets: nat, deadline: real, slack: real)
    requires InOrder(log, secrets) && Keeps(log, deadline, slack, true)
    ensures AllSucceeded(log, 0) <==> forall e :: e in log ==> Succeeded(e)
  {
    hide InOrder, Keeps, Succeeded;
    forall j | 0 <= j < |log| ensures log[j].ok <==> Succeeded(log[j]) {
      SuccessIsExit(log, secrets, deadline, slack, true, j);
    }
    if AllSucceeded(log, 0) {
      forall e | e in log ensures Succeeded(e) {
        var j :| 0 <= j < |log| && log[j] == e;
        assert log[j].ok;
      }
    } else {
      var j :| 0 <= j < |log| && !log[j].ok;
      assert log[j] in log && !Succeeded(log[j]);
    }
  }

  /**
   The whole cleanup: three identity revocations, the two drains and, only if both drained, the Secrets.
   Drained and successful mean that the processes exited with zero.
   */
  method CleanupHookMaterial(world: World, timeout: real, secrets: nat) returns (succeeded: bool, runner: CleanupRunner)
    requires timeout > 0.0 && secrets >= 1 && world.Valid() && world.log == [] && world.running.None? && !world.alive
    modifies world
    ensures world.Valid() && !runner.active && !world.alive
    ensures Promised(world.log, secrets, timeout, old(world.slack), world.delay, world.signals == old(world.signals))
    ensures Keeps(world.log, old(world.now) + timeout, world.slack, world.signals == old(world.signals))
    ensures succeeded <==> |world.log| == 5 + secrets && (forall e :: e in world.log ==> Succeeded(e))
                           && world.signals == old(world.signals)
    ensures runner.deadline <= old(world.now) + timeout
    ensures runner.firstSignal.Some? ==> runner.deadline <= runner.firstSignal.value + SIGNAL_CLEANUP_SECONDS
  {
    hide InOrder, Keeps, IsRun, Share, Prompt, Accounts, AllSucceeded, Promised, Succeeded;
    runner := new CleanupRunner(world.now, timeout, world.signals);
    ghost var slack, origin := world.slack, Origin(runner.deadline, world.slack);
    NothingIssued(secrets, origin.deadline, slack, world.delay);
    var quiesced;
    succeeded, quiesced := Drain(world, runner, secrets, origin);
    ghost var drained := world.log;
    if quiesced {
      var ok := IssueSecrets(world, runner, secrets, origin);
      SucceededInParts(drained, world.log);
      succeeded := succeeded && ok;
    } else {
      NotAll(world.log, if world.log[3].ok then 4 else 3);
    }
    LedgerKeepsPromise(world.log, world.start, secrets, timeout, slack, world.delay, world.slack,
                       runner.signalCount == 0);
    if runner.signalCount == 0 { AllExited(world.log, secrets, origin.deadline, world.slack); }
    succeeded := succeeded && runner.signalCount == 0;
  }

  lemma NothingIssued(secrets: nat, deadline: real, slack: real, delay: real)
    ensures InOrder([], secrets) && Keeps([], deadline, slack, true) && Prompt([], slack, delay)
  {
  }

  lemma NotAll(log: seq<Entry>, j: nat)
    requires j < |log| && !log[j].ok
    ensures !AllSucceeded(log, 0)
  {
  }
}
