/**
 The client side of a stream acquire (src/apex/app/distributed_limits.py:322-401): one coroutine that
 owns its Redis commands through repeated cancellation and lost replies, running beside any number
 of other clients of the same server.
 */
module StreamClient {
  import opened Options
  import opened Redis
  import Leases = StreamLeases

  datatype Reply = Answer(n: int) | Unavailable

  /** A command in flight: the answer of the script once it ran, the outcome once the task is done. */
  datatype Command = Command(ran: Option<int>, settled: Option<Reply>)

  const IN_FLIGHT := Command(None, None)

  datatype Pc =
    | AwaitAcquire                                      // first shielded await
    | Drain                                             // cancelled: wait until the acquire task is done
    | Compensate(cancelled: bool, interrupted: bool)    // wait until the exact-id release is done
    | Returned
    | Denied
    | Raised(cancelled: bool)

  /**
   `grantedAt` is the server time at which the acquire script stored the lease, `cancelled` whether a
   cancellation has been delivered to the call.
   */
  datatype State = State(server: Leases.State, acquire: Command, release: Option<Command>, pc: Pc,
                         grantedAt: Option<int>, cancelled: bool)

  ghost predicate Init(s: State, id: Leases.LeaseId) {
    && Leases.Init(s.server) && s.acquire == IN_FLIGHT && s.release == None && s.pc == AwaitAcquire
    && s.grantedAt == None && !s.cancelled && id !in s.server.used
  }

  /** The clock advances, or another client's script runs. */
  ghost predicate Others(c: Leases.Config, id: Leases.LeaseId, s: State, s': State) {
    && s' == s.(server := s'.server)
    && (Leases.Tick(s.server, s'.server) ||
        exists other :: other != id && Leases.StepOf(c, s.server, s'.server, other))
  }

  ghost predicate AcquireRuns(c: Leases.Config, id: Leases.LeaseId, s: State, s': State, granted: bool) {
    && s.acquire == IN_FLIGHT
    && Leases.AcquireStep(c, s.server, s'.server, id, granted)
    && s' == s.(server := s'.server, acquire := Command(Some(if granted then 1 else 0), None),
                grantedAt := if granted then Some(s.server.now) else None)
  }

  /** A task settles with the script's own answer, or with a backend error whether or not it ran. */
  ghost predicate Settles(before: Command, after: Command) {
    && before.settled == None && after == before.(settled := after.settled)
    && (after.settled == Some(Unavailable) || (before.ran.Some? && after.settled == Some(Answer(before.ran.value))))
  }

  ghost predicate AcquireSettles(s: State, s': State) {
    Settles(s.acquire, s'.acquire) && s' == s.(acquire := s'.acquire)
  }

  ghost predicate ReleaseRuns(c: Leases.Config, id: Leases.LeaseId, s: State, s': State) {
    && s.release == Some(IN_FLIGHT)
    && Leases.ReleaseStep(c, s.server, s'.server, id)
    && s' == s.(server := s'.server, release := Some(Command(Some(1), None)))
  }

  ghost predicate ReleaseSettles(s: State, s': State) {
    && s.release.Some? && s'.release.Some? && Settles(s.release.value, s'.release.value)
    && s' == s.(release := s'.release)
  }

  /** Cancellation is delivered to whatever the coroutine awaits. */
  ghost predicate Cancelled(s: State, s': State) {
    && (s.pc.AwaitAcquire? || s.pc.Drain? || s.pc.Compensate?)
    && s' == s.(pc := if s.pc.Compensate? then s.pc.(interrupted := true) else Drain, cancelled := true)
  }

  /** The awaited task is done and the coroutine goes on. */
  ghost predicate Resumes(s: State, s': State) {
    match s.pc
    case AwaitAcquire =>
      && s.acquire.settled.Some?
      && s' == (match s.acquire.settled.value
                case Answer(n) => s.(pc := if n == 1 then Returned else Denied)
                case Unavailable => s.(pc := Compensate(false, false), release := Some(IN_FLIGHT)))
    case Drain =>
      s.acquire.settled.Some? && s' == s.(pc := Compensate(true, false), release := Some(IN_FLIGHT))
    case Compensate(cancelled, interrupted) =>
      && s.release.Some? && s.release.value.settled.Some?
      && s' == s.(pc := Raised(cancelled || interrupted))
    case _ => false
  }

  /** After a lease was returned its owner may renew and release it. */
  ghost predicate OwnerActs(c: Leases.Config, id: Leases.LeaseId, s: State, s': State) {
    && s.pc.Returned? && s' == s.(server := s'.server)
    && (Leases.RenewStep(c, s.server, s'.server, id, true) || Leases.RenewStep(c, s.server, s'.server, id, false)
        || Leases.ReleaseStep(c, s.server, s'.server, id))
  }

  ghost predicate Next(c: Leases.Config, id: Leases.LeaseId, s: State, s': State) {
    || Others(c, id, s, s')
    || AcquireRuns(c, id, s, s', true) || AcquireRuns(c, id, s, s', false) || AcquireSettles(s, s')
    || ReleaseRuns(c, id, s, s') || ReleaseSettles(s, s')
    || Cancelled(s, s') || Resumes(s, s')
    || OwnerActs(c, id, s, s')
  }

  ghost predicate IsRun(c: Leases.Config, id: Leases.LeaseId, run: seq<State>) {
    && |run| > 0 && Init(run[0], id)
    && forall i :: 0 < i < |run| ==> Next(c, id, run[i - 1], run[i])
  }

  /** The flags of the coroutine say whether it was cancelled. */
  predicate CancellationAgrees(s: State) {
    match s.pc
    case Drain => s.cancelled
    case Compensate(cancelled, interrupted) => s.cancelled == (cancelled || interrupted)
    case Raised(cancelled) => s.cancelled == cancelled
    case _ => !s.cancelled
  }

  ghost predicate Inv(c: Leases.Config, id: Leases.LeaseId, s: State) {
    && Leases.Inv(c, s.server)
    // The script runs only while its task is unsettled, and only the script makes the id known.
    && (s.acquire.ran.None? ==> id !in s.server.used)
    && (s.acquire.ran == Some(1) <==> s.grantedAt.Some?)
    && (s.acquire.settled.Some? && s.acquire.settled.value.Answer? ==> s.acquire.ran == Some(s.acquire.settled.value.n))
    && CancellationAgrees(s)
    // A stored lease carries the expiry of its grant until it is returned.
    && (id in s.server.leases ==> s.grantedAt.Some?)
    && (id in s.server.leases && !s.pc.Returned? ==> s.server.leases[id] == s.grantedAt.value + c.ttl)
    && (s.grantedAt.Some? && s.release.None? && !s.pc.Returned? ==> id in s.server.leases)
    // The release exists only after the acquire settled, and removes the lease for good.
    && (s.release.Some? <==> s.pc.Compensate? || s.pc.Raised?)
    && (s.release.Some? ==> s.acquire.settled.Some?)
    && (s.release.Some? && s.release.value.ran.Some? ==> id !in s.server.leases)
    && (s.pc.Raised? ==> s.release.value.settled.Some?)
    && (s.pc.Returned? ==> s.acquire.settled == Some(Answer(1)))
    && (s.pc.Denied? ==> s.acquire.settled.Some? && s.acquire.settled.value.Answer? && s.acquire.settled.value.n != 1)
  }

  /** Steps of other clients neither use nor touch this lease. */
  lemma OtherStepsKeepLease(c: Leases.Config, id: Leases.LeaseId, s: Leases.State, s': Leases.State,
                            other: Leases.LeaseId)
    requires other != id && Leases.StepOf(c, s, s', other)
    ensures (id in s'.used <==> id in s.used) && (id in s'.leases <==> id in s.leases)
    ensures id in s.leases ==> s'.leases[id] == s.leases[id]
  {
  }

  lemma OthersKeepInv(c: Leases.Config, id: Leases.LeaseId, s: State, s': State)
    requires Inv(c, id, s) && Others(c, id, s, s')
    ensures Inv(c, id, s')
  {
    hide Leases.StepOf, Leases.Inv;
    Leases.StepKeepsInv(c, s.server, s'.server);
    if !Leases.Tick(s.server, s'.server) {
      var other :| other != id && Leases.StepOf(c, s.server, s'.server, other);
      OtherStepsKeepLease(c, id, s.server, s'.server, other);
    }
  }

  lemma StepKeepsInv(c: Leases.Config, id: Leases.LeaseId, s: State, s': State)
    requires Inv(c, id, s) && Next(c, id, s, s')
    ensures Inv(c, id, s')
  {
    hide Leases.ScanForRoom, Leases.ScanForLease, Leases.Stored, RemoveAll, Leases.Inv, Others;
    if Others(c, id, s, s') {
      OthersKeepInv(c, id, s, s');
    } else if s'.server != s.server {
      assert Leases.StepOf(c, s.server, s'.server, id);
      Leases.StepKeepsInv(c, s.server, s'.server);
      NewIdHasNoLease(c, s.server, id);
    }
  }

  lemma NewIdHasNoLease(c: Leases.Config, s: Leases.State, id: Leases.LeaseId)
    requires Leases.Inv(c, s)
    ensures id !in s.used ==> id !in s.leases
  {
  }

  lemma {:induction false} RunKeepsInv(c: Leases.Config, id: Leases.LeaseId, run: seq<State>, i: nat)
    requires IsRun(c, id, run) && i < |run|
    ensures Inv(c, id, run[i])
    decreases i
  {
    hide Next;
    if i > 0 {
      RunKeepsInv(c, id, run, i - 1);
      StepKeepsInv(c, id, run[i - 1], run[i]);
    }
  }

  /** Until the call returns or compensates, a granted lease counts under all its keys for its time to live. */
  lemma GrantedCounts(c: Leases.Config, id: Leases.LeaseId, run: seq<State>, i: nat, k: Key)
    requires IsRun(c, id, run) && i < |run| && k in c.keys(id)
    requires run[i].grantedAt.Some? && run[i].release.None? && !run[i].pc.Returned?
    requires run[i].server.now < run[i].grantedAt.value + c.ttl
    ensures id in Leases.Holders(run[i].server.sets, run[i].server.now, k)
  {
    hide Next;
    RunKeepsInv(c, id, run, i);
    assert Leases.KeyAgrees(c, run[i].server, k);
  }

  ghost predicate CountsNowhere(s: State, id: Leases.LeaseId) {
    forall k :: id !in Leases.Holders(s.server.sets, s.server.now, k)
  }

  lemma AbsentCountsNowhere(c: Leases.Config, s: State, id: Leases.LeaseId)
    requires Leases.Inv(c, s.server)
    requires id !in s.server.leases || s.server.leases[id] <= s.server.now
    ensures CountsNowhere(s, id)
  {
    forall k ensures id !in Leases.Holders(s.server.sets, s.server.now, k) {
      assert Leases.KeyAgrees(c, s.server, k);
    }
  }

  /**
   Whatever the timing of cancellations, lost replies and other clients: a call that returns its
   lease was granted it and never sent a release; a call that denies stored nothing; a call that
   raises had settled its acquire before it began the release, and settled the release too. From
   then on the lease counts nowhere if the release ran, and otherwise no longer than `ttl` after
   its grant. The caller sees its cancellation exactly when one was delivered.
   */
  lemma AcquireStreamNeverLeaks(c: Leases.Config, id: Leases.LeaseId, run: seq<State>, i: nat)
    requires IsRun(c, id, run) && i < |run|
    ensures var s := run[i];
            && (s.pc.Returned? ==> s.acquire.ran == Some(1) && s.release == None)
            && (s.pc.Denied? ==> s.release == None && CountsNowhere(s, id))
            && (s.release.Some? ==> s.acquire.settled.Some?)
            && (s.pc.Raised? ==> s.release.Some? && s.release.value.settled.Some?)
            && (s.release.Some? && s.release.value.ran.Some? ==> CountsNowhere(s, id))
            && (s.pc.Raised? && s.grantedAt.None? ==> CountsNowhere(s, id))
            && (s.pc.Raised? && s.grantedAt.Some? && s.server.now >= s.grantedAt.value + c.ttl ==>
                  CountsNowhere(s, id))
            && (s.grantedAt.Some? <==> s.acquire.ran == Some(1))
            && (s.pc.Returned? || s.pc.Denied? ==> !s.cancelled)
            && (s.pc.Raised? ==> (s.pc.cancelled <==> s.cancelled))
  {
    hide Leases.Inv, CountsNowhere, Next;
    RunKeepsInv(c, id, run, i);
    var s := run[i];
    NewIdHasNoLease(c, s.server, id);
    if id !in s.server.leases || s.server.leases[id] <= s.server.now {
      AbsentCountsNowhere(c, s, id);
    }
  }
}
