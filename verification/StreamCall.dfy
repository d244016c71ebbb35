/**
 acquire_stream as the coroutine it is (src/apex/app/distributed_limits.py:322-401): its shielded waits are
 loops, its commands are the scripts of StreamLeases on a real server object, and at every
 suspension other clients, the clock and its own commands in flight make progress. Each atomic action
 is a step of StreamClient's state machine, so the call inherits what every run of it guarantees.
 */
module StreamCalls {
  import opened Options
  import opened Redis
  import opened StreamClient
  import Leases = StreamLeases

  /**
   What becomes of the call's commands: whether the acquire reaches the server, and if so whether its reply comes
   back, and whether a release would reach the server.
   */
  datatype Transport = Transport(reaches: bool, replies: bool, releaseReaches: bool)

  datatype Outcome = Lease | NoRoom | Exception(cancelled: bool)

  /** One call in progress on a server it shares with other clients. */
  class Call {
    const c: Leases.Config
    const id: Leases.LeaseId
    const redis: Server
    const transport: Transport
    var used: set<Leases.LeaseId>
    var acquire: Command
    var release: Option<Command>
    ghost var leases: map<Leases.LeaseId, int>
    ghost var grantedAt: Option<int>
    ghost var cancelled: bool
    ghost var pc: Pc
    ghost var run: seq<State>

    ghost function View(): State
      reads this, redis
    {
      State(Leases.State(redis.sets, redis.now, used, leases), acquire, release, pc, grantedAt, cancelled)
    }

    /** Commands run only if they reach the server, have run when they settle if so, and settle as their reply tells. */
    ghost predicate Carried()
      reads this
    {
      && (acquire.ran.Some? ==> transport.reaches)
      && (acquire.settled.Some? ==>
            && (transport.reaches ==> acquire.ran.Some?)
            && acquire.settled == Some(if transport.reaches && transport.replies then Answer(acquire.ran.value)
                                       else Unavailable))
      && (release.Some? && release.value.ran.Some? ==> release.value.ran == Some(1))
      && (release.Some? && release.value.settled.Some? && transport.releaseReaches ==> release.value.ran.Some?)
    }

    /** The history of this call is a run of the state machine that ends in the current state. */
    ghost predicate Valid()
      reads this, redis
    {
      run != [] && run[|run| - 1] == View() && IsRun(c, id, run) && Carried()
    }

    constructor (c: Leases.Config, id: Leases.LeaseId, start: int, transport: Transport)
      ensures Valid() && fresh(redis) && this.c == c && this.id == id && pc == AwaitAcquire
      ensures this.transport == transport
    {
      this.c, this.id, this.transport := c, id, transport;
      redis := new Server(start);
      used, acquire, release := {}, IN_FLIGHT, None;
      leases, grantedAt, cancelled, pc := map[], None, false, AwaitAcquire;
      new;
      run := [View()];
    }

    /** The fields have just made one step. */
    ghost method Record()
      requires run != [] && IsRun(c, id, run) && Next(c, id, run[|run| - 1], View()) && Carried()
      modifies this`run
      ensures Valid() && run == old(run) + [View()]
    {
      run := run + [View()];
    }

    /** One step of another client, or of the clock. */
    method OtherTurn(other: Leases.LeaseId, passed: nat, kind: nat)
      requires Valid()
      modifies redis`now, redis`sets, this`used, this`leases, this`run
      ensures Valid() && old(run) <= run
    {
      hide IsRun, Leases.ScanForRoom, Leases.ScanForLease, AddAll, RemoveAll;
      var keys := c.keys(other);
      if kind == 0 {
        redis.now := redis.now + passed;
        Record();
      } else if other != id && keys != [] {
        ghost var s := View().server;
        if kind == 1 && other !in used {
          var answer := Leases.Acquire(redis, keys, LimitsOf(c.limit, keys), other, c.ttl);
          used := used + {other};
          if answer == 1 { leases := leases[other := redis.now + c.ttl]; }
          assert Leases.AcquireStep(c, s, View().server, other, answer == 1);
        } else if kind == 2 {
          var answer := Leases.Renew(redis, keys, other, c.ttl);
          if answer == 1 { leases := leases[other := redis.now + c.ttl]; }
          assert Leases.RenewStep(c, s, View().server, other, answer == 1);
        } else {
          Leases.Release(redis, keys, other);
          leases := leases - {other};
          assert Leases.ReleaseStep(c, s, View().server, other);
        }
        assert Leases.StepOf(c, s, View().server, other);
        Record();
      }
    }

    lemma IdIsNew()
      requires Valid() && acquire == IN_FLIGHT
      ensures id !in used && grantedAt.None?
    {
      hide IsRun;
      RunKeepsInv(c, id, run, |run| - 1);
    }

    /** The acquire script runs on the server. */
    method RunAcquire()
      requires Valid() && acquire == IN_FLIGHT && c.keys(id) != [] && transport.reaches
      modifies redis`sets, this`used, this`acquire, this`leases, this`grantedAt, this`run
      ensures Valid() && old(run) <= run && acquire.ran.Some? && acquire.settled.None?
    {
      hide IsRun, Leases.ScanForRoom, AddAll;
      IdIsNew();
      ghost var s := View().server;
      var keys := c.keys(id);
      var answer := Leases.Acquire(redis, keys, LimitsOf(c.limit, keys), id, c.ttl);
      used := used + {id};
      acquire := Command(Some(answer), None);
      if answer == 1 { leases, grantedAt := leases[id := redis.now + c.ttl], Some(redis.now); }
      assert Leases.AcquireStep(c, s, View().server, id, answer == 1);
      Record();
    }

    /** The acquire task is done: with the script's answer, or with a backend error although it may have run. */
    method SettleAcquire()
      requires Valid() && acquire.settled.None? && (transport.reaches ==> acquire.ran.Some?)
      modifies this`acquire, this`run
      ensures Valid() && old(run) <= run && acquire.settled.Some?
    {
      hide IsRun;
      var reply := if transport.reaches && transport.replies then Answer(acquire.ran.value) else Unavailable;
      acquire := acquire.(settled := Some(reply));
      Record();
    }

    /** Nothing else happens before the acquire task is done. */
    method FinishAcquire()
      requires Valid() && c.keys(id) != [] && acquire.settled.None?
      modifies redis`sets, this`used, this`acquire, this`leases, this`grantedAt, this`run
      ensures Valid() && old(run) <= run && acquire.settled.Some?
    {
      hide IsRun;
      if transport.reaches && acquire.ran.None? {
        RunAcquire();
      }
      SettleAcquire();
    }

    method RunRelease()
      requires Valid() && release == Some(IN_FLIGHT) && transport.releaseReaches
      modifies redis`sets, this`release, this`leases, this`run
      ensures Valid() && old(run) <= run && release == Some(Command(Some(1), None))
    {
      hide IsRun, RemoveAll;
      ghost var s := View().server;
      Leases.Release(redis, c.keys(id), id);
      leases, release := leases - {id}, Some(Command(Some(1), None));
      assert Leases.ReleaseStep(c, s, View().server, id);
      Record();
    }

    method SettleRelease(lost: bool)
      requires Valid() && release.Some? && release.value.settled.None?
      requires transport.releaseReaches ==> release.value.ran.Some?
      modifies this`release, this`run
      ensures Valid() && old(run) <= run && release.Some? && release.value.settled.Some?
    {
      hide IsRun;
      var command := release.value;
      var reply := if lost || command.ran.None? then Unavailable else Answer(command.ran.value);
      release := Some(command.(settled := Some(reply)));
      Record();
    }

    method FinishRelease(lost: bool)
      requires Valid() && release.Some? && release.value.settled.None?
      modifies redis`sets, this`release, this`leases, this`run
      ensures Valid() && old(run) <= run && release.Some? && release.value.settled.Some?
    {
      hide IsRun;
      if transport.releaseReaches && release.value.ran.None? {
        RunRelease();
      }
      SettleRelease(lost);
    }

    /** Whatever may happen while the coroutine is suspended. */
    method Suspend()
      requires Valid() && c.keys(id) != []
      modifies redis`now, redis`sets, this`used, this`acquire, this`release, this`leases, this`grantedAt, this`run
      ensures Valid() && old(run) <= run
      ensures release.Some? <==> old(release).Some?
      ensures old(acquire).settled.Some? ==> acquire == old(acquire)
      ensures old(release).Some? && old(release).value.settled.Some? ==> release == old(release)
    {
      var turns: nat := *;
      while turns > 0
        invariant Valid() && old(run) <= run
        invariant release.Some? <==> old(release).Some?
        invariant old(acquire).settled.Some? ==> acquire == old(acquire)
        invariant old(release).Some? && old(release).value.settled.Some? ==> release == old(release)
      {
        turns := turns - 1;
        var what: nat, lost: bool := *, *;
        if what == 0 && acquire == IN_FLIGHT && transport.reaches {
          RunAcquire();
        } else if what == 1 && acquire.settled.None? && (acquire.ran.Some? || !transport.reaches) {
          SettleAcquire();
        } else if what == 2 && release == Some(IN_FLIGHT) && transport.releaseReaches {
          RunRelease();
        } else if what == 3 && release.Some? && release.value.settled.None?
                  && (release.value.ran.Some? || !transport.releaseReaches) {
          SettleRelease(lost);
        } else {
          var other: Leases.LeaseId, passed: nat, kind: nat := *, *, *;
          OtherTurn(other, passed, kind);
        }
      }
    }

    /** A cancellation is raised at the await the coroutine is suspended in. */
    ghost method Cancel()
      requires Valid() && (pc.AwaitAcquire? || pc.Drain? || pc.Compensate?)
      modifies this`pc, this`cancelled, this`run
      ensures Valid() && old(run) <= run
      ensures pc == (if old(pc).Compensate? then old(pc).(interrupted := true) else Drain) && cancelled
    {
      hide IsRun;
      pc, cancelled := if pc.Compensate? then pc.(interrupted := true) else Drain, true;
      Record();
    }

    /** Wait for the acquire task to settle, cancelled `left` more times meanwhile. */
    method DrainAcquire(cancels: nat)
      requires Valid() && c.keys(id) != [] && pc.Drain? && release.None?
      modifies redis`now, redis`sets, this
      ensures Valid() && old(run) <= run && pc.Drain? && acquire.settled.Some? && release.None?
    {
      var left := cancels;
      while acquire.settled.None?
        invariant Valid() && old(run) <= run && pc.Drain? && release.None?
        decreases left, acquire.settled.None?
      {
        Suspend();
        if left > 0 {
          Cancel();
          left := left - 1;
        } else if acquire.settled.None? {
          FinishAcquire();
        }
      }
    }

    /** Send the exact-id release. */
    method SendRelease()
      requires Valid() && acquire.settled.Some? && release.None?
      requires pc.Drain? || (pc.AwaitAcquire? && acquire.settled.value.Unavailable?)
      modifies this`release, this`pc, this`run
      ensures Valid() && old(run) <= run && release == Some(IN_FLIGHT)
      ensures pc == StreamClient.Compensate(old(pc).Drain?, false)
    {
      hide IsRun;
      release := Some(IN_FLIGHT);
      pc := StreamClient.Compensate(pc.Drain?, false);
      Record();
    }

    /** Raise once the release has settled. */
    method Raise()
      requires Valid() && release.Some? && release.value.settled.Some? && pc.Compensate?
      modifies this`pc, this`run
      ensures Valid() && old(run) <= run && pc == Raised(old(pc).cancelled || old(pc).interrupted)
    {
      hide IsRun;
      pc := Raised(pc.cancelled || pc.interrupted);
      Record();
    }

    /** Send the release and wait for it to settle; a failed release is left to the expiry. */
    method Compensate(cancels: nat) returns (interrupted: bool)
      requires Valid() && c.keys(id) != [] && acquire.settled.Some? && release.None?
      requires pc.Drain? || (pc.AwaitAcquire? && acquire.settled.value.Unavailable?)
      modifies redis`now, redis`sets, this
      ensures Valid() && old(run) <= run && release.Some? && release.value.settled.Some?
      ensures pc == Raised(old(pc).Drain? || interrupted) && (interrupted ==> cancels > 0)
      ensures acquire == old(acquire) && (cancelled <==> old(cancelled) || interrupted)
    {
      hide IsRun, Valid;
      ghost var draining := pc.Drain?;
      SendRelease();
      interrupted := false;
      var left := cancels;
      while release.value.settled.None?
        invariant Valid() && old(run) <= run && release.Some?
        invariant pc == StreamClient.Compensate(draining, interrupted)
        invariant acquire == old(acquire) && (cancelled <==> old(cancelled) || interrupted)
        invariant 0 <= left <= cancels && (interrupted ==> cancels > 0)
        decreases left, release.Some? && release.value.settled.None?
      {
        Suspend();
        if left > 0 {
          Cancel();
          left, interrupted := left - 1, true;
        } else if release.value.settled.None? {
          var lost: bool := *;
          FinishRelease(lost);
        }
      }
      Raise();
    }

    /**
     The whole call, cancelled at its first await if `interrupt`, and `cancels` and `more` times later. It returns
     the lease exactly if it is not cancelled there and the script answers one: then the lease is stored
     under all keys and no release was sent. It denies only with nothing stored. Otherwise it raises, with the
     release settled, and the lease counts nowhere if the release could reach the server. It raises a
     cancellation exactly when one was delivered.
     */
    method AcquireStream(interrupt: bool, cancels: nat, more: nat) returns (outcome: Outcome)
      requires Valid() && c.keys(id) != [] && pc.AwaitAcquire? && release.None?
      modifies redis`now, redis`sets, this
      ensures Valid() && old(run) <= run
      ensures var answered := !interrupt && transport.reaches && transport.replies;
              && (outcome.Lease? <==> answered && acquire.ran == Some(1))
              && (outcome.NoRoom? <==> answered && acquire.ran != Some(1))
      ensures outcome.Lease? ==>
                && pc.Returned? && release.None? && !cancelled && grantedAt.Some?
                && (redis.now < grantedAt.value + c.ttl ==> CountsEverywhere())
      ensures outcome.NoRoom? ==> pc.Denied? && release.None? && !cancelled && CountsNowhere(View(), id)
      ensures outcome.Exception? ==>
                && pc.Raised? && release.Some? && release.value.settled.Some? && acquire.settled.Some?
                && (outcome.cancelled <==> cancelled)
                && (interrupt ==> cancelled) && (cancelled ==> interrupt || cancels > 0)
                && (transport.releaseReaches || grantedAt.None? || redis.now >= grantedAt.value + c.ttl ==>
                      CountsNowhere(View(), id))
    {
      hide IsRun, CountsNowhere, CountsEverywhere, Valid;
      Guarantees();
      Suspend();
      if interrupt {
        Cancel();
        DrainAcquire(cancels);
        var _ := Compensate(more);
        outcome := Exception(true);
      } else {
        if acquire.settled.None? {
          FinishAcquire();
        }
        Settled();
        if acquire.settled.value.Answer? {
          outcome := Return();
        } else {
          var interrupted := Compensate(cancels);
          outcome := Exception(interrupted);
        }
      }
      Settled();
      Guarantees();
    }

    /** The script has answered, and nobody cancelled the call. */
    method Return() returns (outcome: Outcome)
      requires Valid() && pc.AwaitAcquire? && release.None? && acquire.settled.Some? && acquire.settled.value.Answer?
      modifies this`pc, this`run
      ensures Valid() && old(run) <= run
      ensures outcome == if acquire.settled.value.n == 1 then Lease else NoRoom
      ensures pc == if outcome.Lease? then Returned else Denied
      ensures grantedAt.Some? && redis.now < grantedAt.value + c.ttl ==> CountsEverywhere()
    {
      hide IsRun, CountsEverywhere;
      Granted();
      outcome := if acquire.settled.value.n == 1 then Lease else NoRoom;
      pc := if outcome.Lease? then Returned else Denied;
      Record();
    }

    /** How the acquire has settled follows from what became of it. */
    lemma Settled()
      requires Valid()
      ensures acquire.settled.Some? ==>
                && (transport.reaches ==> acquire.ran.Some?)
                && acquire.settled == Some(if transport.reaches && transport.replies then Answer(acquire.ran.value)
                                           else Unavailable)
      ensures release.Some? && release.value.settled.Some? && transport.releaseReaches ==> release.value.ran.Some?
    {
      hide IsRun;
    }

    /** What every run of the machine guarantees, of this call. */
    lemma Guarantees()
      requires Valid()
      ensures grantedAt.Some? <==> acquire.ran == Some(1)
      ensures pc.Returned? || pc.Denied? ==> !cancelled
      ensures pc.Denied? ==> CountsNowhere(View(), id)
      ensures pc.Raised? ==> (pc.cancelled <==> cancelled)
      ensures pc.Raised? && release.Some? && release.value.ran.Some? ==> CountsNowhere(View(), id)
      ensures pc.Raised? && grantedAt.None? ==> CountsNowhere(View(), id)
      ensures pc.Raised? && grantedAt.Some? && redis.now >= grantedAt.value + c.ttl ==> CountsNowhere(View(), id)
      ensures pc.AwaitAcquire? ==> !cancelled
    {
      hide IsRun, CountsNowhere;
      RunKeepsInv(c, id, run, |run| - 1);
      AcquireStreamNeverLeaks(c, id, run, |run| - 1);
    }

    /** The lease counts under all its keys. */
    ghost predicate CountsEverywhere()
      reads redis
    {
      forall k :: k in c.keys(id) ==> id in Leases.Holders(redis.sets, redis.now, k)
    }

    lemma Granted()
      requires Valid() && pc.AwaitAcquire? && release.None?
      ensures grantedAt.Some? <==> acquire.ran == Some(1)
      ensures grantedAt.Some? && redis.now < grantedAt.value + c.ttl ==> CountsEverywhere()
    {
      hide IsRun;
      AcquireStreamNeverLeaks(c, id, run, |run| - 1);
      if grantedAt.Some? && redis.now < grantedAt.value + c.ttl {
        forall k | k in c.keys(id) ensures id in Leases.Holders(redis.sets, redis.now, k) {
          GrantedCounts(c, id, run, |run| - 1, k);
        }
      }
    }
  }
}
