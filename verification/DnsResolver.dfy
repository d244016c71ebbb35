/**
 Cancellation-safe DNS resolution (src/apex/adapters/network_safety.py:197-293): a permit shared by all
 resolutions of a process and a killable child process, neither of which may leak however often and
 whenever the caller is cancelled. Also the checks on the answer and the bounded connect loop
 (network_safety.py:386-424, 487-491, 548-606).
 */
module DnsResolver {
  import opened Options

  const WORKER_LIMIT := 8

  /** A permit taken, refused or given back, and whose it is. */
  datatype Move = Taken(who: nat) | Refused(who: nat) | Given(who: nat)

  /** How often a move has been made. */
  ghost function Count(log: seq<Move>, m: Move): nat {
    if log == [] then 0
    else Count(log[..|log| - 1], m) + (if log[|log| - 1] == m then 1 else 0)
  }

  lemma CountAppend(log: seq<Move>, m: Move, other: Move)
    ensures Count(log + [m], other) == Count(log, other) + (if m == other then 1 else 0)
  {
    assert (log + [m])[..|log + [m]| - 1] == log;
  }

  /** How often `who` has taken, been refused and given back a permit in between. */
  ghost predicate Moved(before: seq<Move>, after: seq<Move>, who: nat, taken: int, refused: int, given: int) {
    && Count(after, Taken(who)) == Count(before, Taken(who)) + taken
    && Count(after, Refused(who)) == Count(before, Refused(who)) + refused
    && Count(after, Given(who)) == Count(before, Given(who)) + given
  }

  /** How often it has been refused one. */
  ghost function Refusals(before: seq<Move>, after: seq<Move>, who: nat): int {
    Count(after, Refused(who)) - Count(before, Refused(who))
  }

  ghost predicate Idle(before: seq<Move>, after: seq<Move>, who: nat) { Moved(before, after, who, 0, 0, 0) }

  lemma RefusalsAre(before: seq<Move>, after: seq<Move>, who: nat, taken: int, refused: int, given: int)
    requires Moved(before, after, who, taken, refused, given)
    ensures Refusals(before, after, who) == refused
  {
  }

  lemma MovedOnce(before: seq<Move>, log: seq<Move>, who: nat, m: Move, taken: int, refused: int, given: int)
    requires Moved(before, log, who, taken, refused, given)
    ensures Moved(before, log + [m], who, taken + (if m == Taken(who) then 1 else 0),
                  refused + (if m == Refused(who) then 1 else 0), given + (if m == Given(who) then 1 else 0))
  {
    hide Count;
    CountAppend(log, m, Taken(who));
    CountAppend(log, m, Refused(who));
    CountAppend(log, m, Given(who));
  }

  /** The bounded semaphore, together with who holds a permit and everything that happened to it. */
  class Admission {
    var free: int
    var holders: set<nat>
    ghost var log: seq<Move>

    ghost predicate Valid()
      reads this
    {
      free >= 0 && free + |holders| == WORKER_LIMIT
    }

    constructor ()
      ensures Valid() && holders == {} && log == []
    {
      free, holders, log := WORKER_LIMIT, {}, [];
    }

    method TryAcquire(me: nat) returns (ok: bool)
      requires Valid() && me !in holders
      modifies this
      ensures Valid() && (ok <==> old(free) > 0)
      ensures holders == if ok then old(holders) + {me} else old(holders)
      ensures log == old(log) + [if ok then Taken(me) else Refused(me)]
    {
      ok := free > 0;
      log := log + [if ok then Taken(me) else Refused(me)];
      if ok {
        free := free - 1;
        holders := holders + {me};
      }
    }

    method Release(me: nat)
      requires Valid() && me in holders
      modifies this
      ensures Valid() && holders == old(holders) - {me} && free == old(free) + 1 && log == old(log) + [Given(me)]
    {
      free := free + 1;
      holders := holders - {me};
      log := log + [Given(me)];
    }

    /** While `me` is suspended, other resolutions take and return permits in any order. */
    method Others(me: nat)
      requires Valid()
      modifies this
      ensures Valid() && (me in holders <==> me in old(holders)) && Idle(old(log), log, me)
    {
      hide Count;
      var turns: nat := *;
      while turns > 0
        invariant Valid() && (me in holders <==> me in old(holders)) && Idle(old(log), log, me)
      {
        turns := turns - 1;
        ghost var before := log;
        var other: nat := *;
        if other != me && other in holders {
          Release(other);
          MovedOnce(old(log), before, me, Given(other), 0, 0, 0);
        } else if other != me {
          var ok := TryAcquire(other);
          MovedOnce(old(log), before, me, if ok then Taken(other) else Refused(other), 0, 0, 0);
        }
      }
    }
  }

  /** The child as the event loop sees it: reaped means its exit status has been collected. */
  datatype Child = NoChild | Running | Reaped

  class Kernel {
    var child: Child
    var spawned: nat

    constructor ()
      ensures child == NoChild && spawned == 0
    {
      child, spawned := NoChild, 0;
    }

    /** A running child may exit by itself and is then reaped by the event loop. */
    method MayExit(exits: bool)
      modifies this`child
      ensures child == if exits && old(child) == Running then Reaped else old(child)
    {
      if exits && child == Running {
        child := Reaped;
      }
    }
  }

  datatype Wake = Completed | Cancelled | Errored

  /**
   Kill the child and wait until it is reaped, however often the caller is cancelled meanwhile.
   Cancellation is passed on only afterwards.
   */
  method TerminateProcess(admission: Admission, kernel: Kernel, me: nat, interrupts: nat) returns (wake: Wake)
    requires admission.Valid() && kernel.child != NoChild
    modifies admission, kernel`child
    ensures admission.Valid() && (me in admission.holders <==> me in old(admission.holders))
    ensures Idle(old(admission.log), admission.log, me)
    ensures kernel.child == Reaped
    ensures wake == if interrupts > 0 then Cancelled else Completed
  {
    var left, cancelled, done := interrupts, false, false;
    while !done
      invariant admission.Valid() && (me in admission.holders <==> me in old(admission.holders))
      invariant Idle(old(admission.log), admission.log, me)
      invariant 0 <= left <= interrupts && (cancelled <==> left < interrupts)
      invariant done ==> left == 0 && kernel.child == Reaped
      decreases left, !done
    {
      admission.Others(me);
      if left > 0 {
        left, cancelled := left - 1, true;
      } else {
        kernel.child := Reaped;
        done := true;
      }
    }
    wake := if cancelled then Cancelled else Completed;
  }

  /**
   Start the child; the spawn task is owned until it settles, so a started child is never lost. It `starts` or
   it does not, the caller is cancelled `interrupts` times meanwhile, and the child may have exited by then.
   */
  method SpawnProcess(admission: Admission, kernel: Kernel, me: nat, starts: bool, interrupts: nat, exits: bool)
    returns (wake: Wake)
    requires admission.Valid() && kernel.child == NoChild
    modifies admission, kernel
    ensures admission.Valid() && (me in admission.holders <==> me in old(admission.holders))
    ensures Idle(old(admission.log), admission.log, me)
    ensures kernel.spawned == old(kernel.spawned) + (if starts then 1 else 0)
    ensures kernel.child == if !starts then NoChild else if interrupts > 0 || exits then Reaped else Running
    ensures wake == if interrupts > 0 then Cancelled else if starts then Completed else Errored
  {
    var left, interrupted, done := interrupts, false, false;
    while !done
      invariant admission.Valid() && (me in admission.holders <==> me in old(admission.holders))
      invariant Idle(old(admission.log), admission.log, me)
      invariant 0 <= left <= interrupts && (interrupted <==> left < interrupts)
      invariant done ==> left == 0
      invariant if done && starts then kernel.child == Running && kernel.spawned == old(kernel.spawned) + 1
                else kernel.child == NoChild && kernel.spawned == old(kernel.spawned)
      decreases left, !done
    {
      admission.Others(me);
      if left > 0 {
        left, interrupted := left - 1, true;
      } else {
        if starts { kernel.child, kernel.spawned := Running, kernel.spawned + 1; }
        done := true;
      }
    }
    kernel.MayExit(exits);
    if interrupted {
      if kernel.child == Running {
        var more: nat := *;
        var _ := TerminateProcess(admission, kernel, me, more);
      }
      return Cancelled;
    }
    wake := if starts then Completed else Errored;
  }

  /**
   Poll the semaphore until a permit is free, or the caller is cancelled, its timeout included, after it has been
   refused more than `polls` times.
   */
  method AcquireAdmission(admission: Admission, me: nat, polls: nat) returns (wake: Wake)
    requires admission.Valid() && me !in admission.holders
    modifies admission
    ensures admission.Valid() && (me in admission.holders <==> wake == Completed)
    ensures var refused := Refusals(old(admission.log), admission.log, me);
            && Moved(old(admission.log), admission.log, me, if wake == Completed then 1 else 0, refused, 0)
            && wake == (if refused <= polls then Completed else Cancelled) && 0 <= refused <= polls + 1
  {
    hide Count, Moved, Refusals;
    var left := polls;
    var ok := admission.TryAcquire(me);
    ghost var refused := if ok then 0 else 1;
    OneTry(old(admission.log), old(admission.log), me, ok, 0);
    while !ok && left > 0
      invariant admission.Valid() && (me in admission.holders <==> ok) && 0 <= left <= polls
      invariant refused == polls - left + if ok then 0 else 1
      invariant Moved(old(admission.log), admission.log, me, if ok then 1 else 0, refused, 0)
    {
      ghost var before := admission.log;
      admission.Others(me);
      MovedThenIdle(old(admission.log), before, admission.log, me, 0, refused, 0);
      before := admission.log;
      left := left - 1;
      ok := admission.TryAcquire(me);
      OneTry(old(admission.log), before, me, ok, refused);
      refused := refused + if ok then 0 else 1;
    }
    wake := if ok then Completed else Cancelled;
    RefusalsAre(old(admission.log), admission.log, me, if ok then 1 else 0, refused, 0);
  }

  lemma OneTry(start: seq<Move>, before: seq<Move>, me: nat, ok: bool, refused: nat)
    requires Moved(start, before, me, 0, refused, 0)
    ensures Moved(start, before + [if ok then Taken(me) else Refused(me)], me, if ok then 1 else 0,
                  refused + (if ok then 0 else 1), 0)
  {
    MovedOnce(start, before, me, if ok then Taken(me) else Refused(me), 0, refused, 0);
  }

  lemma MovedThenIdle(start: seq<Move>, before: seq<Move>, after: seq<Move>, me: nat, taken: int, refused: int,
                      given: int)
    requires Moved(start, before, me, taken, refused, given) && Idle(before, after, me)
    ensures Moved(start, after, me, taken, refused, given)
  {
  }

  /** A permit covers the whole life of a child: it is given back only once the child, if any, is reaped. */
  method GiveBack(admission: Admission, kernel: Kernel, me: nat, ghost start: seq<Move>, ghost refused: nat)
    requires admission.Valid() && me in admission.holders && kernel.child != Running
    requires Moved(start, admission.log, me, 1, refused, 0)
    modifies admission
    ensures admission.Valid() && me !in admission.holders && Moved(start, admission.log, me, 1, refused, 1)
  {
    hide Count, Moved;
    MovedOnce(start, admission.log, me, Given(me), 1, refused, 0);
    admission.Release(me);
  }

  datatype Resolution = Resolved | Failed | TimedOut | WasCancelled

  /**
   What the outside does to one resolution, as far as it gets: cancel the poll after `polls` refusals, let the
   child start and exit, cancel the spawn, end the reading of its output, and cancel the cleanup. A cancellation
   inside the timeout block may be the timeout's own. `zeroExit` is a child that leaves with zero and an output
   that can be parsed.
   */
  datatype Fate = Fate(polls: nat, byTimeout: bool, starts: bool, spawnInterrupts: nat, exitsEarly: bool, read: Wake,
                       zeroExit: bool, exitsLate: bool, cleanupInterrupts: nat)
  {
    /** The child is handed to the resolution. */
    predicate Handed() { starts && spawnInterrupts == 0 }

    /** The child has to be killed at the end, and a cancellation arrives meanwhile. */
    predicate CancelledInCleanup() {
      Handed() && read != Completed && !exitsEarly && !exitsLate && cleanupInterrupts > 0
    }

    /** The timeout block is left by a cancellation, when a permit was had. */
    predicate CancelledInside() { spawnInterrupts > 0 || (starts && read == Cancelled) }
  }

  /**
   One resolution, from the poll for a permit to the end of its finally blocks. Without a permit there is no
   child; with one, the child outlives neither the call nor the permit, and every ending has its cause.
   */
  method ResolveHostname(admission: Admission, kernel: Kernel, me: nat, fate: Fate)
    returns (result: Resolution)
    requires admission.Valid() && me !in admission.holders && kernel.child == NoChild
    modifies admission, kernel
    ensures admission.Valid() && me !in admission.holders && kernel.child != Running
    ensures var refused := Refusals(old(admission.log), admission.log, me);
            var admitted := refused <= fate.polls;
            && 0 <= refused <= fate.polls + 1
            && var once := if admitted then 1 else 0;
            && Moved(old(admission.log), admission.log, me, once, refused, once)
            && kernel.spawned == old(kernel.spawned) + (if admitted && fate.starts then 1 else 0)
            && kernel.child == (if admitted && fate.starts then Reaped else NoChild)
            && (result == Resolved <==> admitted && fate.Handed() && fate.read == Completed && fate.zeroExit)
            && (result == Failed <==>
                  && admitted && fate.spawnInterrupts == 0 && !fate.CancelledInCleanup()
                  && (!fate.starts || fate.read == Errored || (fate.read == Completed && !fate.zeroExit)))
            && (result == TimedOut <==>
                  && (!admitted || (fate.CancelledInside() && !fate.CancelledInCleanup())) && fate.byTimeout)
  {
    hide Count, Moved, Refusals;
    var hasPermit, hasProcess := false, false;
    ghost var log := admission.log;
    var inside := AcquireAdmission(admission, me, fate.polls);
    ghost var refused := Refusals(log, admission.log, me);
    if inside == Completed {
      hasPermit := true;
      log := admission.log;
      inside := SpawnProcess(admission, kernel, me, fate.starts, fate.spawnInterrupts, fate.exitsEarly);
      MovedThenIdle(old(admission.log), log, admission.log, me, 1, refused, 0);
      if inside == Completed {
        hasProcess := true;
        log := admission.log;
        admission.Others(me);
        MovedThenIdle(old(admission.log), log, admission.log, me, 1, refused, 0);
        inside := fate.read;
        if inside == Completed {
          kernel.child := Reaped;
          if !fate.zeroExit { inside := Errored; }
        } else {
          kernel.MayExit(fate.exitsLate);
        }
      }
    }
    var cleanup := Completed;
    log := admission.log;
    if hasProcess && kernel.child == Running {
      cleanup := TerminateProcess(admission, kernel, me, fate.cleanupInterrupts);
      MovedThenIdle(old(admission.log), log, admission.log, me, 1, refused, 0);
    }
    if hasPermit {
      GiveBack(admission, kernel, me, old(admission.log), refused);
    }
    result := if cleanup == Cancelled then WasCancelled
              else if inside == Cancelled then (if fate.byTimeout then TimedOut else WasCancelled)
              else if inside == Errored then Failed
              else Resolved;
    RefusalsAre(old(admission.log), admission.log, me, if hasPermit then 1 else 0, refused, if hasPermit then 1 else 0);
  }

  // ---- The answer and the connect loop ------------------------------------------------------

  const MAX_CONNECT_CANDIDATES := 8

  datatype Answer<A> = Addresses(list: seq<A>) | InvalidAddress | Unresolvable | Forbidden

  /** First occurrences, in order. */
  function Distinct<A(==)>(list: seq<A>): seq<A> {
    if list == [] then []
    else
      var earlier, last := Distinct(list[..|list| - 1]), list[|list| - 1];
      if last in earlier then earlier else earlier + [last]
  }

  function FirstIndex<A(==)>(list: seq<A>, a: A): nat {
    if list == [] || list[0] == a then 0 else 1 + FirstIndex(list[1..], a)
  }

  lemma {:induction false} FirstIndexAppend<A>(list: seq<A>, last: A, a: A)
    ensures FirstIndex(list + [last], a) == if a in list || a == last then FirstIndex(list, a) else |list| + 1
    ensures FirstIndex(list, a) <= |list| && (a in list <==> FirstIndex(list, a) < |list|)
  {
    if list != [] && list[0] != a {
      assert (list + [last])[1..] == list[1..] + [last];
      FirstIndexAppend(list[1..], last, a);
    } else if list == [] {
      assert ([] + [last])[1..] == [];
    }
  }

  lemma DistinctStep<A>(front: seq<A>, last: A)
    ensures Distinct(front + [last]) == if last in Distinct(front) then Distinct(front) else Distinct(front) + [last]
  {
    assert (front + [last])[..|front + [last]| - 1] == front;
  }

  lemma OrderStays<A>(front: seq<A>, before: seq<A>, last: A, d: seq<A>, i: nat, j: nat)
    requires i < j < |d| && before <= d <= before + [last] && before[i] in front
    requires j < |before| ==> before[j] in front && FirstIndex(front, before[i]) < FirstIndex(front, before[j])
    requires j == |before| ==> last !in front
    ensures FirstIndex(front + [last], d[i]) < FirstIndex(front + [last], d[j])
  {
    hide FirstIndex;
    FirstIndexAppend(front, last, d[i]);
    FirstIndexAppend(front, last, d[j]);
  }

  /** Distinct keeps every element once, in the order of first occurrence. */
  lemma {:induction false} DistinctKeepsOrder<A>(list: seq<A>)
    ensures forall a :: a in Distinct(list) <==> a in list
    ensures forall i :: 0 <= i < |Distinct(list)| ==> Distinct(list)[i] in list
    ensures forall i, j :: 0 <= i < j < |Distinct(list)| ==>
              FirstIndex(list, Distinct(list)[i]) < FirstIndex(list, Distinct(list)[j])
    ensures list != [] ==> Distinct(list) != []
  {
    hide FirstIndex;
    if list != [] {
      var front, last := list[..|list| - 1], list[|list| - 1];
      assert list == front + [last];
      DistinctKeepsOrder(front);
      DistinctStep(front, last);
      var d, before := Distinct(list), Distinct(front);
      forall i, j | 0 <= i < j < |d| ensures FirstIndex(list, d[i]) < FirstIndex(list, d[j]) {
        OrderStays(front, before, last, d, i, j);
      }
    }
  }

  ghost predicate AllParse<A>(raw: seq<string>, parse: string -> Option<A>) {
    forall i :: 0 <= i < |raw| ==> parse(raw[i]).Some?
  }

  ghost function Parsed<A>(raw: seq<string>, parse: string -> Option<A>): (list: seq<A>)
    requires AllParse(raw, parse)
  {
    seq(|raw|, i requires 0 <= i < |raw| => parse(raw[i]).value)
  }

  /**
   Every address of the answer is checked, also those that will never be tried: one forbidden
   address rejects the whole answer. The candidates are the first distinct addresses, in order.
   */
  method ValidateAddresses<A(==)>(raw: seq<string>, parse: string -> Option<A>, allowed: A -> bool)
    returns (answer: Answer<A>)
    ensures answer.InvalidAddress? <==> !AllParse(raw, parse)
    ensures answer.Unresolvable? <==> raw == []
    ensures answer.Forbidden? <==>
              raw != [] && AllParse(raw, parse) && exists a :: a in Parsed(raw, parse) && !allowed(a)
    ensures answer.Addresses? ==>
              var distinct := Distinct(Parsed(raw, parse));
              answer.list == distinct[..if |distinct| < MAX_CONNECT_CANDIDATES then |distinct|
                                      else MAX_CONNECT_CANDIDATES]
  {
    var addresses: seq<A>, seen: set<A> := [], {};
    for i := 0 to |raw|
      invariant AllParse(raw[..i], parse)
      invariant addresses == Distinct(Parsed(raw[..i], parse))
      invariant forall a :: a in seen <==> a in addresses
    {
      var address := parse(raw[i]);
      assert raw[..i + 1] == raw[..i] + [raw[i]];
      if address.None? {
        return InvalidAddress;
      }
      assert Parsed(raw[..i + 1], parse) == Parsed(raw[..i], parse) + [address.value];
      assert Parsed(raw[..i + 1], parse)[..i] == Parsed(raw[..i], parse);
      if address.value !in seen {
        seen, addresses := seen + {address.value}, addresses + [address.value];
      }
    }
    assert raw[..|raw|] == raw;
    ghost var parsed := Parsed(raw, parse);
    DistinctKeepsOrder(parsed);
    assert addresses == Distinct(parsed);
    if addresses == [] {
      return Unresolvable;
    }
    for i := 0 to |addresses|
      invariant forall j :: 0 <= j < i ==> allowed(addresses[j])
    {
      if !allowed(addresses[i]) {
        assert addresses[i] in parsed;
        return Forbidden;
      }
    }
    forall a | a in parsed ensures allowed(a) {
      assert a in Distinct(parsed);
      assert a in addresses;
    }
    answer := Addresses(if |addresses| < MAX_CONNECT_CANDIDATES then addresses
                        else addresses[..MAX_CONNECT_CANDIDATES]);
  }

  /** _remaining_timeout: what is left of the deadline, never more than the caller's own timeout. */
  function RemainingTimeout(timeout: Option<real>, deadline: Option<real>, now: real): (rest: Option<real>)
    ensures rest.None? <==> timeout.None? && deadline.None?
    ensures timeout.Some? && rest.Some? ==> rest.value <= timeout.value
    ensures deadline.Some? ==> rest.value <= 0.0 || now + rest.value <= deadline.value
    ensures rest.Some? ==>
              || rest == timeout
              || (deadline.Some? && now + rest.value == deadline.value)
              || (deadline.Some? && now >= deadline.value && rest.value == 0.0)
  {
    if deadline.None? then timeout
    else
      var remaining := if deadline.value - now > 0.0 then deadline.value - now else 0.0;
      Some(if timeout.Some? && timeout.value < remaining then timeout.value else remaining)
  }

  /** The earlier of the connect deadline and the total deadline of a connect that starts at `started`. */
  function EffectiveDeadline(timeout: Option<real>, totalTimeout: Option<real>, started: real): (deadline: Option<real>)
    ensures deadline.None? <==> timeout.None? && totalTimeout.None?
    ensures timeout.Some? ==> deadline.value <= started + (if timeout.value > 0.0 then timeout.value else 0.0)
    ensures totalTimeout.Some? ==> deadline.value <= started + totalTimeout.value
    ensures deadline.Some? ==>
              || (totalTimeout.Some? && deadline.value == started + totalTimeout.value)
              || (timeout.Some? && deadline.value == started + (if timeout.value > 0.0 then timeout.value else 0.0))
  {
    var connect := if timeout.Some? then Some(started + if timeout.value > 0.0 then timeout.value else 0.0) else None;
    var total := if totalTimeout.Some? then Some(started + totalTimeout.value) else None;
    if connect.None? then total
    else if total.None? || connect.value <= total.value then connect
    else total
  }

  /** One connection attempt and what came of it. */
  datatype Attempt<A> = Attempt(address: A, at: real, budget: Option<real>, connected: bool, timedOut: bool)

  /** The monotonic clock and the connection attempts made so far. */
  class Network<A> {
    var now: real
    ghost var readings: seq<real>
    ghost var attempts: seq<Attempt<A>>

    constructor ()
      ensures readings == [] && attempts == []
    {
      now, readings, attempts := 0.0, [], [];
    }

    method Clock() returns (t: real)
      modifies this`now, this`readings
      ensures t == now >= old(now) && readings == old(readings) + [t]
    {
      var passed: real := *;
      if passed > 0.0 { now := now + passed; }
      t := now;
      readings := readings + [t];
    }

    /** One attempt, started at once; true if it connects, else whether it timed out. */
    method Connect(address: A, budget: Option<real>) returns (connected: bool, timedOut: bool)
      modifies this`now, this`attempts
      ensures now >= old(now)
      ensures attempts == old(attempts) + [Attempt(address, old(now), budget, connected, timedOut)]
    {
      connected, timedOut := *, *;
      attempts := attempts + [Attempt(address, now, budget, connected, timedOut)];
      var passed: real := *;
      if passed > 0.0 { now := now + passed; }
    }
  }

  datatype Connection = Connected(index: nat) | ConnectTimeout | ConnectError

  /** The attempts after the first `from` try `addresses` in order, each with what is left of the deadline. */
  ghost predicate TriesInOrder<A>(attempts: seq<Attempt<A>>, from: nat, addresses: seq<A>, timeout: Option<real>,
                                  deadline: Option<real>)
  {
    && from <= |attempts| <= from + |addresses|
    && forall i :: from <= i < |attempts| ==>
         && attempts[i].address == addresses[i - from]
         && attempts[i].budget == RemainingTimeout(timeout, deadline, attempts[i].at)
         && (attempts[i].budget.Some? ==> attempts[i].budget.value > 0.0)
  }

  /** None of them may run past the deadline, and all but the last failed. */
  ghost predicate InTimeAndInVain<A>(attempts: seq<Attempt<A>>, from: nat, deadline: Option<real>) {
    && (deadline.Some? ==> forall i :: from <= i < |attempts| ==>
          attempts[i].budget.Some? && attempts[i].at + attempts[i].budget.value <= deadline.value)
    && forall i :: from <= i < |attempts| - 1 ==> !attempts[i].connected
  }

  lemma TryOnce<A>(attempts: seq<Attempt<A>>, from: nat, addresses: seq<A>, timeout: Option<real>,
                   deadline: Option<real>, next: Attempt<A>)
    requires TriesInOrder(attempts, from, addresses, timeout, deadline) && InTimeAndInVain(attempts, from, deadline)
    requires |attempts| < from + |addresses| && next.address == addresses[|attempts| - from]
    requires next.budget == RemainingTimeout(timeout, deadline, next.at)
    requires next.budget.Some? ==> next.budget.value > 0.0
    requires |attempts| > from ==> !attempts[|attempts| - 1].connected
    ensures TriesInOrder(attempts + [next], from, addresses, timeout, deadline)
    ensures InTimeAndInVain(attempts + [next], from, deadline)
  {
  }

  lemma ConnectStarts<A>(attempts: seq<Attempt<A>>, addresses: seq<A>, timeout: Option<real>,
                         totalTimeout: Option<real>)
    ensures forall deadline :: TriesInOrder(attempts, |attempts|, addresses, timeout, deadline)
    ensures forall deadline :: InTimeAndInVain(attempts, |attempts|, deadline)
  {
  }

  /** Try the candidates in order, each within what is left of the one deadline. */
  method ConnectTcp<A>(network: Network<A>, addresses: seq<A>, timeout: Option<real>, totalTimeout: Option<real>)
    returns (result: Connection)
    requires addresses != []
    modifies network
    ensures old(network.attempts) <= network.attempts && |network.readings| > |old(network.readings)|
    ensures var deadline := EffectiveDeadline(timeout, totalTimeout, network.readings[|old(network.readings)|]);
            && TriesInOrder(network.attempts, |old(network.attempts)|, addresses, timeout, deadline)
            && InTimeAndInVain(network.attempts, |old(network.attempts)|, deadline)
            && var tried := |network.attempts| - |old(network.attempts)|;
            && (result.Connected? <==> tried > 0 && network.attempts[|network.attempts| - 1].connected)
            && (result.Connected? ==> tried == result.index + 1)
            && (!result.Connected? && tried == |addresses| ==>
                  result == if network.attempts[|network.attempts| - 1].timedOut then ConnectTimeout else ConnectError)
            && (!result.Connected? && tried < |addresses| ==>
                  && result.ConnectTimeout? && RemainingTimeout(timeout, deadline, network.now).Some?
                  && RemainingTimeout(timeout, deadline, network.now).value <= 0.0)
  {
    hide TriesInOrder, InTimeAndInVain, EffectiveDeadline, RemainingTimeout;
    ghost var first := |network.attempts|;
    ConnectStarts(network.attempts, addresses, timeout, totalTimeout);
    var started := network.Clock();
    var deadline := EffectiveDeadline(timeout, totalTimeout, started);
    var beforeResolution := network.Clock();
    var remaining := RemainingTimeout(timeout, deadline, beforeResolution);
    if remaining.Some? && remaining.value <= 0.0 {
      return ConnectTimeout;
    }
    var lastTimedOut := false;
    for i := 0 to |addresses|
      invariant old(network.attempts) <= network.attempts && |network.attempts| == first + i
      invariant old(network.readings) + [started] <= network.readings
      invariant TriesInOrder(network.attempts, first, addresses, timeout, deadline)
      invariant InTimeAndInVain(network.attempts, first, deadline)
      invariant i > 0 ==> !network.attempts[first + i - 1].connected
      invariant i > 0 ==> lastTimedOut == network.attempts[first + i - 1].timedOut
    {
      var now := network.Clock();
      remaining := RemainingTimeout(timeout, deadline, now);
      if remaining.Some? && remaining.value <= 0.0 {
        return ConnectTimeout;
      }
      ghost var before := network.attempts;
      var connected;
      connected, lastTimedOut := network.Connect(addresses[i], remaining);
      TryOnce(before, first, addresses, timeout, deadline, network.attempts[|before|]);
      if connected {
        return Connected(i);
      }
    }
    result := if lastTimedOut then ConnectTimeout else ConnectError;
  }
}
