/**
 The keyed create guard (src/apex/adapters/remote_idempotency.py:41-157): a ref-counted lock registry
 and a bounded semaphore in every process, an advisory lock in the shared database, and any number of
 tasks stepping through them with cancellation, timeout or failure at every wait.
 */
module CreateGuard {
  import opened FiniteSets
  import opened Options

  type Key = string
  type EntryId = nat
  type Task = nat
  type Replica = nat

  const CAPACITY := 8

  /**
   One process: the registry, the users and locks of the entries it ever created (by identity), and
   the free permits. A held lock is stored with the task that took it; no step looks at that task.
   */
  datatype Process = Process(registry: map<Key, EntryId>, users: map<EntryId, int>, locked: map<EntryId, Task>,
                             free: int, nextEntry: EntryId)

  const NEW_PROCESS := Process(map[], map[], map[], CAPACITY, 0)

  /** _lease: find or create the entry of a key and count one more user. */
  function Leased(p: Process, key: Key): (Process, EntryId) {
    if key in p.registry && p.registry[key] in p.users
    then (p.(users := p.users[p.registry[key] := p.users[p.registry[key]] + 1]), p.registry[key])
    else (p.(registry := p.registry[key := p.nextEntry], users := p.users[p.nextEntry := 1],
             nextEntry := p.nextEntry + 1),
          p.nextEntry)
  }

  /** _return_lease: one user less; the last one removes the entry if it is still the key's. */
  function Returned(p: Process, key: Key, entry: EntryId): (q: Process)
    requires entry in p.users
    ensures q == p.(registry := q.registry, users := q.users)
  {
    var users := p.users[entry := p.users[entry] - 1];
    if users[entry] == 0 && key in p.registry && p.registry[key] == entry
    then p.(registry := p.registry - {key}, users := users)
    else p.(users := users)
  }

  /** The module-level state of one process, changed in place. */
  class GuardProcess {
    var registry: map<Key, EntryId>
    var users: map<EntryId, int>
    var locked: map<EntryId, Task>
    var free: int
    var nextEntry: EntryId

    ghost function View(): Process
      reads this
    {
      Process(registry, users, locked, free, nextEntry)
    }

    constructor ()
      ensures View() == NEW_PROCESS
    {
      registry, users, locked, free, nextEntry := map[], map[], map[], CAPACITY, 0;
    }

    method Lease(key: Key) returns (entry: EntryId)
      requires forall k :: k in registry ==> registry[k] in users
      modifies this
      ensures (View(), entry) == Leased(old(View()), key)
    {
      assert users[nextEntry := 0][nextEntry := 1] == users[nextEntry := 1];
      if key !in registry {
        registry := registry[key := nextEntry];
        users := users[nextEntry := 0];
        nextEntry := nextEntry + 1;
      }
      entry := registry[key];
      users := users[entry := users[entry] + 1];
    }

    method ReturnLease(key: Key, entry: EntryId)
      requires entry in users
      modifies this`registry, this`users
      ensures View() == Returned(old(View()), key, entry)
    {
      users := users[entry := users[entry] - 1];
      if users[entry] == 0 && key in registry && registry[key] == entry {
        registry := registry - {key};
      }
    }
  }

  // ---- Tasks --------------------------------------------------------------------------------

  datatype Stage =
    | Waiting       // leased, trying the keyed lock
    | WaitPermit    // lock held, trying the semaphore
    | Connecting    // permit held, opening the transaction
    | WaitAdvisory  // waiting for the advisory lock
    | Inside        // the guarded body
    | Committing    // body done, the transaction still holds the advisory lock
    | Disposing     // transaction over, disposing of the engine
    | Unlocking     // about to release the keyed lock
    | Returning     // about to return the lease

  datatype Place = Place(entry: EntryId, stage: Stage)

  datatype Config = Config(replicas: set<Replica>, replica: Task -> Replica, key: Task -> Key,
                           advisory: Key -> int, distributed: bool)

  /** `tasks` holds the tasks inside remote_create_guard; `advisory` the locks the database has granted. */
  datatype State = State(processes: map<Replica, Process>, tasks: map<Task, Place>, advisory: map<int, Task>)

  datatype Action = TryLock | TakePermit | Connect | Advise | Finish | Commit | Dispose | Unlock | Return | Abort

  /** What a step changes: the task's process, its stage (none once it has left) and the advisory locks. */
  datatype Effect = Effect(process: Process, stage: Option<Stage>, advisory: map<int, Task>)

  /**
   One step of task `t`, or nothing when it cannot take that step now. Abort is a cancellation, a
   timeout or a failure at a wait; Finish is any end of the guarded body.
   */
  function Outcome(c: Config, p: Process, place: Place, advisory: map<int, Task>, t: Task, a: Action): Option<Effect> {
    var lock := c.advisory(c.key(t));
    match (place.stage, a)
    case (Waiting, TryLock) =>
      if place.entry in p.locked then None
      else Some(Effect(p.(locked := p.locked[place.entry := t]), Some(if c.distributed then WaitPermit else Inside),
                       advisory))
    case (Waiting, Abort) => Some(Effect(p, Some(Returning), advisory))
    case (WaitPermit, TakePermit) =>
      if p.free <= 0 then None else Some(Effect(p.(free := p.free - 1), Some(Connecting), advisory))
    case (WaitPermit, Abort) => Some(Effect(p, Some(Unlocking), advisory))
    case (Connecting, Connect) => Some(Effect(p, Some(WaitAdvisory), advisory))
    case (Connecting, Abort) => Some(Effect(p, Some(Disposing), advisory))
    case (WaitAdvisory, Advise) =>
      if lock in advisory then None else Some(Effect(p, Some(Inside), advisory[lock := t]))
    case (WaitAdvisory, Abort) => Some(Effect(p, Some(Disposing), advisory))
    case (Inside, Finish) => Some(Effect(p, Some(if c.distributed then Committing else Unlocking), advisory))
    case (Committing, Commit) => Some(Effect(p, Some(Disposing), advisory - {lock}))
    case (Disposing, Dispose) => Some(Effect(p.(free := p.free + 1), Some(Unlocking), advisory))
    case (Unlocking, Unlock) => Some(Effect(p.(locked := p.locked - {place.entry}), Some(Returning), advisory))
    case (Returning, Return) =>
      if place.entry in p.users then Some(Effect(Returned(p, c.key(t), place.entry), None, advisory)) else None
    case _ => None
  }

  function Act(c: Config, s: State, t: Task, a: Action): Option<State>
    requires t in s.tasks && c.replica(t) in s.processes
  {
    var r, place := c.replica(t), s.tasks[t];
    match Outcome(c, s.processes[r], place, s.advisory, t, a)
    case None => None
    case Some(e) =>
      Some(State(s.processes[r := e.process],
                 if e.stage.Some? then s.tasks[t := place.(stage := e.stage.value)] else s.tasks - {t},
                 e.advisory))
  }

  function Enter(c: Config, s: State, t: Task): State
    requires c.replica(t) in s.processes
  {
    var (p, entry) := Leased(s.processes[c.replica(t)], c.key(t));
    s.(processes := s.processes[c.replica(t) := p], tasks := s.tasks[t := Place(entry, Waiting)])
  }

  ghost predicate Next(c: Config, s: State, s': State) {
    || (exists t :: t !in s.tasks && c.replica(t) in c.replicas && c.replica(t) in s.processes && s' == Enter(c, s, t))
    || (exists t, a :: t in s.tasks && c.replica(t) in s.processes && Act(c, s, t, a) == Some(s'))
  }

  ghost predicate IsRun(c: Config, run: seq<State>) {
    && |run| > 0
    && run[0] == State(map r | r in c.replicas :: NEW_PROCESS, map[], map[])
    && forall i :: 0 < i < |run| ==> Next(c, run[i - 1], run[i])
  }

  // ---- Invariants ---------------------------------------------------------------------------

  predicate HoldsLock(stage: Stage) { !stage.Waiting? && !stage.Returning? }

  predicate HoldsPermit(c: Config, stage: Stage) {
    || stage.Connecting? || stage.WaitAdvisory? || stage.Committing? || stage.Disposing?
    || (stage.Inside? && c.distributed)
  }

  predicate HoldsAdvisory(c: Config, stage: Stage) { c.distributed && (stage.Inside? || stage.Committing?) }

  /** The tasks of a replica that use a key. */
  function Users(c: Config, s: State, r: Replica, k: Key): set<Task> {
    set t | t in s.tasks && c.replica(t) == r && c.key(t) == k
  }

  function PermitHolders(c: Config, s: State, r: Replica): set<Task> {
    set t | t in s.tasks && c.replica(t) == r && HoldsPermit(c, s.tasks[t].stage)
  }

  predicate OwnedBy<T>(owners: map<T, Task>, lock: T, t: Task) { lock in owners && owners[lock] == t }

  /** A task's entry is the registered one of its key, and it holds what its stage says it holds. */
  ghost predicate TaskAgrees(c: Config, s: State, t: Task) {
    t in s.tasks ==>
      && c.replica(t) in s.processes
      && var p, entry, lock := s.processes[c.replica(t)], s.tasks[t].entry, c.advisory(c.key(t));
      && c.key(t) in p.registry && p.registry[c.key(t)] == entry
      && (HoldsLock(s.tasks[t].stage) <==> OwnedBy(p.locked, entry, t))
      && (HoldsAdvisory(c, s.tasks[t].stage) <==> OwnedBy(s.advisory, lock, t))
      && (!c.distributed ==> s.tasks[t].stage in {Waiting, Inside, Unlocking, Returning})
  }

  /** A registered entry belongs to one key and counts its users, of which there is at least one. */
  ghost predicate KeyAgrees(c: Config, s: State, r: Replica, k: Key) {
    r in s.processes && k in s.processes[r].registry ==>
      && var p, entry := s.processes[r], s.processes[r].registry[k];
      && entry < p.nextEntry && entry in p.users && p.users[entry] == |Users(c, s, r, k)| > 0
  }

  ghost predicate KeysDiffer(s: State, r: Replica, k: Key, k': Key) {
    r in s.processes && k in s.processes[r].registry && k' in s.processes[r].registry && k != k' ==>
      s.processes[r].registry[k] != s.processes[r].registry[k']
  }

  ghost predicate LockAgrees(c: Config, s: State, r: Replica, e: EntryId) {
    r in s.processes && e in s.processes[r].locked ==>
      && var t := s.processes[r].locked[e];
      && t in s.tasks && c.replica(t) == r && s.tasks[t].entry == e && e < s.processes[r].nextEntry
  }

  ghost predicate AdvisoryAgrees(c: Config, s: State, a: int) {
    a in s.advisory ==> s.advisory[a] in s.tasks && c.advisory(c.key(s.advisory[a])) == a
  }

  ghost predicate PermitsAgree(c: Config, s: State, r: Replica) {
    r in s.processes ==> s.processes[r].free >= 0 && s.processes[r].free + |PermitHolders(c, s, r)| == CAPACITY
  }

  ghost predicate Inv(c: Config, s: State) {
    && (forall t :: TaskAgrees(c, s, t))
    && (forall r, k :: KeyAgrees(c, s, r, k))
    && (forall r, k, k' :: KeysDiffer(s, r, k, k'))
    && (forall r, e :: LockAgrees(c, s, r, e))
    && (forall a :: AdvisoryAgrees(c, s, a))
    && (forall r :: PermitsAgree(c, s, r))
  }

  // ---- Entering -----------------------------------------------------------------------------

  lemma EnterUsers(c: Config, s: State, t: Task, r: Replica, k: Key)
    requires t !in s.tasks && c.replica(t) in s.processes
    ensures var before, after := Users(c, s, r, k), Users(c, Enter(c, s, t), r, k);
            t !in before && after == if c.replica(t) == r && c.key(t) == k then before + {t} else before
  {
  }

  lemma NoUsersUnregistered(c: Config, s: State, t: Task)
    requires forall u :: TaskAgrees(c, s, u)
    requires c.replica(t) in s.processes && c.key(t) !in s.processes[c.replica(t)].registry
    ensures Users(c, s, c.replica(t), c.key(t)) == {}
  {
    forall u | u in s.tasks ensures c.replica(u) != c.replica(t) || c.key(u) != c.key(t) {
      assert TaskAgrees(c, s, u);
    }
  }

  lemma EnterKeepsOtherKey(c: Config, s: State, t: Task, r: Replica, k: Key)
    requires t !in s.tasks && c.replica(t) in s.processes && (c.replica(t) != r || c.key(t) != k)
    requires KeyAgrees(c, s, r, k) && KeyAgrees(c, s, c.replica(t), c.key(t)) && KeysDiffer(s, r, k, c.key(t))
    ensures KeyAgrees(c, Enter(c, s, t), r, k)
  {
    hide Users;
    EnterUsers(c, s, t, r, k);
  }

  lemma EnterKeepsOwnKey(c: Config, s: State, t: Task)
    requires t !in s.tasks && c.replica(t) in s.processes && KeyAgrees(c, s, c.replica(t), c.key(t))
    requires c.key(t) !in s.processes[c.replica(t)].registry ==> Users(c, s, c.replica(t), c.key(t)) == {}
    ensures KeyAgrees(c, Enter(c, s, t), c.replica(t), c.key(t))
  {
    hide Users;
    EnterUsers(c, s, t, c.replica(t), c.key(t));
  }

  lemma EnterKeepsKey(c: Config, s: State, t: Task, r: Replica, k: Key)
    requires Inv(c, s) && t !in s.tasks && c.replica(t) in s.processes
    ensures KeyAgrees(c, Enter(c, s, t), r, k)
  {
    hide Inv, Enter, TaskAgrees, KeyAgrees, KeysDiffer, Users;
    InvAt(c, s, r, k, t);
    if r != c.replica(t) || k != c.key(t) {
      EnterKeepsOtherKey(c, s, t, r, k);
    } else {
      if k !in s.processes[r].registry { NoUsersUnregistered(c, s, t); }
      EnterKeepsOwnKey(c, s, t);
    }
  }

  lemma InvAt(c: Config, s: State, r: Replica, k: Key, t: Task)
    requires Inv(c, s)
    ensures KeyAgrees(c, s, r, k) && KeyAgrees(c, s, c.replica(t), c.key(t)) && KeysDiffer(s, r, k, c.key(t))
    ensures forall u :: TaskAgrees(c, s, u)
  {
    hide KeyAgrees, KeysDiffer, TaskAgrees, LockAgrees, AdvisoryAgrees, PermitsAgree;
  }

  /** The entry of a new key is new. */
  lemma EnterKeepsDifference(c: Config, s: State, t: Task, r: Replica, k: Key, k': Key)
    requires Inv(c, s) && t !in s.tasks && c.replica(t) in s.processes
    ensures KeysDiffer(Enter(c, s, t), r, k, k')
  {
    hide TaskAgrees, LockAgrees, AdvisoryAgrees, PermitsAgree, Users;
    assert KeysDiffer(s, r, k, k') && KeyAgrees(c, s, r, k) && KeyAgrees(c, s, r, k');
  }

  lemma EnterKeepsTask(c: Config, s: State, t: Task, u: Task)
    requires Inv(c, s) && t !in s.tasks && c.replica(t) in s.processes
    ensures TaskAgrees(c, Enter(c, s, t), u)
  {
    hide KeysDiffer, PermitsAgree, Users;
    var r := c.replica(t);
    assert TaskAgrees(c, s, u) && KeyAgrees(c, s, r, c.key(t));
    var entry := Leased(s.processes[r], c.key(t)).1;
    assert LockAgrees(c, s, r, entry) && AdvisoryAgrees(c, s, c.advisory(c.key(t)));
  }

  lemma EnterKeepsInv(c: Config, s: State, t: Task)
    requires Inv(c, s) && t !in s.tasks && c.replica(t) in s.processes
    ensures Inv(c, Enter(c, s, t))
  {
    var s' := Enter(c, s, t);
    forall u ensures TaskAgrees(c, s', u) { EnterKeepsTask(c, s, t, u); }
    forall r, k ensures KeyAgrees(c, s', r, k) { EnterKeepsKey(c, s, t, r, k); }
    forall r, k, k' ensures KeysDiffer(s', r, k, k') { EnterKeepsDifference(c, s, t, r, k, k'); }
    forall r, e ensures LockAgrees(c, s', r, e) { assert LockAgrees(c, s, r, e); }
    forall a ensures AdvisoryAgrees(c, s', a) { assert AdvisoryAgrees(c, s, a); }
    forall r ensures PermitsAgree(c, s', r) {
      assert PermitsAgree(c, s, r) && PermitHolders(c, s', r) == PermitHolders(c, s, r);
    }
  }

  // ---- Acting -------------------------------------------------------------------------------

  /** What every action leaves alone, and what it does to the registry. */
  lemma ActFrame(c: Config, s: State, t: Task, a: Action, s': State)
    requires t in s.tasks && c.replica(t) in s.processes && Act(c, s, t, a) == Some(s')
    ensures s'.processes.Keys == s.processes.Keys
    ensures forall r :: r in s.processes && r != c.replica(t) ==> s'.processes[r] == s.processes[r]
    ensures forall u :: u != t ==> (u in s'.tasks <==> u in s.tasks) && (u in s.tasks ==> s'.tasks[u] == s.tasks[u])
    ensures var p, p', entry := s.processes[c.replica(t)], s'.processes[c.replica(t)], s.tasks[t].entry;
            && p'.nextEntry == p.nextEntry
            && if a.Return? then t !in s'.tasks && entry in p.users && p' == Returned(p, c.key(t), entry)
               else t in s'.tasks && s'.tasks[t].entry == entry && p'.registry == p.registry && p'.users == p.users
  {
    hide Outcome;
    OutcomeFrame(c, s.processes[c.replica(t)], s.tasks[t], s.advisory, t, a);
  }

  lemma OutcomeFrame(c: Config, p: Process, place: Place, advisory: map<int, Task>, t: Task, a: Action)
    ensures var e := Outcome(c, p, place, advisory, t, a);
            e.Some? ==>
              && e.value.process.nextEntry == p.nextEntry
              && (e.value.stage.None? <==> a.Return?)
              && if a.Return? then place.entry in p.users && e.value.process == Returned(p, c.key(t), place.entry)
                 else e.value.process.registry == p.registry && e.value.process.users == p.users
  {
    hide Returned;
  }

  /** An action moves at most the actor's own locks. */
  lemma ActLocks(c: Config, s: State, t: Task, a: Action, s': State)
    requires t in s.tasks && c.replica(t) in s.processes && Act(c, s, t, a) == Some(s') && TaskAgrees(c, s, t)
    ensures var locked, locked' := s.processes[c.replica(t)].locked, s'.processes[c.replica(t)].locked;
            forall e, u :: u != t ==> (OwnedBy(locked', e, u) <==> OwnedBy(locked, e, u))
    ensures forall b, u :: u != t ==> (OwnedBy(s'.advisory, b, u) <==> OwnedBy(s.advisory, b, u))
  {
    hide Returned;
  }

  lemma ActKeepsActor(c: Config, s: State, t: Task, a: Action, s': State)
    requires t in s.tasks && c.replica(t) in s.processes && Act(c, s, t, a) == Some(s') && TaskAgrees(c, s, t)
    ensures TaskAgrees(c, s', t)
  {
    hide Returned;
  }

  lemma ActKeepsOther(c: Config, s: State, t: Task, a: Action, s': State, u: Task)
    requires t in s.tasks && c.replica(t) in s.processes && Act(c, s, t, a) == Some(s') && u != t
    requires TaskAgrees(c, s, t) && TaskAgrees(c, s, u) && KeyAgrees(c, s, c.replica(t), c.key(t))
    requires u in s.tasks && c.replica(u) == c.replica(t) && c.key(u) == c.key(t) ==>
               |Users(c, s, c.replica(t), c.key(t))| > 1
    ensures TaskAgrees(c, s', u)
  {
    hide Act, Users;
    ActFrame(c, s, t, a, s');
    ActLocks(c, s, t, a, s');
  }

  /** While another task uses the key, its entry has more than one user. */
  lemma SharedEntryHasMoreUsers(c: Config, s: State, t: Task, u: Task)
    requires t in s.tasks && u in s.tasks && t != u && c.replica(u) == c.replica(t) && c.key(u) == c.key(t)
    ensures |Users(c, s, c.replica(t), c.key(t))| > 1
  {
    ProperSubsetSize({t}, Users(c, s, c.replica(t), c.key(t)), u);
  }

  lemma ActUsers(c: Config, s: State, t: Task, a: Action, s': State, r: Replica, k: Key)
    requires t in s.tasks && c.replica(t) in s.processes && Act(c, s, t, a) == Some(s')
    ensures Users(c, s', r, k) == if a.Return? then Users(c, s, r, k) - {t} else Users(c, s, r, k)
    ensures t in Users(c, s, r, k) <==> c.replica(t) == r && c.key(t) == k
  {
    hide Act;
    ActFrame(c, s, t, a, s');
  }

  lemma ActKeepsKey(c: Config, s: State, t: Task, a: Action, s': State, r: Replica, k: Key)
    requires t in s.tasks && c.replica(t) in s.processes && Act(c, s, t, a) == Some(s')
    requires TaskAgrees(c, s, t) && KeyAgrees(c, s, r, k) && KeysDiffer(s, r, k, c.key(t))
    ensures KeyAgrees(c, s', r, k)
  {
    hide Act, Users;
    ActFrame(c, s, t, a, s');
    ActUsers(c, s, t, a, s', r, k);
  }

  lemma ActKeepsLock(c: Config, s: State, t: Task, a: Action, s': State, r: Replica, e: EntryId)
    requires t in s.tasks && c.replica(t) in s.processes && Act(c, s, t, a) == Some(s')
    requires TaskAgrees(c, s, t) && LockAgrees(c, s, r, e) && KeyAgrees(c, s, c.replica(t), c.key(t))
    ensures LockAgrees(c, s', r, e)
  {
    hide Users;
  }

  lemma ActKeepsAdvisory(c: Config, s: State, t: Task, a: Action, s': State, b: int)
    requires t in s.tasks && c.replica(t) in s.processes && Act(c, s, t, a) == Some(s')
    requires TaskAgrees(c, s, t) && AdvisoryAgrees(c, s, b)
    ensures AdvisoryAgrees(c, s', b)
  {
  }

  /** An action that takes or gives back a permit moves it between the semaphore and the actor. */
  lemma ActPermit(c: Config, s: State, t: Task, a: Action, s': State)
    requires t in s.tasks && c.replica(t) in s.processes && Act(c, s, t, a) == Some(s') && TaskAgrees(c, s, t)
    ensures var free, free' := s.processes[c.replica(t)].free, s'.processes[c.replica(t)].free;
            var held, held' := HoldsPermit(c, s.tasks[t].stage), t in s'.tasks && HoldsPermit(c, s'.tasks[t].stage);
            free + (if held then 1 else 0) == free' + (if held' then 1 else 0) && (free >= 0 ==> free' >= 0)
  {
    hide Returned;
  }

  lemma ActPermitHolders(c: Config, s: State, t: Task, a: Action, s': State, r: Replica)
    requires t in s.tasks && c.replica(t) in s.processes && Act(c, s, t, a) == Some(s')
    ensures PermitHolders(c, s', r) - {t} == PermitHolders(c, s, r) - {t}
    ensures t in PermitHolders(c, s, r) <==> c.replica(t) == r && HoldsPermit(c, s.tasks[t].stage)
    ensures t in PermitHolders(c, s', r) <==> c.replica(t) == r && t in s'.tasks && HoldsPermit(c, s'.tasks[t].stage)
  {
    hide Act, HoldsPermit;
    ActFrame(c, s, t, a, s');
  }

  lemma ActKeepsPermits(c: Config, s: State, t: Task, a: Action, s': State, r: Replica)
    requires t in s.tasks && c.replica(t) in s.processes && Act(c, s, t, a) == Some(s')
    requires TaskAgrees(c, s, t) && PermitsAgree(c, s, r)
    ensures PermitsAgree(c, s', r)
  {
    hide Act, TaskAgrees, PermitHolders, HoldsPermit;
    ActFrame(c, s, t, a, s');
    ActPermit(c, s, t, a, s');
    ActPermitHolders(c, s, t, a, s', r);
    RemovedSize(PermitHolders(c, s, r), t);
    RemovedSize(PermitHolders(c, s', r), t);
  }

  lemma ActKeepsInv(c: Config, s: State, t: Task, a: Action, s': State)
    requires Inv(c, s) && t in s.tasks && c.replica(t) in s.processes && Act(c, s, t, a) == Some(s')
    ensures Inv(c, s')
  {
    hide TaskAgrees, KeyAgrees, LockAgrees, AdvisoryAgrees, PermitsAgree, Act, Users;
    assert TaskAgrees(c, s, t) && KeyAgrees(c, s, c.replica(t), c.key(t));
    forall u ensures TaskAgrees(c, s', u) {
      if u == t {
        ActKeepsActor(c, s, t, a, s');
      } else {
        if u in s.tasks && c.replica(u) == c.replica(t) && c.key(u) == c.key(t) {
          SharedEntryHasMoreUsers(c, s, t, u);
        }
        ActKeepsOther(c, s, t, a, s', u);
      }
    }
    forall r, k ensures KeyAgrees(c, s', r, k) { ActKeepsKey(c, s, t, a, s', r, k); }
    forall r, k, k' ensures KeysDiffer(s', r, k, k') {
      assert KeysDiffer(s, r, k, k');
      RegistryShrinks(c, s, t, a, s', r);
    }
    forall r, e ensures LockAgrees(c, s', r, e) { ActKeepsLock(c, s, t, a, s', r, e); }
    forall b ensures AdvisoryAgrees(c, s', b) { ActKeepsAdvisory(c, s, t, a, s', b); }
    forall r ensures PermitsAgree(c, s', r) { ActKeepsPermits(c, s, t, a, s', r); }
  }

  lemma RegistryShrinks(c: Config, s: State, t: Task, a: Action, s': State, r: Replica)
    requires t in s.tasks && c.replica(t) in s.processes && Act(c, s, t, a) == Some(s')
    ensures r in s'.processes <==> r in s.processes
    ensures r in s.processes ==> forall k :: k in s'.processes[r].registry ==>
              k in s.processes[r].registry && s'.processes[r].registry[k] == s.processes[r].registry[k]
  {
  }

  lemma {:induction false} RunKeepsInv(c: Config, run: seq<State>, i: nat)
    requires IsRun(c, run) && i < |run|
    ensures Inv(c, run[i])
    decreases i
  {
    hide Act, Enter, Inv;
    if i == 0 {
      InitialInv(c, run[0]);
    } else {
      RunKeepsInv(c, run, i - 1);
      var s, s' := run[i - 1], run[i];
      assert Next(c, s, s');
      if exists t :: t !in s.tasks && c.replica(t) in c.replicas && c.replica(t) in s.processes
                     && s' == Enter(c, s, t) {
        var t :| t !in s.tasks && c.replica(t) in c.replicas && c.replica(t) in s.processes && s' == Enter(c, s, t);
        EnterKeepsInv(c, s, t);
      } else {
        var t, a :| t in s.tasks && c.replica(t) in s.processes && Act(c, s, t, a) == Some(s');
        ActKeepsInv(c, s, t, a, s');
      }
    }
  }

  lemma InitialInv(c: Config, s: State)
    requires s == State(map r | r in c.replicas :: NEW_PROCESS, map[], map[])
    ensures Inv(c, s)
  {
    forall r ensures PermitsAgree(c, s, r) {
      assert PermitHolders(c, s, r) == {};
    }
  }

  // ---- Main results -------------------------------------------------------------------------

  /**
   In every interleaving: the registry knows a key exactly while it has users, `users` counts them,
   and all of them hold the one registered entry.
   */
  lemma RegistryIsExact(c: Config, run: seq<State>, i: nat, r: Replica, k: Key)
    requires IsRun(c, run) && i < |run| && r in run[i].processes
    ensures var s, p := run[i], run[i].processes[r];
            && (k in p.registry <==> Users(c, s, r, k) != {})
            && (k in p.registry ==> p.registry[k] in p.users && p.users[p.registry[k]] == |Users(c, s, r, k)|)
            && (forall t :: t in Users(c, s, r, k) ==> k in p.registry && s.tasks[t].entry == p.registry[k])
  {
    hide LockAgrees, AdvisoryAgrees, PermitsAgree;
    RunKeepsInv(c, run, i);
    var s, p := run[i], run[i].processes[r];
    assert KeyAgrees(c, s, r, k);
    forall t | t in Users(c, s, r, k) ensures k in p.registry && s.tasks[t].entry == p.registry[k] {
      assert TaskAgrees(c, s, t);
    }
  }

  /** At most one task of a process is inside the guard of a key. */
  lemma OneInsidePerProcess(c: Config, run: seq<State>, i: nat, t: Task, t': Task)
    requires IsRun(c, run) && i < |run| && t in run[i].tasks && t' in run[i].tasks
    requires run[i].tasks[t].stage.Inside? && run[i].tasks[t'].stage.Inside?
    requires c.replica(t) == c.replica(t') && c.key(t) == c.key(t')
    ensures t == t'
  {
    RunKeepsInv(c, run, i);
    hide KeyAgrees, LockAgrees, AdvisoryAgrees, PermitsAgree, KeysDiffer;
    assert TaskAgrees(c, run[i], t) && TaskAgrees(c, run[i], t');
  }

  /** With the distributed lock at most one task anywhere is inside a key, or inside keys that collide. */
  lemma OneInsideAnywhere(c: Config, run: seq<State>, i: nat, t: Task, t': Task)
    requires IsRun(c, run) && i < |run| && c.distributed && t in run[i].tasks && t' in run[i].tasks
    requires run[i].tasks[t].stage.Inside? && run[i].tasks[t'].stage.Inside?
    requires c.key(t) == c.key(t') || c.advisory(c.key(t)) == c.advisory(c.key(t'))
    ensures t == t'
  {
    RunKeepsInv(c, run, i);
    hide KeyAgrees, LockAgrees, AdvisoryAgrees, PermitsAgree, KeysDiffer;
    assert TaskAgrees(c, run[i], t) && TaskAgrees(c, run[i], t');
  }

  /** Permits are conserved: the free ones and the tasks holding one always make up the capacity. */
  lemma PermitsAreConserved(c: Config, run: seq<State>, i: nat, r: Replica)
    requires IsRun(c, run) && i < |run| && r in run[i].processes
    ensures 0 <= run[i].processes[r].free <= CAPACITY
    ensures run[i].processes[r].free + |PermitHolders(c, run[i], r)| == CAPACITY
  {
    hide TaskAgrees, KeyAgrees, LockAgrees, AdvisoryAgrees, KeysDiffer;
    RunKeepsInv(c, run, i);
    assert PermitsAgree(c, run[i], r);
  }

  /** A try for the keyed lock fails exactly while a task of the same process and key has it. */
  lemma LockRefusedIffHeld(c: Config, run: seq<State>, i: nat, t: Task)
    requires IsRun(c, run) && i < |run| && t in run[i].tasks && run[i].tasks[t].stage.Waiting?
    ensures c.replica(t) in run[i].processes
    ensures Act(c, run[i], t, TryLock).None? <==>
            exists u :: u in run[i].tasks && c.replica(u) == c.replica(t) && c.key(u) == c.key(t)
                        && HoldsLock(run[i].tasks[u].stage)
  {
    hide AdvisoryAgrees, PermitsAgree;
    RunKeepsInv(c, run, i);
    var s, r := run[i], c.replica(t);
    var e := s.tasks[t].entry;
    assert TaskAgrees(c, s, t);
    if e in s.processes[r].locked {
      var u := s.processes[r].locked[e];
      assert LockAgrees(c, s, r, e) && TaskAgrees(c, s, u) && KeysDiffer(s, r, c.key(t), c.key(u));
    }
    forall u | u in s.tasks && c.replica(u) == r && c.key(u) == c.key(t) && HoldsLock(s.tasks[u].stage)
      ensures e in s.processes[r].locked
    {
      assert TaskAgrees(c, s, u);
    }
  }

  /** A try for a permit fails exactly while all eight of the process are held by its tasks. */
  lemma PermitRefusedIffAllHeld(c: Config, run: seq<State>, i: nat, t: Task)
    requires IsRun(c, run) && i < |run| && t in run[i].tasks && run[i].tasks[t].stage.WaitPermit?
    ensures c.replica(t) in run[i].processes
    ensures Act(c, run[i], t, TakePermit).None? <==> |PermitHolders(c, run[i], c.replica(t))| == 8
  {
    hide KeyAgrees, LockAgrees, AdvisoryAgrees, KeysDiffer;
    RunKeepsInv(c, run, i);
    assert TaskAgrees(c, run[i], t) && PermitsAgree(c, run[i], c.replica(t));
  }

  /** The database refuses the advisory lock exactly while a task anywhere is in the body or the commit under it. */
  lemma AdvisoryRefusedIffHeld(c: Config, run: seq<State>, i: nat, t: Task)
    requires IsRun(c, run) && i < |run| && t in run[i].tasks && run[i].tasks[t].stage.WaitAdvisory?
    ensures c.replica(t) in run[i].processes
    ensures Act(c, run[i], t, Advise).None? <==>
            exists u :: u in run[i].tasks && c.advisory(c.key(u)) == c.advisory(c.key(t))
                        && (run[i].tasks[u].stage.Inside? || run[i].tasks[u].stage.Committing?)
  {
    hide KeyAgrees, LockAgrees, PermitsAgree, KeysDiffer;
    RunKeepsInv(c, run, i);
    var s, lock := run[i], c.advisory(c.key(t));
    assert TaskAgrees(c, s, t);
    if lock in s.advisory {
      var u := s.advisory[lock];
      assert AdvisoryAgrees(c, s, lock) && TaskAgrees(c, s, u);
    }
    forall u | u in s.tasks && c.advisory(c.key(u)) == lock
               && (s.tasks[u].stage.Inside? || s.tasks[u].stage.Committing?)
      ensures lock in s.advisory
    {
      assert TaskAgrees(c, s, u);
    }
  }

  /** The longest way out of the guard from each stage. */
  function StepsLeft(stage: Stage): nat {
    match stage
    case Waiting => 9
    case WaitPermit => 8
    case Connecting => 7
    case WaitAdvisory => 6
    case Inside => 5
    case Committing => 4
    case Disposing => 3
    case Unlocking => 2
    case Returning => 1
  }

  /** Every action, a cancellation included, brings its task closer to leaving, and no other task further in. */
  lemma ActAdvances(c: Config, s: State, t: Task, a: Action, s': State)
    requires t in s.tasks && c.replica(t) in s.processes && Act(c, s, t, a) == Some(s')
    ensures t in s'.tasks ==> StepsLeft(s'.tasks[t].stage) < StepsLeft(s.tasks[t].stage)
    ensures t !in s'.tasks <==> s.tasks[t].stage.Returning?
    ensures s'.tasks.Keys - {t} == s.tasks.Keys - {t}
    ensures forall u :: u in s'.tasks && u != t ==> s'.tasks[u] == s.tasks[u]
  {
    hide Returned;
  }

  /** A step that is not a cancellation, a timeout or a failure. */
  ghost predicate CanProgress(c: Config, s: State, t: Task) {
    && t in s.tasks && c.replica(t) in s.processes
    && exists a: Action :: !a.Abort? && Act(c, s, t, a).Some?
  }

  lemma UnobstructedProgress(c: Config, s: State, t: Task, a: Action)
    requires t in s.tasks && c.replica(t) in s.processes && !a.Abort? && Act(c, s, t, a).Some?
    ensures CanProgress(c, s, t)
  {
  }

  /** Stages that wait for nothing but their own work. */
  lemma OwnWorkProgresses(c: Config, s: State, t: Task)
    requires Inv(c, s) && t in s.tasks
    requires !s.tasks[t].stage.Waiting? && !s.tasks[t].stage.WaitPermit? && !s.tasks[t].stage.WaitAdvisory?
    ensures CanProgress(c, s, t)
  {
    hide LockAgrees, AdvisoryAgrees, PermitsAgree, KeysDiffer;
    assert TaskAgrees(c, s, t) && KeyAgrees(c, s, c.replica(t), c.key(t));
    UnobstructedProgress(c, s, t, match s.tasks[t].stage
                                  case Connecting => Connect
                                  case Inside => Finish
                                  case Committing => Commit
                                  case Disposing => Dispose
                                  case Unlocking => Unlock
                                  case _ => Return);
  }

  lemma AdvisoryWaiterProgresses(c: Config, s: State, t: Task)
    requires Inv(c, s) && t in s.tasks && s.tasks[t].stage.WaitAdvisory?
    ensures exists u :: CanProgress(c, s, u)
  {
    hide KeyAgrees, LockAgrees, PermitsAgree, KeysDiffer;
    assert TaskAgrees(c, s, t);
    var lock := c.advisory(c.key(t));
    if lock in s.advisory {
      var u := s.advisory[lock];
      assert AdvisoryAgrees(c, s, lock) && TaskAgrees(c, s, u);
      OwnWorkProgresses(c, s, u);
    } else {
      UnobstructedProgress(c, s, t, Advise);
    }
  }

  lemma PermitWaiterProgresses(c: Config, s: State, t: Task)
    requires Inv(c, s) && t in s.tasks && s.tasks[t].stage.WaitPermit?
    ensures exists u :: CanProgress(c, s, u)
  {
    hide KeyAgrees, LockAgrees, AdvisoryAgrees, KeysDiffer;
    assert TaskAgrees(c, s, t);
    var r := c.replica(t);
    assert PermitsAgree(c, s, r);
    if s.processes[r].free > 0 {
      UnobstructedProgress(c, s, t, TakePermit);
    } else {
      var u :| u in PermitHolders(c, s, r);
      if s.tasks[u].stage.WaitAdvisory? {
        AdvisoryWaiterProgresses(c, s, u);
      } else {
        OwnWorkProgresses(c, s, u);
      }
    }
  }

  /**
   No deadlock: as long as a task is in the guard, some task can take a step that is neither a
   cancellation nor a timeout, provided guarded bodies finish and do not enter another guard.
   */
  lemma NeverStuck(c: Config, run: seq<State>, i: nat, t: Task)
    requires IsRun(c, run) && i < |run| && t in run[i].tasks
    ensures exists u :: CanProgress(c, run[i], u)
  {
    hide KeyAgrees, AdvisoryAgrees, PermitsAgree, KeysDiffer;
    RunKeepsInv(c, run, i);
    var s := run[i];
    assert TaskAgrees(c, s, t);
    var u := t;
    if s.tasks[t].stage.Waiting? {
      var r := c.replica(t);
      if s.tasks[t].entry in s.processes[r].locked {
        u := s.processes[r].locked[s.tasks[t].entry];
        assert LockAgrees(c, s, r, s.tasks[t].entry) && TaskAgrees(c, s, u);
      } else {
        UnobstructedProgress(c, s, t, TryLock);
        return;
      }
    }
    if s.tasks[u].stage.WaitPermit? {
      PermitWaiterProgresses(c, s, u);
    } else if s.tasks[u].stage.WaitAdvisory? {
      AdvisoryWaiterProgresses(c, s, u);
    } else {
      OwnWorkProgresses(c, s, u);
    }
  }

  /** The longest way out for all tasks together. */
  ghost function TotalLeft(tasks: map<Task, Place>): nat {
    if tasks == map[] then 0
    else
      var t :| t in tasks;
      StepsLeft(tasks[t].stage) + TotalLeft(tasks - {t})
  }

  lemma {:induction false} TotalLeftWithout(tasks: map<Task, Place>, t: Task)
    requires t in tasks
    ensures TotalLeft(tasks) == StepsLeft(tasks[t].stage) + TotalLeft(tasks - {t})
    decreases |tasks|
  {
    hide StepsLeft;
    var u :| u in tasks && TotalLeft(tasks) == StepsLeft(tasks[u].stage) + TotalLeft(tasks - {u});
    if u != t {
      TotalLeftWithout(tasks - {u}, t);
      TotalLeftWithout(tasks - {t}, u);
      assert tasks - {u} - {t} == tasks - {t} - {u};
    }
  }

  lemma {:induction false} TotalLeftAtMost(tasks: map<Task, Place>)
    ensures TotalLeft(tasks) <= 9 * |tasks|
    decreases |tasks|
  {
    if tasks != map[] {
      var t :| t in tasks;
      TotalLeftWithout(tasks, t);
      TotalLeftAtMost(tasks - {t});
      assert |tasks| == |tasks - {t}| + 1 by {
        assert tasks == (tasks - {t})[t := tasks[t]];
      }
    }
  }

  lemma ActShortens(c: Config, s: State, t: Task, a: Action, s': State)
    requires t in s.tasks && c.replica(t) in s.processes && Act(c, s, t, a) == Some(s')
    ensures TotalLeft(s'.tasks) < TotalLeft(s.tasks)
  {
    hide Act, StepsLeft, TotalLeft;
    ActAdvances(c, s, t, a, s');
    TotalLeftWithout(s.tasks, t);
    assert s'.tasks - {t} == s.tasks - {t};
    if t in s'.tasks {
      TotalLeftWithout(s'.tasks, t);
    } else {
      assert s'.tasks - {t} == s'.tasks;
      LeavingIsAStep(s.tasks[t].stage);
    }
  }

  lemma LeavingIsAStep(stage: Stage)
    ensures StepsLeft(stage) > 0
  {
  }

  /** No task enters the guard between two states of a run. */
  ghost predicate NobodyEnters(run: seq<State>, i: nat, j: nat)
    requires i <= j < |run|
  {
    forall k :: i < k <= j ==> run[k].tasks.Keys <= run[k - 1].tasks.Keys
  }

  /**
   However steps are chosen, cancellations included: while nobody enters there are at most as many as the tasks
   in the guard have left together, so at most nine a task; and when no task can go on any more the guard is empty.
   */
  lemma {:induction false} EveryScheduleEmptiesGuard(c: Config, run: seq<State>, i: nat, j: nat)
    requires IsRun(c, run) && i <= j < |run| && NobodyEnters(run, i, j)
    ensures j - i + TotalLeft(run[j].tasks) <= TotalLeft(run[i].tasks) <= 9 * |run[i].tasks|
    ensures run[j].tasks == map[] || exists u :: CanProgress(c, run[j], u)
    decreases j
  {
    hide Act, Enter, Leased, TotalLeft, CanProgress;
    TotalLeftAtMost(run[i].tasks);
    if i < j {
      EveryScheduleEmptiesGuard(c, run, i, j - 1);
      var s, s' := run[j - 1], run[j];
      assert Next(c, s, s') && s'.tasks.Keys <= s.tasks.Keys;
      NotAnEntry(c, s, s');
      var t, a :| t in s.tasks && c.replica(t) in s.processes && Act(c, s, t, a) == Some(s');
      ActShortens(c, s, t, a, s');
    }
    if run[j].tasks != map[] {
      var t :| t in run[j].tasks;
      NeverStuck(c, run, j, t);
    }
  }

  lemma NotAnEntry(c: Config, s: State, s': State)
    requires Next(c, s, s') && s'.tasks.Keys <= s.tasks.Keys
    ensures exists t, a :: t in s.tasks && c.replica(t) in s.processes && Act(c, s, t, a) == Some(s')
  {
    hide Act, Enter;
    forall t | t !in s.tasks && c.replica(t) in s.processes ensures s' != Enter(c, s, t) {
      EnterFrame(c, s, t);
      assert t in Enter(c, s, t).tasks.Keys;
    }
  }

  // ---- The coroutine ------------------------------------------------------------------------

  ghost predicate Stands(s: State, t: Task, stage: Stage) { t in s.tasks && s.tasks[t].stage == stage }

  /** The task has been inside since the state `from` of a run. */
  ghost predicate WasInside(run: seq<State>, from: nat, t: Task) {
    exists i :: from <= i < |run| && Stands(run[i], t, Inside)
  }

  lemma OneMoreState(run: seq<State>, from: nat, t: Task, s: State)
    requires from < |run|
    ensures WasInside(run + [s], from, t) <==> WasInside(run, from, t) || Stands(s, t, Inside)
  {
    if WasInside(run, from, t) {
      var i :| from <= i < |run| && Stands(run[i], t, Inside);
      assert Stands((run + [s])[i], t, Inside);
    }
    if Stands(s, t, Inside) { assert Stands((run + [s])[|run|], t, Inside); }
  }

  lemma InsideNow(run: seq<State>, from: nat, t: Task)
    requires from < |run| && Stands(run[|run| - 1], t, Inside)
    ensures WasInside(run, from, t)
  {
  }

  /** remote_create_guard as one task executes it, beside any number of others. */
  class GuardCall {
    const c: Config
    const t: Task
    var s: State
    ghost var run: seq<State>
    ghost var refused: multiset<Action> // the tries of this task that were not possible

    ghost predicate Valid()
      reads this
    {
      run != [] && run[|run| - 1] == s && IsRun(c, run) && c.replica(t) in s.processes
    }

    ghost predicate At(stage: Stage)
      reads this
    {
      Stands(s, t, stage)
    }

    /** The task is in a run that has gone on since its state `from`. */
    ghost predicate Since(from: nat)
      reads this
    {
      Valid() && from < |run|
    }

    constructor (c: Config, t: Task)
      requires c.replica(t) in c.replicas
      ensures Valid() && this.c == c && this.t == t && t !in s.tasks && refused == multiset{}
    {
      this.c, this.t, refused := c, t, multiset{};
      s := State(map r | r in c.replicas :: NEW_PROCESS, map[], map[]);
      new;
      run := [s];
    }

    /** One step of another task. */
    method OtherTurn(u: Task, a: Action, ghost from: nat)
      requires Since(from)
      modifies this`s, this`run
      ensures Since(from) && old(run) <= run
      ensures (t in s.tasks <==> t in old(s).tasks) && (t in s.tasks ==> s.tasks[t] == old(s).tasks[t])
      ensures WasInside(run, from, t) <==> WasInside(old(run), from, t)
    {
      hide Act, Enter, Leased, WasInside;
      if At(Inside) { InsideNow(run, from, t); }
      if u != t && c.replica(u) in c.replicas && c.replica(u) in s.processes {
        if u !in s.tasks {
          EnterFrame(c, s, u);
          s := Enter(c, s, u);
          OneMoreState(run, from, t, s);
          run := run + [s];
        } else {
          var next := Act(c, s, u, a);
          if next.Some? {
            ActFrame(c, s, u, a, next.value);
            s := next.value;
            OneMoreState(run, from, t, s);
            run := run + [s];
          }
        }
      }
    }

    /** Any number of steps of other tasks. */
    method Others(ghost from: nat)
      requires Since(from)
      modifies this`s, this`run
      ensures Since(from) && old(run) <= run
      ensures (t in s.tasks <==> t in old(s).tasks) && (t in s.tasks ==> s.tasks[t] == old(s).tasks[t])
      ensures WasInside(run, from, t) <==> WasInside(old(run), from, t)
    {
      hide IsRun, WasInside;
      var turns: nat := *;
      while turns > 0
        invariant Since(from) && old(run) <= run
        invariant (t in s.tasks <==> t in old(s).tasks) && (t in s.tasks ==> s.tasks[t] == old(s).tasks[t])
        invariant WasInside(run, from, t) <==> WasInside(old(run), from, t)
      {
        var u: Task, a: Action := *, *;
        OtherTurn(u, a, from);
        turns := turns - 1;
      }
    }

    /** Take one step of the call, if it is possible now. */
    method Try(a: Action, ghost from: nat) returns (done: bool)
      requires Since(from) && t in s.tasks
      modifies this`s, this`run, this`refused
      ensures Since(from) && old(run) <= run
      ensures done <==> Act(c, old(s), t, a).Some?
      ensures if done then Act(c, old(s), t, a) == Some(s) else s == old(s)
      ensures refused == if done then old(refused) else old(refused) + multiset{a}
      ensures WasInside(run, from, t) <==> WasInside(old(run), from, t) || At(Inside)
    {
      hide Act, WasInside;
      if At(Inside) { InsideNow(run, from, t); }
      var next := Act(c, s, t, a);
      done := next.Some?;
      if done {
        ActFrame(c, s, t, a, next.value);
        s := next.value;
        OneMoreState(run, from, t, s);
        run := run + [s];
      } else {
        refused := refused + multiset{a};
      }
    }

    /** A step that waits for nothing. */
    method Proceed(a: Action, ghost before: Stage, ghost after: Stage, ghost from: nat)
      requires Since(from) && At(before) && Straight(c, before, a) == Some(after)
      modifies this`s, this`run, this`refused
      ensures Since(from) && old(run) <= run && At(after) && refused == old(refused)
      ensures WasInside(run, from, t) <==> WasInside(old(run), from, t)
    {
      hide IsRun, WasInside;
      var _ := Try(a, from);
    }

    /** One try of a wait. */
    method TryWait(a: Action, ghost before: Stage, ghost after: Stage, ghost aborted: Stage, ghost from: nat)
      returns (ok: bool)
      requires Since(from) && At(before) && Blocks(c, before, a, after, aborted)
      modifies this`s, this`run, this`refused
      ensures Since(from) && old(run) <= run && At(if ok then after else before)
      ensures refused == if ok then old(refused) else old(refused) + multiset{a}
      ensures WasInside(run, from, t) <==> WasInside(old(run), from, t) || (ok && after.Inside?)
    {
      hide IsRun, WasInside;
      ok := Try(a, from);
    }

    /**
     Poll until the step succeeds, or give up after it has been refused more than `polls` times: a cancellation
     or the wait's own timeout.
     */
    method Poll(a: Action, polls: nat, ghost before: Stage, ghost after: Stage, ghost aborted: Stage, ghost from: nat)
      returns (ok: bool)
      requires Since(from) && At(before) && Blocks(c, before, a, after, aborted)
      modifies this`s, this`run, this`refused
      ensures Since(from) && old(run) <= run && At(if ok then after else aborted)
      ensures ok <==> refused[a] - old(refused)[a] <= polls
      ensures old(refused)[a] <= refused[a] <= old(refused)[a] + polls + 1
      ensures forall b :: b != a ==> refused[b] == old(refused)[b]
      ensures WasInside(run, from, t) <==> WasInside(old(run), from, t) || (ok && after.Inside?)
    {
      hide IsRun, WasInside, Act, Outcome, Valid;
      ok := TryWait(a, before, after, aborted, from);
      var left := polls;
      while !ok && left > 0
        invariant Since(from) && old(run) <= run && At(if ok then after else before)
        invariant 0 <= left <= polls
        invariant refused[a] == old(refused)[a] + (polls - left) + if ok then 0 else 1
        invariant forall b :: b != a ==> refused[b] == old(refused)[b]
        invariant WasInside(run, from, t) <==> WasInside(old(run), from, t) || (ok && after.Inside?)
      {
        Others(from);
        ok := TryWait(a, before, after, aborted, from);
        left := left - 1;
      }
      if !ok {
        Proceed(Abort, before, aborted, from);
      }
    }

    /** Inside engine.begin(): the advisory lock and the body, or a failure to get that far. */
    method Transaction(connects: bool, advisoryPolls: nat, ghost from: nat) returns (ran: bool)
      requires Since(from) && c.distributed && At(Connecting)
      modifies this
      ensures Since(from) && old(run) <= run && At(Disposing)
      ensures WasInside(run, from, t) <==> WasInside(old(run), from, t) || ran
      ensures ran <==> connects && refused[Advise] - old(refused)[Advise] <= advisoryPolls
      ensures old(refused)[Advise] <= refused[Advise] <= old(refused)[Advise] + advisoryPolls + 1
      ensures forall b :: b != Advise ==> refused[b] == old(refused)[b]
    {
      hide IsRun, Act, Valid, WasInside;
      if !connects {
        Proceed(Abort, Connecting, Disposing, from);
        return false;
      }
      Proceed(Connect, Connecting, WaitAdvisory, from);
      Others(from);
      ran := Poll(Advise, advisoryPolls, WaitAdvisory, Inside, Disposing, from);
      if ran {
        Body(from);
        Others(from);
        Proceed(Commit, Committing, Disposing, from);
      }
    }

    /** The database half: a permit, then a transaction; the permit comes back last. */
    method PostgresGuard(polls: nat, connects: bool, advisoryPolls: nat, ghost from: nat) returns (ran: bool)
      requires Since(from) && c.distributed && At(WaitPermit)
      modifies this
      ensures Since(from) && old(run) <= run && At(Unlocking)
      ensures WasInside(run, from, t) <==> WasInside(old(run), from, t) || ran
      ensures ran <==>
                && refused[TakePermit] - old(refused)[TakePermit] <= polls && connects
                && refused[Advise] - old(refused)[Advise] <= advisoryPolls
      ensures old(refused)[TakePermit] <= refused[TakePermit] <= old(refused)[TakePermit] + polls + 1
      ensures old(refused)[Advise] <= refused[Advise] <= old(refused)[Advise] + advisoryPolls + 1
      ensures forall b :: b != TakePermit && b != Advise ==> refused[b] == old(refused)[b]
    {
      hide IsRun, Act, Valid, WasInside;
      ran := false;
      var admitted := Poll(TakePermit, polls, WaitPermit, Connecting, Unlocking, from);
      if admitted {
        Others(from);
        ran := Transaction(connects, advisoryPolls, from);
        Others(from);
        Proceed(Dispose, Disposing, Unlocking, from);
      }
    }

    /** The caller's critical section, whether it returns or raises. */
    method Body(ghost from: nat)
      requires Since(from) && At(Inside)
      modifies this
      ensures Since(from) && old(run) <= run && At(if c.distributed then Committing else Unlocking)
      ensures refused == old(refused) && (WasInside(run, from, t) <==> WasInside(old(run), from, t))
    {
      hide IsRun, WasInside;
      Others(from);
      Proceed(Finish, Inside, if c.distributed then Committing else Unlocking, from);
    }

    /**
     The call enters the guard. Its body runs exactly if none of its waits is given up and, with the distributed
     lock, the database can be reached; a wait is given up only after more refusals than it polls for. On every
     path out the task has given back the keyed lock, the advisory lock, the permit and its lease.
     */
    method RemoteCreateGuard(polls: nat, permitPolls: nat, connects: bool, advisoryPolls: nat) returns (ran: bool)
      requires Valid() && t !in s.tasks && c.replica(t) in c.replicas
      modifies this
      ensures Valid() && old(run) < run && Stands(run[|old(run)|], t, Waiting) && t !in s.tasks
      ensures ran <==> WasInside(run, |old(run)|, t)
      ensures ran <==>
                && refused[TryLock] - old(refused)[TryLock] <= polls
                && (c.distributed ==> && refused[TakePermit] - old(refused)[TakePermit] <= permitPolls && connects
                                      && refused[Advise] - old(refused)[Advise] <= advisoryPolls)
      ensures refused[TryLock] <= old(refused)[TryLock] + polls + 1
      ensures refused[TakePermit] <= old(refused)[TakePermit] + permitPolls + 1
      ensures refused[Advise] <= old(refused)[Advise] + advisoryPolls + 1
      ensures forall r, e :: r in s.processes ==> !OwnedBy(s.processes[r].locked, e, t)
      ensures forall lock :: !OwnedBy(s.advisory, lock, t)
    {
      hide IsRun, Act, Valid, WasInside, OwnedBy, Straight, Outcome;
      ghost var from := |run|;
      EnterOnRun();
      Others(from);
      ran := Poll(TryLock, polls, Waiting, if c.distributed then WaitPermit else Inside, Returning, from);
      if ran {
        ran := WithLock(permitPolls, connects, advisoryPolls, from);
      }
      Leave(from);
    }

    /** With the keyed lock held: the database half, or the body at once. */
    method WithLock(permitPolls: nat, connects: bool, advisoryPolls: nat, ghost from: nat) returns (ran: bool)
      requires Since(from) && At(if c.distributed then WaitPermit else Inside)
      modifies this
      ensures Since(from) && old(run) <= run && At(Returning)
      ensures WasInside(run, from, t) <==> WasInside(old(run), from, t) || ran
      ensures ran <==>
                (c.distributed ==> && refused[TakePermit] - old(refused)[TakePermit] <= permitPolls && connects
                                   && refused[Advise] - old(refused)[Advise] <= advisoryPolls)
      ensures refused[TakePermit] <= old(refused)[TakePermit] + permitPolls + 1
      ensures refused[Advise] <= old(refused)[Advise] + advisoryPolls + 1
      ensures refused[TryLock] == old(refused)[TryLock]
    {
      hide IsRun, Act, WasInside;
      if c.distributed {
        ran := PostgresGuard(permitPolls, connects, advisoryPolls, from);
      } else {
        InsideNow(run, from, t);
        Body(from);
        ran := true;
      }
      Others(from);
      Proceed(Unlock, Unlocking, Returning, from);
    }

    /** Return the lease; nothing is held after that. */
    method Leave(ghost from: nat)
      requires Since(from) && At(Returning)
      modifies this
      ensures Valid() && old(run) <= run && t !in s.tasks && refused == old(refused)
      ensures WasInside(run, from, t) <==> WasInside(old(run), from, t)
      ensures forall r, e :: r in s.processes ==> !OwnedBy(s.processes[r].locked, e, t)
      ensures forall lock :: !OwnedBy(s.advisory, lock, t)
    {
      hide IsRun, Act, Valid, WasInside, OwnedBy;
      Others(from);
      ReturnIsPossible();
      var _ := Try(Return, from);
      NothingHeld();
    }

    /** A task outside the guard holds no lock. */
    lemma NothingHeld()
      requires Valid() && t !in s.tasks
      ensures forall r, e :: r in s.processes ==> !OwnedBy(s.processes[r].locked, e, t)
      ensures forall lock :: !OwnedBy(s.advisory, lock, t)
    {
      hide KeyAgrees, PermitsAgree, KeysDiffer, TaskAgrees;
      RunKeepsInv(c, run, |run| - 1);
      forall r, e | r in s.processes ensures !OwnedBy(s.processes[r].locked, e, t) { assert LockAgrees(c, s, r, e); }
      forall lock ensures !OwnedBy(s.advisory, lock, t) { assert AdvisoryAgrees(c, s, lock); }
    }

    method EnterOnRun()
      requires Valid() && t !in s.tasks && c.replica(t) in c.replicas
      modifies this`s, this`run
      ensures Since(|old(run)|) && old(run) < run && Stands(run[|old(run)|], t, Waiting) && At(Waiting)
      ensures !WasInside(run, |old(run)|, t)
    {
      hide Leased;
      EnterFrame(c, s, t);
      s := Enter(c, s, t);
      run := run + [s];
    }

    lemma ReturnIsPossible()
      requires Valid() && At(Returning)
      ensures Act(c, s, t, Return).Some? && t !in Act(c, s, t, Return).value.tasks
    {
      hide LockAgrees, AdvisoryAgrees, PermitsAgree, KeysDiffer;
      RunKeepsInv(c, run, |run| - 1);
      assert TaskAgrees(c, s, t) && KeyAgrees(c, s, c.replica(t), c.key(t));
    }
  }

  /** Where a step that waits for nothing leads. */
  function Straight(c: Config, from: Stage, a: Action): Option<Stage> {
    match (from, a)
    case (Waiting, Abort) => Some(Returning)
    case (WaitPermit, Abort) => Some(Unlocking)
    case (Connecting, Connect) => Some(WaitAdvisory)
    case (Connecting, Abort) => Some(Disposing)
    case (WaitAdvisory, Abort) => Some(Disposing)
    case (Inside, Finish) => Some(if c.distributed then Committing else Unlocking)
    case (Committing, Commit) => Some(Disposing)
    case (Disposing, Dispose) => Some(Unlocking)
    case (Unlocking, Unlock) => Some(Returning)
    case _ => None
  }

  /** A wait: `a` leads from one stage to another or is not possible, and the wait can be given up. */
  predicate Blocks(c: Config, from: Stage, a: Action, to: Stage, aborted: Stage) {
    match a
    case TryLock => from.Waiting? && to == (if c.distributed then WaitPermit else Inside) && aborted.Returning?
    case TakePermit => from.WaitPermit? && to.Connecting? && aborted.Unlocking?
    case Advise => from.WaitAdvisory? && to.Inside? && aborted.Disposing?
    case _ => false
  }

  lemma EnterFrame(c: Config, s: State, t: Task)
    requires c.replica(t) in s.processes
    ensures Enter(c, s, t).processes.Keys == s.processes.Keys
    ensures t in Enter(c, s, t).tasks && Enter(c, s, t).tasks[t].stage.Waiting?
    ensures forall u :: u != t ==>
              (u in Enter(c, s, t).tasks <==> u in s.tasks) && (u in s.tasks ==> Enter(c, s, t).tasks[u] == s.tasks[u])
  {
  }
}
