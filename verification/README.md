# A verified model of the Apex concurrency and resource kernel

These Dafny files model the parts of Apex whose correctness depends on histories, interleavings and
arithmetic, and prove what they promise: the Redis rate, lockout and stream limiters; the resilient HTTP
client with its JSON pre-scan, retry loop and circuit breaker; the keyed guard around remote creates; the
cancellation-safe DNS resolver; the deadline-sharing Secret cleanup; the sealed Terraform plan; and the
colour token resolver of the contrast check. `dafny verify dfyconfig.toml` checks everything.

| file | what it models |
|---|---|
| `Common.dfy` | the option type, minimum and maximum, and facts about finite sets |
| `Redis.dfy` | sorted sets, flags, key expiry and the server clock; the commands the scripts issue |
| `WindowLimit.dfy` | the sliding-window script and whole runs of it |
| `AuthLockout.dfy` | the failure, retry and clear scripts against a history of failures and clears |
| `StreamLeases.dfy` | the acquire, renew and release scripts and their refinement of one map of leases |
| `StreamClient.dfy`, `StreamCall.dfy` | `acquire_stream`: a state machine beside other clients, and the coroutine that makes its steps |
| `JsonWire.dfy`, `JsonLexed.dfy`, `JsonParser.dfy`, `JsonPrinted.dfy`, `JsonParsed.dfy` | the structural scan; what it answers on every text; a recursive-descent parser for section 2 of RFC 8259; the parser accepts exactly the printed trees |
| `CircuitBreaker.dfy`, `HttpRetry.dfy` | the breaker; the retry loop beside other users of breaker and pool, the definitive close and the bounded body |
| `CreateGuard.dfy` | lock registry, semaphore and advisory lock under any interleaving of tasks on any number of replicas |
| `DnsResolver.dfy` | permit and child process under repeated cancellation; the answer checks; the connect loop |
| `CleanupRunner.dfy` | fractional budgets, signals, and the order of the stages |
| `SealedPlan.dfy` | snapshot, policy check, encryption, decryption and apply beside a process that replaces the plan |
| `ColorTokens.dfy` | aliases and mixes over a possibly cyclic table |

Code that changes things in place is imperative here too: the Lua scripts are methods with loops over a `Server`
object, coroutines are methods whose waits are loops, and each is proved against a specification function or
a step relation. What is said about whole runs is said about those. Time is `int` milliseconds on
the Redis server and `real` seconds elsewhere; `*` stands for what a network, a child process, a clock or a
caller's cancellation may do.

What the results rest on: the Redis clock never goes back; random members and lease ids are fresh; limits,
windows and times to live do not change during a run; a settled command ran or never will; a
terminated process is eventually reaped; the digest is injective and decryption inverts encryption.

Three promises need a condition or a reading, and each has it in the contract:

* Sealing does not leave "neither artifact nor plan" on every error. A short passphrase, or a directory at the
  artifact's path, is refused before anything is touched. And if a directory stands at the plan path when
  seal comes to remove it last, `unlink` raises after both artifacts have been written, and they stay
  (`SealedPlan.DirectoryLeavesArtifacts` is that run). `SealedPlan.Seal` says exactly when seal succeeds and
  exactly what is left otherwise; where no directory ever stands at the plan path, every later error leaves nothing.
* A mix keeps colours in range exactly when its weight is between 0 and 100 per cent; the pattern also
  accepts larger numbers (`ColorTokens.WeightIsSafeIffFraction`).
* The retry answer is rounded up and never below one second, so a request told to wait one second may be
  admitted sooner; the lower bound is stated for answers above one (`WindowLimit.RetryIsExact`).

## Model

| member | source | states |
|---|---|---|
| WindowLimit.FixedWindow | src/apex/app/distributed_limits.py:21-46 | the script answers the longest wait over its keys, purges all of them, and adds the member under all of them exactly when that wait is zero |
| WindowLimit.ScriptHasEffect | src/apex/app/distributed_limits.py:21-46 | seen key by key, repeated keys included, the two loops have the one-step effect that runs are made of |
| WindowLimit.LongestWaitBounds | src/apex/app/distributed_limits.py:28-40 | the answer is an upper bound of every key's wait and is reached by one of them |
| WindowLimit.WindowSurvivesTime | src/apex/app/distributed_limits.py:41-45 | the expiry of window + 1000 ms never drops an entry that is still in the window at any later time |
| WindowLimit.NeverMoreThanLimit | src/apex/app/distributed_limits.py:21-46 | in every run no half-open interval of window length holds more than `limit` admissions of a key |
| WindowLimit.DeniedIffSomeKeyIsFull | src/apex/app/distributed_limits.py:28-40 | in every run a request is denied iff some key of it has had as many admissions as its limit in the window that ends now; with room under all of them it is admitted |
| WindowLimit.AllOrNothing | src/apex/app/distributed_limits.py:38-46 | an admission enters the view of every key of the request; a denial changes no key's view at any later time |
| WindowLimit.RetryIsExact | src/apex/app/distributed_limits.py:28-40 | with no other admission on its keys a request denied with r seconds is admitted once they have passed and, for r > 1, still denied up to one second earlier |
| WindowLimit.RunKeepsInv | src/apex/app/distributed_limits.py:21-46 | every reachable state's stored windows equal the admission log, within every limit, covered by their expiries |
| AuthLockout.AuthRetry | src/apex/app/distributed_limits.py:48-59 | the script's answer is the longest lock over the subjects, an unexpiring one counting as one second |
| AuthLockout.LongestLockBounds | src/apex/app/distributed_limits.py:48-59 | that answer bounds every subject's lock and is some subject's lock |
| AuthLockout.LockHolds | src/apex/app/distributed_limits.py:51-57 | a lock counts in whole seconds until it expires, as one second if it has no expiry, and not at all if there is none |
| AuthLockout.RecordFailure | src/apex/app/distributed_limits.py:61-81 | the script leaves exactly the sets and locks of recording the failure subject by subject |
| AuthLockout.RecordAllPointwise | src/apex/app/distributed_limits.py:61-81 | for one subject: its set gains the failure, its lock is set anew when the set reaches the limit, and other subjects are untouched |
| AuthLockout.ClearAuth | src/apex/app/distributed_limits.py:83-88 | the named subjects have neither failures nor lock left, and every other subject finds its failures and its lock's remaining time as before |
| AuthLockout.ClearForgets | src/apex/app/distributed_limits.py:317-320 | after a clear a named subject waits for nothing, and what any other subject finds is unchanged |
| AuthLockout.LockoutMatchesHistory | src/apex/app/distributed_limits.py:48-88 | in every run a subject waits iff a failure since its last clear completed a window of `limit` failures less than `lockout` ago; the answer is the ceiling of what is left of the latest such lockout; a lock without expiry never occurs |
| StreamLeases.Acquire | src/apex/app/distributed_limits.py:90-108 | purges keys up to the first one without room and answers 0, or stores the lease under all keys and answers 1 |
| StreamLeases.Renew | src/apex/app/distributed_limits.py:110-127 | purges keys up to the first one that lost the lease and answers 0, or stores the new expiry under all keys and answers 1 |
| StreamLeases.Release | src/apex/app/distributed_limits.py:129-135 | removes the lease from every key |
| StreamLeases.ScanForRoomFacts | src/apex/app/distributed_limits.py:96-102 | a scan that may stop after a prefix changes no key's live holders and succeeds iff every key has room |
| StreamLeases.ScanForLeaseFacts | src/apex/app/distributed_limits.py:116-121 | likewise, and it succeeds iff the lease is live under every key |
| StreamLeases.LiveUnderOneKeyIffAll | src/apex/app/distributed_limits.py:90-135 | at every reachable state a lease is live under one of its keys iff under all, with one expiry, that of the abstract map |
| StreamLeases.NeverMoreThanLimit | src/apex/app/distributed_limits.py:90-127 | no key ever has more live leases than its limit, although renew does not look at it |
| StreamLeases.GrantedIffRoom | src/apex/app/distributed_limits.py:90-108 | in every run an acquire succeeds iff every key has fewer live leases than its limit |
| StreamLeases.RefusalChangesNothing | src/apex/app/distributed_limits.py:96-121 | a denied acquire and a failed renew change no key's holders now or later |
| StreamLeases.RenewFindsLease | src/apex/app/distributed_limits.py:110-127 | renew succeeds iff the lease is neither released nor expired |
| StreamLeases.UnrenewedStopsCounting | src/apex/app/distributed_limits.py:90-108 | a lease not renewed counts nowhere once the expiry of its last grant has passed |
| StreamLeases.CountsUntilExpiry | src/apex/app/distributed_limits.py:90-127 | a lease that was granted or renewed counts under all its keys for the whole time to live, unless it is released |
| StreamLeases.NothingRevives | src/apex/app/distributed_limits.py:110-135 | a released or expired lease never counts again, whatever renews follow |
| StreamClient.AcquireStreamNeverLeaks | src/apex/app/distributed_limits.py:338-401 | for any timing of cancellations, lost replies and other clients: a returned lease was granted and never compensated, a denial stored nothing, a raise follows a release sent after the acquire settled; then the lease counts nowhere, or not beyond its time to live; the caller sees a cancellation iff one was delivered |
| StreamClient.RunKeepsInv | src/apex/app/distributed_limits.py:338-401 | the invariant of client, commands and server behind it, in every run |
| StreamCalls.Call.AcquireStream | src/apex/app/distributed_limits.py:322-401 | the coroutine itself, its scripts running on the server object between other clients' scripts, makes only steps of that machine; it returns the lease iff it is not cancelled at its first await and the script answers one, and then the lease counts under all its keys for its time to live; it denies iff the script answers otherwise, with nothing stored; else it raises, with the lease counting nowhere if the release can reach the server |
| StreamCalls.Call.Compensate | src/apex/app/distributed_limits.py:350-370 | the exact-id release is settled before the call raises, however often it is cancelled meanwhile |
| StreamCalls.Call.OtherTurn | src/apex/app/distributed_limits.py:403-413 | any script of another client, and the clock, is a step that leaves this call's commands alone |
| JsonWire.ValidateWireLimits | src/apex/adapters/http_resilience.py:194-242 | the loop with its three flags computes the state machine's run, and the first error it raises is the run's |
| JsonWire.AcceptsExactlyWithinLimits | src/apex/adapters/http_resilience.py:194-242 | however a JSON tree is printed, the scan accepts it iff containers + names + strings + scalars <= max_tokens and nesting <= max_depth |
| JsonLexed.AcceptsExactlyByCount | src/apex/adapters/http_resilience.py:194-242 | on every text, JSON or not: cut into brackets, strings, words and gaps, it is accepted iff it has at most `maxTokens` opening brackets, strings and words and at no point `maxDepth` more opening brackets than closing ones |
| JsonLexed.RejectedAtFirstExcess | src/apex/adapters/http_resilience.py:205-239 | an error is raised at the first character that exceeds a limit and says which; tokens are looked at before depth |
| JsonWire.ValuePasses | src/apex/adapters/http_resilience.py:208-242 | a printed value met at any depth and count adds exactly its tokens and returns to its depth, or is rejected |
| JsonParser.AcceptedTextsAreCheapToParse | src/apex/adapters/http_resilience.py:194-242 | on every accepted text, valid JSON or not, a parser never opens more than max_depth containers nor builds more than max_tokens values before it succeeds or fails |
| JsonParser.ValueInStep | src/apex/adapters/http_resilience.py:208-242 | scanner and parser agree on depth and count before and after every value |
| JsonParser.EntriesInStep | src/apex/adapters/http_resilience.py:208-242 | likewise for the entries of a container up to its closing bracket |
| JsonPrinted.PrintedTreesParse | src/apex/adapters/http_resilience.py:194-242 | the parser reads every printed tree, counting exactly its tokens and depth |
| JsonParsed.ParsesIffPrinted | src/apex/adapters/http_resilience.py:194-242 | the parser used as reference accepts exactly the texts that are a JSON tree printed between white space |
| JsonParsed.ParsedTextsArePrinted | src/apex/adapters/http_resilience.py:194-242 | from every text the parser accepts the tree can be read off |
| JsonParsed.ValidTextsAcceptedIffCheap | src/apex/adapters/http_resilience.py:194-242 | on every text that parses, the scan accepts iff the parser stays within the limits |
| CircuitBreakers.CircuitBreaker.BeforeRequest | src/apex/adapters/http_resilience.py:372-379 | rejects exactly while the history's breaker is open and less than `reset_after_s` has passed since the latest failure; otherwise an open breaker is reset |
| CircuitBreakers.CircuitBreaker.RecordSuccess | src/apex/adapters/http_resilience.py:381-384 | keeps the fields equal to what the history says after a success |
| CircuitBreakers.CircuitBreaker.RecordFailure | src/apex/adapters/http_resilience.py:386-390 | keeps the fields equal to what the history says after a failure: open once the streak reaches the threshold, since the latest failure |
| CircuitBreakers.PhaseDecides | src/apex/adapters/http_resilience.py:372-390 | counting failures alone: in a phase that began with a new breaker, a success or a timed reset, with checks and failures in any order, the breaker is open iff the failures have reached the threshold, and a check is rejected iff besides less than `reset_after_s` has passed since the latest of them |
| CircuitBreakers.EveryHistoryHasPhase | src/apex/adapters/http_resilience.py:372-390 | every history is in exactly one such phase, so that this decides every breaker |
| CircuitBreakers.ReopensAfterFullStreak | src/apex/adapters/http_resilience.py:361-390 | after a success or a timed reset, n failures of whatever callers leave it open iff n reaches the threshold, dated by the last of them |
| HttpRetry.DelayBounds | src/apex/adapters/http_resilience.py:654-667 | the backoff lies between the capped exponential and a quarter more, never above the cap, and never shrinks with the attempt |
| HttpRetry.BackoffDoubles | src/apex/adapters/http_resilience.py:654-667 | without jitter the backoff starts at the base delay and doubles up to the cap; jitter adds its part of a quarter, up to the cap |
| HttpRetry.RetryDelayBounds | src/apex/adapters/http_resilience.py:711-735 | a Retry-After of section 10.2.3 of RFC 9110 is honoured as sent between zero and its cap, and as zero or the cap outside; a missing or unreadable one gives the backoff; no delay is negative; only a bad jitter leaves none |
| HttpRetry.StreamRequest | src/apex/adapters/http_resilience.py:432-508 | for every sequence of answers, headers and cancellations, and whatever other calls do to the shared breaker and pool meanwhile: at most `attempts` sends (one if not retryable), none once the total timeout has passed, each with no response of the call open; every turn but the last was a transport failure or a transient status, closed quietly and followed by a pause of exactly its delay, or of what was left of the timeout when the clock was read after the send if that is less; the returned status is what the transport answered last, and every exception has its cause in the last turn; a transient result is given up only after all attempts; one open response of the call on return and none on raise; a breaker check passed before each send, a rejected one iff the circuit is reported open, and at most one outcome, the right one, recorded |
| HttpRetry.Attempt | src/apex/adapters/http_resilience.py:461-506 | one turn of the loop ends the call in one of those ways, for the reason the transport, the close, the jitter or the pause gave, or, only after a retryable answer, goes on with exactly one more passed check, send and pause |
| HttpRetry.Others | src/apex/adapters/http_resilience.py:361-390 | other callers of a shared breaker change nothing of what this call has on record in it |
| HttpRetry.SendWithDeadline | src/apex/adapters/http_resilience.py:670-690 | sends only before the deadline, and leaves the send out only once the clock was read at or past it |
| HttpRetry.SleepWithDeadline | src/apex/adapters/http_resilience.py:693-708 | asks for the smaller of the delay and what is left, and nothing once the deadline is reached; each error has its cause |
| HttpRetry.CheckBreaker | src/apex/adapters/http_resilience.py:461-463 | the breaker is asked with a clock reading taken just before; a check that rejects ends the call with an open circuit and no outcome; any other is on record as passed |
| HttpRetry.CloseDefinitively | src/apex/adapters/http_resilience.py:275-302 | however often the caller is cancelled the response's slot is given back; a cancellation is reported iff there was one, and otherwise the close's own error iff it failed |
| HttpRetry.FlattenJoins | src/apex/adapters/http_resilience.py:585-612 | the body is the chunks joined in the order in which they came |
| HttpRetry.ReadBounded | src/apex/adapters/http_resilience.py:542-618 | closes the response on every path; unless the close is interrupted or fails, succeeds iff the body fits and ends well, with exactly the streamed bytes, and each error has exactly its cause; an interrupted close is a cancellation and a failed one its error, whatever was read |
| HttpRetry.BufferedRequest | src/apex/adapters/http_resilience.py:393-429 | whatever happens no response of the call stays open; the sends, the turns and the breaker are as in the stream form, and the result is that of reading the given reply within the cap, or of a close that was interrupted or failed |
| CreateGuard.GuardProcess.Lease | src/apex/adapters/remote_idempotency.py:52-59 | finds or creates the key's entry in place and counts one more user |
| CreateGuard.GuardProcess.ReturnLease | src/apex/adapters/remote_idempotency.py:62-66 | counts one user less and removes the entry with its last user only if it is still the key's |
| CreateGuard.RegistryIsExact | src/apex/adapters/remote_idempotency.py:52-66 | in every interleaving the registry knows a key iff it has users, `users` counts them, and all share its one entry |
| CreateGuard.OneInsidePerProcess | src/apex/adapters/remote_idempotency.py:134-157 | at most one task of a process is inside the guard of a key |
| CreateGuard.OneInsideAnywhere | src/apex/adapters/remote_idempotency.py:100-131 | with the distributed lock at most one task on all replicas is inside a key, or inside keys whose advisory numbers collide |
| CreateGuard.PermitsAreConserved | src/apex/adapters/remote_idempotency.py:83-131 | free permits plus permit holders are 8 on every replica at every step |
| CreateGuard.LockRefusedIffHeld | src/apex/adapters/remote_idempotency.py:69-81 | in every interleaving a try for the keyed lock fails iff a task of the same process and key has it |
| CreateGuard.PermitRefusedIffAllHeld | src/apex/adapters/remote_idempotency.py:83-90 | a try for a permit fails iff tasks of the process hold all eight |
| CreateGuard.AdvisoryRefusedIffHeld | src/apex/adapters/remote_idempotency.py:100-131 | the database refuses the advisory lock iff a task anywhere is in the body or the commit under its number |
| CreateGuard.NeverStuck | src/apex/adapters/remote_idempotency.py:69-157 | while a task is in the guard some task can take a step that is no cancellation or timeout, if bodies finish and do not nest |
| CreateGuard.ActAdvances | src/apex/adapters/remote_idempotency.py:100-157 | every step, a cancellation included, brings its task closer to leaving and moves no other task |
| CreateGuard.EveryScheduleEmptiesGuard | src/apex/adapters/remote_idempotency.py:69-157 | in every interleaving, while nobody enters there are at most nine more steps for each task in the guard, and whenever none but cancellations is possible any more the guard is empty |
| CreateGuard.RunKeepsInv | src/apex/adapters/remote_idempotency.py:41-157 | registry, locks, permits and tasks agree at every reachable state |
| CreateGuard.GuardCall.RemoteCreateGuard | src/apex/adapters/remote_idempotency.py:134-157 | the coroutine makes only steps of that machine, beginning with its lease; its body runs iff no wait is given up and, with the distributed lock, the database is reached, and a wait is given up only after more refusals than it polls for; on every path out its task holds neither lock, lease nor permit |
| CreateGuard.GuardCall.Poll | src/apex/adapters/remote_idempotency.py:69-90 | a wait between other tasks' steps ends with the resource taken, or, refused more often than it polls for, is given up at the stage that has nothing of it to return |
| DnsResolver.ResolveHostname | src/apex/adapters/network_safety.py:259-293 | for every fate of the poll, the spawn, the child and the cleanup: a permit is taken at most once and given back exactly as often, there is a child only with a permit and it is reaped before that is given back, and permits plus holders stay 8; it resolves iff the child was handed over, read to its end and left with zero, and a failure and a timeout have exactly their causes |
| DnsResolver.SpawnProcess | src/apex/adapters/network_safety.py:223-256 | a cancellation during the spawn never loses a started child: it is handed over iff there was none, and reaped otherwise |
| DnsResolver.TerminateProcess | src/apex/adapters/network_safety.py:204-220 | the child is reaped however often the caller is cancelled, and the cancellation is passed on iff there was one |
| DnsResolver.AcquireAdmission | src/apex/adapters/network_safety.py:197-201 | a permit is held iff the poll succeeded, and the poll is given up only after it has been refused every time |
| DnsResolver.DistinctKeepsOrder | src/apex/adapters/network_safety.py:389-407 | the deduplication keeps every address once, in the order of first occurrence |
| DnsResolver.ValidateAddresses | src/apex/adapters/network_safety.py:386-424 | one unparsable or forbidden address rejects the whole answer, also behind the eighth; otherwise the first eight distinct addresses are returned in order |
| DnsResolver.EffectiveDeadline | src/apex/adapters/network_safety.py:556-563 | the deadline of a connect is the earlier of its two bounds: no later than either, equal to one, and there iff one of them is |
| DnsResolver.RemainingTimeout | src/apex/adapters/network_safety.py:487-491 | an attempt gets the caller's own timeout or what is left of the deadline, and no more than either |
| DnsResolver.ConnectTcp | src/apex/adapters/network_safety.py:548-606 | candidates are tried in order, each with exactly what is left of one deadline counted from the first clock reading, and none may run past it; the connection is the last attempt's and all earlier ones failed; after all failed the error is the last attempt's, and a stop before that means that nothing was left |
| CleanupRunners.CleanupRunner.HandleSignal | scripts/cleanup_csi_hook_material.py:163-186 | a signal only shortens the deadline, to at most eight seconds from now, and interrupts exactly a running wait |
| CleanupRunners.CleanupRunner.Run | scripts/cleanup_csi_hook_material.py:188-241 | the command is issued with its capped share of what is left of the deadline, waits for its process that long less the time spawning took, spends no more than that share in its waits, and starts no process on less than 10 ms; it counts as a success only if its process exited with zero, and without a signal exactly then; without a signal or a broken wait it adds at most two scheduling delays to the slack after it is issued |
| CleanupRunners.CappedIsBudgeted | scripts/cleanup_csi_hook_material.py:194-201 | a budget is the fraction of what is left or the cap, and exceeds neither |
| CleanupRunners.CleanupRunner.TerminateProcessGroup | scripts/cleanup_csi_hook_material.py:114-151 | SIGTERM at once, SIGKILL after a wait of at most the grace period, a last wait for no longer than the deadline handed in; it ends by that deadline and leaves no live process |
| CleanupRunners.World.Wait | scripts/cleanup_csi_hook_material.py:226-239 | a wait honours its timeout, and the time it takes and its answer (exit code, timeout or error) are on the account of the running command |
| CleanupRunners.Decay | scripts/cleanup_csi_hook_material.py:188-196 | spending a fraction f of the rest leaves at least 1 - f of any reserve, up to the slack |
| CleanupRunners.EqualShares | scripts/cleanup_csi_hook_material.py:379-385 | offering one of m remaining commands 1/m of the rest leaves every later one an equal share |
| CleanupRunners.SecretsGetTheirShare | scripts/cleanup_csi_hook_material.py:358-385 | in any ledger of issued commands that accounts for all time and that no signal disturbed, the first Secret command is issued with at least 0.95^3 * 0.6 * 0.45 of the timeout left, and each of the n has a budget of 1/n of that, up to the slack that has passed |
| CleanupRunners.SecretsInTime | scripts/cleanup_csi_hook_material.py:358-385 | if no wait broke either, that slack is at most sixteen scheduling delays at the first Secret command and three more at each later one |
| CleanupRunners.CleanupHookMaterial | scripts/cleanup_csi_hook_material.py:271-387 | the cleanup keeps such a ledger: commands in order, each with its own fraction and cap, no command with more time left than the timeout allows; Secrets only if the processes of both drains exited with zero, and without a signal exactly then; so the Secrets get their reserve and shares in time; True iff every process exited with zero and no signal came |
| SealedPlan.CopyPlan | scripts/immutable_plan_snapshot.py:40-51 | however the stream is chunked the destination and the digest are the whole stream, or it is empty or too large, and the destination never holds more than the limit |
| SealedPlan.SnapshotPlan | scripts/immutable_plan_snapshot.py:179-213 | succeeds iff what stood at the plan path when it was opened is a regular file within the bounds, and then holds exactly its bytes, whatever is put at the path later |
| SealedPlan.EnforcePolicy | scripts/seal_terraform_plan.py:78-114 | from offset zero the verdict is the policy's on the whole snapshot |
| SealedPlan.EncryptSnapshot | scripts/seal_terraform_plan.py:124-154 | from offset zero the ciphertext is that of the whole snapshot |
| SealedPlan.Seal | scripts/seal_terraform_plan.py:186-220 | for every schedule of replacements: success iff what stood at the plan path when it was opened can be copied and passes the policy, the tools succeed and neither removal finds a directory, all read off the inputs; the digest, the verdict and the ciphertext are of those bytes; artifacts are left iff the body succeeded, the plan only as a directory |
| SealedPlan.DirectoryLeavesArtifacts | scripts/seal_terraform_plan.py:214-220 | a directory put at the plan path before the last removal makes seal fail with both artifacts left |
| SealedPlan.Apply | scripts/apply_terraform_plan.py:65-138 | Terraform runs iff the artifact decrypts to a plan of allowed size with the approved digest, and reads exactly those bytes; an artifact that was opened is removed, while a link, which is not opened, and a directory stay |
| SealedPlan.DigestsAdmitted | scripts/apply_terraform_plan.py:28-28 | an approved digest is 64 digits of base sixteen with small letters, and every such string is one |
| SealedPlan.SealThenApply | scripts/apply_terraform_plan.py:263-281 | whatever is put in the artifact's place, what is applied under the sealed digest is byte for byte what stood at the plan path when seal opened it, and passed the policy; left alone, it is applied |
| ColorTokens.ResolvesIffPathsAreClean | scripts/check_dashboard_contrast.py:43-67 | a token of any table resolves iff no chain of references from it repeats a key or meets a missing or ill-formed one |
| ColorTokens.ResolvesIffNoCycle | scripts/check_dashboard_contrast.py:43-67 | with all references present and leaves well formed it resolves iff no cycle is reachable, and fails only as circular |
| ColorTokens.SeenNeverChangesColor | scripts/check_dashboard_contrast.py:43-67 | the keys seen on the way can reject a token but never change its colour |
| ColorTokens.ResolvesToItsParts | scripts/check_dashboard_contrast.py:47-67 | a resolved alias has its target's colour and a resolved mix is the mix of its parts' own colours |
| ColorTokens.ErrorsNameTheirCause | scripts/check_dashboard_contrast.py:43-67 | an error names the key at the end of a chain of references: one that repeats, is missing, or is no colour |
| ColorTokens.MixPremultiplies | scripts/check_dashboard_contrast.py:54-66 | a mix averages alphas by weight, and likewise the channels multiplied by their alphas |
| ColorTokens.WeightIsSafeIffFraction | scripts/check_dashboard_contrast.py:54-66 | a weight keeps every mix of colours in range iff it lies in [0, 1] |
| ColorTokens.ResolvedInRange | scripts/check_dashboard_contrast.py:43-67 | with leaves in range and weights at most 100 per cent every resolved colour has channels in [0, 255] and alpha in [0, 1] |
| ColorTokens.CompositeIsMix | scripts/check_dashboard_contrast.py:24-27 | compositing on an opaque background is mixing by the foreground's alpha, and stays in range |
| ColorTokens.LuminanceAndContrast | scripts/check_dashboard_contrast.py:30-40 | each primary counts with its weight in linear light and they add up; contrast is the factor between the luminances, each raised by 0.05 |
| ColorTokens.ContrastBounds | scripts/check_dashboard_contrast.py:30-40 | contrast is symmetric and between 1 and 21 for any transfer curve of [0, 1] into itself |

## Left out

- ColorTokens.ResolvedInRange: one direction only over a whole table, because an out-of-range mix can be corrected by a later one or have alpha zero; per mix the condition is exact in WeightIsSafeIffFraction.
- ColorTokens.ContrastBounds: the transfer curve with its power of 2.4 is any function of [0, 1] into itself.
- CleanupRunners.CleanupHookMaterial: time that passes outside budgeted waits is summed in `slack` and subtracted from the bounds; scheduling and spawning take at most `delay` at a time, so slack is bounded unless a signal came or a wait broke, whose escalation may use all that is left; signals arrive where the runner is suspended or has just started a process, not between any two bytecodes.
- SealedPlan.Seal: covers returns and `Exception` exits; a `BaseException` such as KeyboardInterrupt removes the plan but not the artifacts in the code too. The other process replaces the plan path, not the artifact paths, and the checksum path is never a directory.
- SealedPlan.Apply: failures of descriptors, memfd seals and process start are part of `decryptCompletes`; signals and process groups during `terraform apply` are not modelled.
- CreateGuard.OneInsideAnywhere: a database connection lost while the body runs releases the advisory lock early; that, and a crash of a replica, is not modelled.
- CreateGuard.EveryScheduleEmptiesGuard: a scheduler that takes possible steps empties the guard; that one task is not overtaken by new entries for ever is not promised by polling locks, and not stated.
- HttpRetry.ReadBounded: a body that the transport has already consumed is the case of one chunk.
- StreamLeases and WindowLimit: keys are the subjects themselves, not their SHA-256 tokens; the wrappers' clamping of limits, windows and times to live to at least one is the type `Positive`; `check_window`'s namespace test and empty request are single branches.
- Redis, PostgreSQL, httpx, httpcore, asyncio, subprocess, OpenSSL and memfd: only the atomic effect, the settled or cancelled outcome, or the timeout that the code relies on.
- IEEE-754 rounding and overflow: seconds, jitter and colour channels are reals, so `_delay`'s overflow branch coincides with its cap.
- JSON decoding itself (duplicate members, number ranges, content types): separate checks behind the scan.
- The pattern matching of colour strings: tokens arrive already read as alias, mix or leaf.
- The synchronous DNS resolver, `read_stream_error_preview`, readiness checks, address tables and deny lists, kubectl arguments and duration formatting: little beyond their branches.
- Deployment, seeding, settings, the dashboard and the command line: flat validation, plumbing, or easier repetitions of the flows above.
