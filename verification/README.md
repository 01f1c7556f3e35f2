# Verified models of the workflow engine's hard cores

This project models, in Dafny 4.11, the parts of the repository whose correctness rests on an argument rather than
on a single function body, and proves what they promise. Objects that change in place are classes whose methods are
proved equal to one step of a specification; the theorems are about all inputs, all runs or all reachable states of
that specification.

| Files | System part |
|---|---|
| `CodeUnits`, `JsonText`, `JsonBounds`, `CodeEncoder` | the bounded JSON encoder of Code step outputs, over an arbitrary and possibly cyclic heap |
| `RateLimit`, `LocalLimiter`, `RedisLimiter`, `RateLimitParity`, `LocalLimiterPromises`, `RateLimitWindows` | the in-process rate limiter, the Redis script, the simulation between them, and the window arithmetic in seconds |
| `TaskPool`, `TaskProcessPool` | the pool of single-use task processes as a protocol of steps between awaits |
| `SyscallFilter` | the seccomp filter: jump code against first-match rules |
| `UriText`, `InvocationKey`, `Joins` | execution identities and their partial reader, and the join ledger |
| `LatestSignals`, `InboxHub`, `InboxHubSafety`, `InboxHintHub` | the coalescing mailbox of an inbox and the hub that shares one Redis subscriber |
| `WorkflowGraphs`, `SchedulerProjection`, `Templates` | searches in nested graphs, flattening for the scheduler, verification of curated templates |
| `Packages`, `CodeText`, `TaskLogs` | dependency closure of allowed packages, and capturing log lines from chunks |
| `Wrappers`, `Sequences` | an option type and two facts about concatenation |

`dafny verify dfyconfig.toml` checks everything.

## Where the code does less than its text says

* `packages/rate-limit/src/local-rate-limiter.ts:15-19` announces the same rule as the Redis script. Verdicts, quotas
  and counts do agree (`RateLimitParity.Parity`). Redis caps a reported wait at 60 s, so waits agree exactly while no
  refusing counter has longer to go; the dimension that a refusal names agrees exactly when the last one to refuse has
  the longest wait (`RateLimitParity.NamesAgreeExactlyWhen`); and without room for all live counters the limiters part
  (`RateLimitParity.WithoutRoomTheyPart`).
* `close` of the process pool awaits what is owned when it is called. It is certain to leave nothing alive exactly when
  no run is awaiting a live Python start at that moment (`TaskPool.CloseIsCleanExactlyWhen`).
* `invocationKey` encodes each joined path as a whole, so slashes inside parts collide
  (`InvocationKey.KeysCanCollide`); without them, no branch part and one empty part are the only paths that look alike
  (`InvocationKey.KeysAreUnique`).
* Log capture is independent of chunking exactly when no cut can leave more than 16 Ki code units of a line open
  (`TaskLogs.ChunksMatterExactlyWhen`); `TaskLogs.SomeSnapshotsDiffer` shows a stream where it is not.

## How the models stand for the code

* Node ids are distinct across all depths of an executable graph: graph validation refuses others
  (`packages/workflow-model/src/graph/validation/structure.ts:47-58`).
* Texts are sequences of UTF-16 code units where the code measures, escapes or compares them, and plain strings where
  it only passes them on.
* Clocks, the machine's files and Node's resolution, the UTF-8 decoder of a stream, `JSON.parse` with a schema, and the
  endpoint syntax of a setup value are parameters. The decoder is only required never to take back what it emitted.
* Redis is a map from key to count and expiry, live while now is before the expiry; script runs are atomic. Redis'
  publish/subscribe side is the ordered list of commands sent.
* A process is starting, alive or dead and may die at any time; a promise settles once, and reactions to it run in the
  order in which they were registered.
* Canonical JSON texts and digests are taken as injective, so comparing them is comparing the values.
* Maps and sets whose order nobody reads are maps and sets; the local limiter's counters keep their insertion order.

## Model

| member | source | states |
|---|---|---|
| CodeEncoder.EncodeCodeJson | apps/code-runner/src/execution/encode.ts:28-157 | For every heap of plain values with safe integers, cyclic heaps included, it returns a text exactly if the value unfolds to a tree within the byte, member and depth limits; the text reads back (by an independent RFC 8259 reader) as that tree and stays within the byte limit |
| CodeEncoder.Encoder.Walk | apps/code-runner/src/execution/encode.ts:103-154 | Terminates on every heap by the measure "members left"; success appends exactly the unfolding's text and charges it; a refusal means that no unfolding fits or that the value recurs below an ancestor; never more than members + 1 visits |
| CodeEncoder.Encoder.WalkReference | apps/code-runner/src/execution/encode.ts:128-153 | The same for objects: proxies, foreign prototypes, depth and ancestors are checked before anything is written, so shared objects are encoded at each occurrence and cycles never |
| CodeEncoder.Encoder.WalkArray | apps/code-runner/src/execution/encode.ts:40-71 | An array is encoded exactly if it has no holes, accessors or extra properties and each element is |
| CodeEncoder.Encoder.WalkObject | apps/code-runner/src/execution/encode.ts:73-101 | An object is encoded exactly if all own properties are enumerable data under string keys and each value is, in key order |
| CodeEncoder.Encoder.Append | apps/code-runner/src/execution/encode.ts:32-39 | Text is added only while the byte total fits, and the total is always the UTF-8 length of the text |
| CodeEncoder.ObjectsUnfold | apps/code-runner/src/execution/encode.ts:73-101 | Exactly these objects have an unfolding: no proxies, with the plain prototype or none, every own key a string with an enumerable data property whose value has one; entries in key order |
| CodeEncoder.ArraysUnfold | apps/code-runner/src/execution/encode.ts:40-71 | Exactly these arrays have one: no proxies, with the array prototype, own keys the length and every index only, each an enumerable data property whose value has one |
| CodeEncoder.UnfoldingIsUnique | apps/code-runner/src/execution/encode.ts:103-157 | A value has at most one unfolding, so "the" tree of the text is well defined |
| CodeEncoder.CyclesHaveNoUnfolding | apps/code-runner/src/execution/encode.ts:142-147 | A value that reaches itself by any number of steps has no unfolding, hence no encoding |
| JsonText.PrintThenParse | apps/code-runner/src/execution/encode.ts:25-27 | Printing any tree and reading the text by sections 2 to 7 of RFC 8259 gives the tree back |
| JsonText.StringRoundTrip | apps/code-runner/src/execution/encode.ts:120-127 | Quoted strings, with escapes, lone surrogates and pairs, read back unchanged |
| JsonText.NumberRoundTrip | apps/code-runner/src/execution/encode.ts:116-118 | The exact digits of an integer, which is what String writes for safe integers, read back whatever delimiter follows |
| JsonText.EscapeIsShortest | apps/code-runner/src/execution/encode.ts:120-127 | A character is escaped only where JSON demands it, with two characters where there is such an escape and else with lower-case hexadecimal digits; so the byte limit is charged for no more than JSON.stringify would write |
| UriText.Utf8LengthIs | apps/code-runner/src/process/logs.ts:55-55 | The length of a text in bytes is the number of UTF-8 bytes that percent-encoding writes for it, each lone surrogate counting as the replacement character |
| JsonBounds.PrefixCosts | apps/code-runner/src/execution/encode.ts:57-69 | Every prefix of an array or object, and the entry after it, is paid for in bytes, members and depth, so refusing early never refuses a tree that fits |
| RateLimit.AssertDecision | packages/rate-limit/src/distributed-rate-limiter.ts:86-115 | True exactly for a positive window and a non-empty list of dimensions with positive limits and pairwise distinct keys |
| LocalLimiter.LocalRateLimiter.Consume | packages/rate-limit/src/local-rate-limiter.ts:25-67 | Answer and new table are the two-phase fixed-window step: nothing is counted before every dimension has been asked |
| LocalLimiter.LocalRateLimiter.FindLimited | packages/rate-limit/src/local-rate-limiter.ts:34-40 | Drops expired counters on the way and finds the longest wait, first among equals |
| LocalLimiter.LocalRateLimiter.CountAll | packages/rate-limit/src/local-rate-limiter.ts:48-65 | Counts every dimension once and reports the tightest remaining budget |
| LocalLimiter.LocalRateLimiter.Live | packages/rate-limit/src/local-rate-limiter.ts:69-74 | Asking for a counter finds it exactly while it lives, and what it forgets on the way no one could see: the live counters and every view stay the same |
| LocalLimiter.LocalRateLimiter.Count | packages/rate-limit/src/local-rate-limiter.ts:49-54 | A live counter gains one and keeps its expiry; a new one starts a window after room has been made |
| LocalLimiter.LocalRateLimiter.Evict | packages/rate-limit/src/local-rate-limiter.ts:76-83 | Below the bound it changes nothing; at the bound it frees all expired counters, and the oldest one only if the table is then still full |
| LocalLimiter.SweepKeepsLive | packages/rate-limit/src/local-rate-limiter.ts:78-79 | The sweep keeps exactly the live counters, unchanged |
| LocalLimiter.ForgetsTheOldest | packages/rate-limit/src/local-rate-limiter.ts:80-82 | Where every counter is live, making room forgets exactly the one at the front of the insertion order |
| LocalLimiter.NewestIsLast | packages/rate-limit/src/local-rate-limiter.ts:49-54 | A new counter goes to the end of that order and a counted one keeps its place, so the front is the oldest |
| LocalLimiter.BumpViews | packages/rate-limit/src/local-rate-limiter.ts:49-54 | Counting a key changes no other counter, except one forgotten to make room |
| LocalLimiter.CountedWithRoom | packages/rate-limit/src/local-rate-limiter.ts:48-65 | While all live counters fit, the eviction machinery is invisible: each counter is as the fixed-window rule says |
| RedisLimiter.Redis.EvalConsume | packages/rate-limit/src/distributed-rate-limiter.ts:32-67 | The Lua script as one atomic step on an expiring store: its reply and the whole new store |
| RedisLimiter.DistributedRateLimiter.Consume | packages/rate-limit/src/distributed-rate-limiter.ts:131-187 | Invalid decisions touch nothing; otherwise the script's reply is interpreted, with waits rounded up and capped at 60 s |
| RateLimitParity.ParityStep | packages/rate-limit/src/local-rate-limiter.ts:15-67 | From agreeing counters one request gets the same verdict, quota and counters from both limiters, and the same wait if and only if no refusing counter has more than 60 s to go |
| RateLimitParity.Parity | packages/rate-limit/src/distributed-rate-limiter.ts:32-67 | Over every run with a non-decreasing clock and room for live counters each answer matches, the waits if and only if no refusing counter of that moment has more than 60 s to go, and the live counts end equal |
| RateLimitParity.FreshLimitersAgree | packages/rate-limit/src/distributed-rate-limiter.ts:32-67 | Two empty limiters agree, so runs from the start are covered |
| RateLimitParity.MinuteWindowsAgree | packages/rate-limit/src/distributed-rate-limiter.ts:179-186 | With windows of at most a minute all answers of a run are the same, waits included |
| RateLimitParity.WithoutRoomTheyPart | packages/rate-limit/src/local-rate-limiter.ts:76-83 | The room condition is exact: admitting a decision whose counters do not fit makes the limiters disagree |
| RateLimitParity.TableStaysBounded | packages/rate-limit/src/local-rate-limiter.ts:76-83 | The local table never exceeds its 50000 counters |
| RateLimitParity.LocalNames | packages/rate-limit/src/local-rate-limiter.ts:34-46 | The local refusal names the first dimension with the longest wait |
| RateLimitParity.RedisNames | packages/rate-limit/src/distributed-rate-limiter.ts:37-50 | The script names the last dimension that refuses |
| RateLimitParity.NamesAgreeExactlyWhen | packages/rate-limit/src/distributed-rate-limiter.ts:37-50 | For every decision, also with several dimensions of one kind: the local limiter names the first of the longest waits, the script the last dimension to refuse, and these are the same if and only if the last one to refuse has the strictly longest wait |
| RateLimitParity.NamesCanDiffer | packages/rate-limit/src/distributed-rate-limiter.ts:37-50 | A concrete pair of agreeing states in which one limiter names the address and the other the account |
| LocalLimiterPromises.LiveCountWithinLimit | packages/rate-limit/src/local-rate-limiter.ts:34-54 | In every run that always uses one limit and one window of so many seconds for a key and never forgets it, its live count stays within the limit and its counter has at most that many seconds to go |
| LocalLimiterPromises.TwiceTheLimit | packages/rate-limit/src/local-rate-limiter.ts:34-54 | In every such run any closed stretch of 1000 ms for each second of the window holds at most twice the limit of admitted requests |
| LocalLimiterPromises.RefusalIsHonest | packages/rate-limit/src/local-rate-limiter.ts:41-46 | Without other traffic a refused decision is admitted from the promised moment on, and not a full second earlier |
| LocalLimiterPromises.QuotaIsExact | packages/rate-limit/src/local-rate-limiter.ts:47-66 | A reported remaining budget is exactly how many more identical requests pass before an involved counter expires |
| RateLimitWindows.FreshWindow | packages/rate-limit/src/local-rate-limiter.ts:48-65 | A decision without live counters opens a window of exactly its seconds on both limiters: the answer says so and gives the least limit but one, and each counter lives before 1000 ms for each of its seconds have gone by and is gone from then on |
| RateLimitWindows.OnePerWindow | packages/rate-limit/src/local-rate-limiter.ts:34-54 | With a limit of one, the next request is admitted if and only if that window is over |
| RateLimitWindows.QuotaSpeaksOfTheTightest | packages/rate-limit/src/local-rate-limiter.ts:47-66 | An admitted quota gives limit, remaining budget and reset of the first dimension with the least budget left, the reset rounded up to seconds |
| RateLimitWindows.RedisWait | packages/rate-limit/src/distributed-rate-limiter.ts:179-186 | A wait from the script is rounded up to seconds, at least one and at most a minute; a reply without a wait or a dimension is refused |
| RateLimitWindows.WithoutLifetime | packages/rate-limit/src/distributed-rate-limiter.ts:37-50 | A refusing counter without a lifetime is taken to have a whole window to go |
| RateLimitWindows.CountersAreShared | packages/rate-limit/src/local-rate-limiter.ts:27-30 | Two dimensions of any two decisions share a counter exactly if class, kind and identifier are the same |
| TaskPool.StepInv | apps/code-runner/src/process/pool.ts:24-119 | Every step between two awaits, overlapping run calls included, keeps the invariant: each ordinal has one holder, and only the holder's process can live |
| TaskPool.ReachableInv | apps/code-runner/src/process/pool.ts:7-122 | So does every interleaving of starts, failures, exits, run calls, swaps, releases and closing from the beginning |
| TaskPool.OneProcessPerOrdinal | apps/code-runner/src/process/pool.ts:24-119 | No two live processes ever share an ordinal, hence a uid |
| TaskPool.ProcessesAreSingleUse | apps/code-runner/src/process/pool.ts:81-119 | No process is ever given a second task, also when run is called again while it is under way |
| TaskPool.OverlappingRunIsRefused | apps/code-runner/src/process/pool.ts:91-94 | Any run call after the first, at any stage of the first, is refused and changes nothing |
| TaskPool.TasksRunInTheirLanguage | apps/code-runner/src/process/pool.ts:95-107 | In every reachable state, a process that was given a task was started for the language of that task |
| TaskPool.AcceptedRun | apps/code-runner/src/process/pool.ts:91-99 | An accepted JavaScript run gives its task to the reserved process at once and touches nothing else; an accepted Python run gives it to no process yet |
| TaskPool.WhoIsGivenATask | apps/code-runner/src/process/pool.ts:91-107 | A process is given a task only by such a run, or by a Python restart that succeeded, and then it is the reserved or the restarted one |
| TaskPool.OrdinalsArePartitioned | apps/code-runner/src/process/pool.ts:18-60 | In an open pool idle, preparing and reserved ordinals partition all ordinals and add up to the concurrency: none is lost |
| TaskPool.OwnsOnlyHeld | apps/code-runner/src/process/pool.ts:24-117 | In every reachable state the pool owns only processes that are idle or reserved: one that ended, was swapped out or released is forgotten |
| TaskPool.CloseLeavesOnlyStrays | apps/code-runner/src/process/pool.ts:61-67 | When close returns nothing lives but Python processes whose start a run was awaiting at the call |
| TaskPool.CloseIsCleanExactlyWhen | apps/code-runner/src/process/pool.ts:61-67 | From every reachable state: every completed close leaves nothing alive if and only if no run was awaiting a live Python start at the call |
| TaskPool.StrayCanOutlive | apps/code-runner/src/process/pool.ts:61-67 | Each process that is being started at the call can outlive close: everything close waits for may go first |
| TaskPool.CloseCanMissARestart | apps/code-runner/src/process/pool.ts:61-67 | A reachable state and an interleaving in which such a process outlives close |
| TaskPool.ReleaseMustFollowRun | apps/code-runner/src/process/pool.ts:109-117 | Releasing while run still swaps would give one ordinal two live processes; the server awaits run first |
| TaskProcessPool.Pool.constructor | apps/code-runner/src/process/pool.ts:18-23 | Starts valid and safe: each ordinal is in preparation, with exactly the one live process that was spawned for it |
| TaskProcessPool.Pool.Open | apps/code-runner/src/process/pool.ts:68-80 | From here on idle, preparing and reserved ordinals add up to the concurrency |
| TaskProcessPool.Pool.StartSucceeded | apps/code-runner/src/process/pool.ts:30-46 | Keeps the pool valid and safe: the started process is the only one that may live under its ordinal, and in an open pool the ordinal has moved from preparation to idle |
| TaskProcessPool.Pool.StartFailed | apps/code-runner/src/process/pool.ts:47-53 | Keeps the pool valid and safe: nothing lives under the ordinal, and a later preparation in an open pool is not lost |
| TaskProcessPool.Pool.DelayEnded | apps/code-runner/src/process/pool.ts:28-33 | Keeps the pool valid and safe: an open pool has exactly one live process under the ordinal, a new one; a closed pool has none |
| TaskPool.SpawnedAlone | apps/code-runner/src/process/pool.ts:56-60 | A process spawned for an ordinal where none lived is the only one there, under a number never used before |
| TaskProcessPool.Pool.ExitSeen | apps/code-runner/src/process/pool.ts:40-45 | Keeps the pool valid and safe: an idle process that died is replaced by exactly one live, new process and its ordinal goes to preparation; the exit of any other process moves no slot and spawns nothing |
| TaskProcessPool.Pool.Reserve | apps/code-runner/src/process/pool.ts:81-90 | Keeps the pool valid and safe: takes the first idle slot, and gives a reservation exactly if the pool is open and a slot is idle |
| TaskProcessPool.Pool.Run | apps/code-runner/src/process/pool.ts:91-97 | Keeps the pool valid and safe: accepted exactly if unused, unreleased and open, then nothing was under way; an accepted JavaScript task is given to the reserved process, a Python task to none yet, and no process is stopped or started; a refused call, overlapping ones included, changes nothing |
| TaskProcessPool.Pool.SwapStopped | apps/code-runner/src/process/pool.ts:97-104 | Keeps the pool valid and safe: afterwards a new process is the only live one under the ordinal, or none is if the pool is closed or the run canceled |
| TaskProcessPool.Pool.RestartSucceeded | apps/code-runner/src/process/pool.ts:100-107 | Keeps the pool valid and safe: the process that runs now never ran before and is the only one that may live under its ordinal |
| TaskProcessPool.Pool.RunEnded | apps/code-runner/src/process/pool.ts:107-107 | Keeps the pool valid and safe: after a settled run nothing lives under its ordinal |
| TaskProcessPool.Pool.Release | apps/code-runner/src/process/pool.ts:109-112 | Keeps the pool valid and safe: a repeated release changes nothing, and no run is accepted afterwards |
| TaskProcessPool.Pool.ReleaseStopped | apps/code-runner/src/process/pool.ts:113-116 | Keeps the pool valid and safe: in an open pool the ordinal is in preparation with exactly one live, new process; in a closed pool nothing lives under it |
| TaskProcessPool.Pool.Close | apps/code-runner/src/process/pool.ts:61-64 | Keeps the pool valid and safe: whatever is alive is owned and awaited, under an ordinal in preparation, or a Python start that a run awaits |
| TaskProcessPool.Pool.OwnedStopped | apps/code-runner/src/process/pool.ts:64-65 | Keeps the pool valid and safe: whatever is still alive is under an ordinal in preparation or such a Python start |
| TaskProcessPool.Pool.PreparingSettled | apps/code-runner/src/process/pool.ts:65-66 | Keeps the pool valid and safe: when close returns, only such Python starts can be alive |
| SyscallFilter.FilterIsFirstMatch | apps/code-runner/native/launch.c:46-123 | For every rule list, call number, architecture and 64-bit arguments the compiled jump program returns what the first matching rule says, and always returns |
| SyscallFilter.RunBlock | apps/code-runner/native/launch.c:33-37 | Each block decides its own call and otherwise falls through to the next with the call number still in the accumulator |
| SyscallFilter.RunComparisons | apps/code-runner/native/launch.c:67-83 | The shrinking jump offsets of a comparison chain accept exactly the listed values |
| SyscallFilter.RunFlagTest | apps/code-runner/native/launch.c:56-65 | Both polarities of a flag test: refusing shared bits, or requiring them |
| SyscallFilter.SharedBits | apps/code-runner/native/launch.c:56-65 | A test for several flags finds any of them |
| SyscallFilter.ShadowedRuleIsDead | apps/code-runner/native/launch.c:56-105 | A later rule for a call that already has one never matters, as for the second mmap rule |
| SyscallFilter.FilterIsLoadable | apps/code-runner/native/launch.c:46-123 | The program passes the kernel's checks (8-bit jumps inside the program, aligned loads, a final return, at most 4096 instructions) if and only if the blocks leave room for the five instructions around them |
| SyscallFilter.AcceptedCodeReturns | apps/code-runner/native/launch.c:46-123 | Any program that passes those checks returns a verdict for every call data, wherever it is entered |
| SyscallFilter.LauncherAllows | apps/code-runner/native/launch.c:46-123 | The launcher's list allows exactly: opening for reading, private mappings, threads, listed fcntl and ioctl commands and the plain calls |
| InvocationKey.KeysAgreeExactlyWhen | packages/workflow-engine/src/invocation-identity.ts:4-24 | Two identities share a key if and only if version, step and both joined paths agree |
| InvocationKey.KeysAreUnique | packages/workflow-engine/src/invocation-identity.ts:4-24 | With slash-free branch parts and loop ids two identities share a key if and only if they are equal, or differ only in having no branch part and one empty branch part |
| InvocationKey.KeysCanCollide | packages/workflow-engine/src/invocation-identity.ts:13-17 | Those two do share a key, and a slash in a part or a loop id makes further identities collide |
| InvocationKey.KeyLayout | packages/workflow-engine/src/invocation-identity.ts:13-23 | A key is version, step, branch parts and passes, each encoded, the last two joined by escaped slashes, in this order and with these separators; it is given out if and only if it has at most 256 characters |
| InvocationKey.MalformedExactlyWhen | packages/workflow-engine/src/invocation-identity.ts:17-17 | No key can be built if and only if one of the four parts holds a lone surrogate |
| InvocationKey.OrdinalIsExact | packages/workflow-engine/src/invocation-identity.ts:30-53 | The reader returns n if and only if the iteration path is the given path plus this loop's pass n below 10^9; never for a shallower, deeper or other scope |
| InvocationKey.MarkerFound | packages/workflow-engine/src/invocation-identity.ts:39-41 | The last marker in a key is the one the writer put before the iterations |
| UriText.EncodedInjective | packages/workflow-engine/src/invocation-identity.ts:17-17 | Percent-encoding is injective on all encodable texts, surrogate pairs included |
| UriText.EncodedConcatenation | packages/workflow-engine/src/invocation-identity.ts:42-51 | Encoding a concatenation is concatenating encodings wherever no surrogate pair is cut |
| UriText.EncodedPrefix | packages/workflow-engine/src/invocation-identity.ts:42-51 | An encoded prefix of an encoded text comes from a prefix of the text |
| UriText.EncodableExactlyWhen | packages/workflow-engine/src/invocation-identity.ts:17-17 | A text can be percent-encoded if and only if it holds no lone surrogate |
| UriText.UnreservedIs | packages/workflow-engine/src/invocation-identity.ts:17-17 | Left as they are: letters, digits and - _ . ! ~ * ' ( ) |
| Joins.RecordingIsConfluent | packages/workflow-engine/src/join-settlement.ts:91-119 | Any order and any identical redeliveries of a set of terminal updates leave the same ledger; a conflicting or undeclared set is refused in every order |
| Joins.RecordAllIs | packages/workflow-engine/src/join-settlement.ts:91-119 | Recording succeeds if and only if the updates agree with each other and with the ledger, and leaves exactly the merged entries in ascending order |
| Joins.RefusedBecause | packages/workflow-engine/src/join-settlement.ts:95-115 | A record is refused as undeclared if and only if no entry has its id, and as already terminal if and only if an entry of its id has ended otherwise |
| Joins.WaitingIffPending | packages/workflow-engine/src/join-settlement.ts:47-55 | A join waits if and only if its ids are unique and a branch is pending |
| Joins.InvalidIff | packages/workflow-engine/src/join-settlement.ts:38-87 | It is invalid if and only if the ledger is empty or ambiguous, or a settled one has an impossible count |
| Joins.WaitsForTheRest | packages/workflow-engine/src/join-settlement.ts:32-119 | After any accepted updates it waits exactly as long as some pending branch has no update |
| Joins.FreshRecordSettlesOne | packages/workflow-engine/src/join-settlement.ts:116-118 | A fresh record lowers the number of pending branches by one, a redelivery leaves it |
| Joins.EnoughRecordsSettle | packages/workflow-engine/src/join-settlement.ts:32-119 | As many fresh records as there are pending branches end the wait, and no fewer |
| Joins.SettledIsFinal | packages/workflow-engine/src/join-settlement.ts:91-115 | Once settled, whatever is still accepted is a redelivery and does not change the decision |
| Joins.AllIsExact | packages/workflow-engine/src/join-settlement.ts:47-70 | `all` succeeds if and only if nothing failed or was canceled, failure being reported first, and selects every arrival in order |
| Joins.QuorumIsExact | packages/workflow-engine/src/join-settlement.ts:47-88 | `any` and `count` succeed if and only if enough branches arrived, and select exactly the required number, the first in code-unit order |
| Joins.FirstArrivalsAreUnique | packages/workflow-engine/src/join-settlement.ts:63-69 | That description leaves no choice |
| Joins.DecidedLedger | packages/workflow-engine/src/join-settlement.ts:35-70 | Every decision carries exactly the entries it was made on, in ascending order of their ids |
| Joins.LessIsLexicographic | packages/workflow-model/src/values/ordering.ts:1-5 | That order is by code units: a proper prefix, or smaller at the first difference |
| Joins.OrderOfLedgerIsIrrelevant | packages/workflow-engine/src/join-settlement.ts:32-46 | Every permutation of a ledger settles alike, valid or not |
| LatestSignals.MailboxRefinesQueue | apps/api/src/notifications/inbox-hint-hub.ts:37-88 | With one consumer every delivery is the coalescing of all signals pushed since the last delivery, over every interleaving |
| LatestSignals.NothingIsLost | apps/api/src/notifications/inbox-hint-hub.ts:37-88 | Delivered batches, what close dropped and what is held together are exactly the accepted signals, in order |
| LatestSignals.NeverBoth | apps/api/src/notifications/inbox-hint-hub.ts:45-57 | A held signal and a waiting reader never coexist |
| LatestSignals.CloseSilences | apps/api/src/notifications/inbox-hint-hub.ts:59-66 | After close no signal is delivered: the waiting promise and all later ones say done |
| LatestSignals.TwoReaders | apps/api/src/notifications/inbox-hint-hub.ts:78-80 | One consumer is needed: a second next() makes the first promise never resolve |
| LatestSignals.LatestSignal.Push | apps/api/src/notifications/inbox-hint-hub.ts:45-57 | The object goes on showing its queue, to which the signal has been added or handed over |
| LatestSignals.LatestSignal.Close | apps/api/src/notifications/inbox-hint-hub.ts:59-66 | The object goes on showing its queue, which has dropped what was held and ended its reader; onClose follows exactly the first close |
| LatestSignals.LatestSignal.Next | apps/api/src/notifications/inbox-hint-hub.ts:70-82 | For a reader that is not already waiting the promise is the queue's next batch, coalesced, or stays open while the queue's reader waits |
| InboxHubSafety.StepInv | apps/api/src/notifications/inbox-hint-hub.ts:100-237 | Every handler and every stretch between awaits keeps the hub's invariant |
| InboxHubSafety.InvIsServed | apps/api/src/notifications/inbox-hint-hub.ts:139-237 | The invariant means: an open hub is subscribed to exactly what is watched, and every watcher is in the channel of its name |
| InboxHubSafety.SubscribedExactlyWhileWatched | apps/api/src/notifications/inbox-hint-hub.ts:139-237 | In every reachable open state the last command about a channel is SUBSCRIBE if and only if it is mapped, and that if and only if somebody watches it |
| InboxHubSafety.OpenInboxIsSubscribed | apps/api/src/notifications/inbox-hint-hub.ts:155-171 | Every inbox handed out and not closed is in its channel and its channel is subscribed |
| InboxHubSafety.OneCommandPerChange | apps/api/src/notifications/inbox-hint-hub.ts:139-237 | Every step sends exactly one SUBSCRIBE for a name that becomes mapped, exactly one UNSUBSCRIBE for one that stops being mapped, and otherwise nothing |
| InboxHubSafety.SilentUnlessSpokenTo | apps/api/src/notifications/inbox-hint-hub.ts:139-237 | An inbox is changed only by its own reader or close, by a valid hint for its workspace, by a ready after a lost connection, or by the closing hub |
| InboxHubSafety.MessageReaches | apps/api/src/notifications/inbox-hint-hub.ts:199-204 | A hint is received or held by every watcher of its workspace and by nobody else |
| InboxHubSafety.ReconnectResyncs | apps/api/src/notifications/inbox-hint-hub.ts:205-221 | Whatever happens between a lost connection and the next ready, everyone watching then receives or holds a resync |
| InboxHubSafety.ResyncOutlivesRuns | apps/api/src/notifications/inbox-hint-hub.ts:45-88 | A held resync survives every run until it is read or the inbox closes |
| InboxHubSafety.SubscriptionSettles | apps/api/src/notifications/inbox-hint-hub.ts:139-171 | A listener whose subscription Redis confirms is handed out; one it rejects first has its channel unmapped and then throws |
| InboxHintHub.RedisInboxHintHub.Subscribe | apps/api/src/notifications/inbox-hint-hub.ts:139-164 | Keeps the hub valid and serving: the new listener shares the mapped channel or a new one, whose name is watched and subscribed at once, with one command for a new channel and none for a shared one; a closed hub throws |
| InboxHintHub.RedisInboxHintHub.HandleRejection | apps/api/src/notifications/inbox-hint-hub.ts:156-161 | Keeps the hub valid and serving: the failed channel is not mapped and none of its listeners is promised anything; a name that another channel has taken stays |
| InboxHintHub.RedisInboxHintHub.ContinueSubscribe | apps/api/src/notifications/inbox-hint-hub.ts:165-171 | Keeps the hub valid and serving: an open inbox it returns is in the channel of its name, a listener it throws for is in no channel object, mapped or not |
| InboxHubSafety.AfterCloseListener | apps/api/src/notifications/inbox-hint-hub.ts:229-236 | After a listener closes, its channel is subscribed if and only if somebody else still watches the name |
| InboxHintHub.RedisInboxHintHub.CloseListener | apps/api/src/notifications/inbox-hint-hub.ts:59-66 | Keeps the hub valid and serving: the inbox is closed, and in an open hub the name stays subscribed if and only if somebody else watches it |
| InboxHintHub.RedisInboxHintHub.OnClose | apps/api/src/notifications/inbox-hint-hub.ts:205-213 | Keeps the hub valid and serving, and touches no inbox: only the next ready tells them |
| InboxHintHub.RedisInboxHintHub.OnMessage | apps/api/src/notifications/inbox-hint-hub.ts:199-204 | Keeps the hub valid and serving: every watcher of the workspace has received or holds the hint, every inbox of another one is unchanged, and a message without a valid hint changes no inbox |
| InboxHintHub.RedisInboxHintHub.OnReady | apps/api/src/notifications/inbox-hint-hub.ts:214-221 | Keeps the hub valid and serving: after a lost connection the nested loop leaves every watcher with a received or held resync; without one it changes no inbox |
| InboxHintHub.RedisInboxHintHub.CloseHub | apps/api/src/notifications/inbox-hint-hub.ts:174-184 | Keeps the hub valid: though each close shrinks the set being walked, no live listener and no channel is left, the connection is gone and nothing was sent |
| WorkflowGraphs.FindNodesIsFilter | packages/templates/src/verify.ts:59-66 | The recursive search finds all nodes with the id at every depth, in order |
| WorkflowGraphs.FindNode | apps/api/src/node-testing/prepare-node-validation.ts:80-95 | The search with an explicit stack returns a node if and only if the recursive search finds exactly one, and then that one |
| SchedulerProjection.NestingIsRebuiltExactlyWhen | packages/workflow-engine/src/operations.ts:81-122 | The nesting of any depth is rebuilt from the flat state if and only if no node without a body has the id of the next node, in preorder, that has one |
| SchedulerProjection.DistinctIsClear | packages/workflow-model/src/graph/validation/structure.ts:47-58 | Distinct ids, which validation demands across all depths, meet that condition |
| SchedulerProjection.ProjectionIsExact | packages/workflow-engine/src/operations.ts:86-119 | Under that condition two graphs project alike if and only if they differ in nothing but what the scheduler is not told: mappings, connections, retry, executor, policies, edge ids, settings, ports and loop limits |
| SchedulerProjection.ProjectionIsExactForDistinctIds | packages/workflow-engine/src/operations.ts:86-119 | The same for all graphs with distinct ids |
| SchedulerProjection.SharedIdsLoseTheNesting | packages/workflow-engine/src/operations.ts:111-118 | What the condition excludes: two graphs that only swap the owner of a body between nodes of one id project alike |
| SchedulerProjection.EachNodeOnce | packages/workflow-engine/src/operations.ts:86-119 | Every node of every depth occurs exactly once |
| SchedulerProjection.EachBodyOnce | packages/workflow-engine/src/operations.ts:111-118 | Every body occurs exactly once, under its node's id, outer before inner |
| SchedulerProjection.ProjectionMirrors | packages/workflow-engine/src/operations.ts:86-119 | Field by field: the i-th node and the i-th edge of the state say what the i-th node and edge of the graph say, source and target included, control and read-only mark exactly for the listed ids; and so for the nested graph of every node of every depth, in preorder and under that node's id |
| Templates.VerifyCuratedTemplateManifest | packages/templates/src/verify.ts:117-151 | Accepts exactly the reviewed base with only setup values replaced by valid ones, at every nesting depth, edge ids and loop limits included, and says which check failed otherwise; the base is a template of the catalog with the id, version and digest asked for |
| Templates.FirstMatchIs | packages/templates/src/verify.ts:128-133 | The first template of the catalog whose id, version and digest are all as asked for, and none if and only if there is no such template |
| Templates.RestoringIsExact | packages/templates/src/verify.ts:141-149 | Restoring all targets goes through if and only if every target holds, and gives the base if and only if nothing else differs |
| Templates.AssignChangesOnlyItsPlace | packages/templates/src/verify.ts:83-109 | Restoring a target changes nothing else in the nested graph |
| Templates.AssignedIsRead | packages/templates/src/verify.ts:90-109 | The restored value is read back at its own place and at no other |
| Templates.ValueAtIs | packages/templates/src/verify.ts:68-101 | A target has a value exactly if one node of all depths has its id and the value stands there in the config or as a literal input |
| Templates.FilledTemplateIsAccepted | packages/templates/src/verify.ts:117-151 | Every base filled in with valid values is accepted |
| Templates.SlackChannelIs | packages/templates/src/verify.ts:41-52 | A Slack channel id is one of C, D, G and U and then 1 to 127 capital letters or digits |
| Packages.ResolveCodePackages | apps/code-runner/src/process/packages.ts:17-88 | Terminates on every finite installation, cycles included; succeeds if and only if nothing reached fails, an optional package that is not installed never being a failure; the policy then is complete: every requested package and the SDK, and every dependency of every reached package, is found and may be read and, if allowed, used; roots are exactly what the allowed packages reach, read paths exactly the reached directories and the links to them |
| Packages.FindPackageManifest | apps/code-runner/src/process/packages.ts:90-119 | The upward loop terminates with the nearest claiming directory, or with the reason why there is none |
| Packages.ManifestIsNearest | apps/code-runner/src/process/packages.ts:90-119 | That answer is the nearest enclosing directory claiming the name, and fails only if there is none or an unreadable manifest lies before it |
| Packages.FinishedIsExact | apps/code-runner/src/process/packages.ts:41-81 | A finished worklist holds exactly what is reachable, though a package is expanded once per permission only |
| Packages.ChildIs | apps/code-runner/src/process/packages.ts:67-80 | What a found package adds: its dependencies as required and its optional dependencies as optional, both resolved from its own directory and with its permission, and nothing else |
| Packages.SeedIs | apps/code-runner/src/process/packages.ts:24-40 | It starts with the requested packages, required and allowed, and the SDK, required but not allowed, resolved from the runner |
| Packages.FailsExactlyWhen | apps/code-runner/src/process/packages.ts:44-58 | An item fails the call if and only if it names a builtin, is required and does not resolve, or resolves to a place without a readable manifest that claims the name |
| Packages.DistinctGrows | apps/code-runner/src/process/packages.ts:20-22 | Packages are listed once each, in the order of their first mention |
| TaskLogs.TaskLogCapture.Append | apps/code-runner/src/process/logs.ts:18-66 | Whatever the chunks so far, what is kept and the open line stay within their limits, and an overflow has been reported if and only if some chunk brought the stream above the wire limit or left too long a line open |
| TaskLogs.TaskLogCapture.AppendChunk | apps/code-runner/src/process/logs.ts:18-66 | The loop over newlines consumes exactly the complete lines of old rest plus new text, and an overflow of the wire or of the open line is reported |
| TaskLogs.TaskLogCapture.TakeOne | apps/code-runner/src/process/logs.ts:38-64 | A line is dropped if and only if it does not parse, 200 lines are held or its retained bytes do not fit; otherwise exactly its retained message is added; if nothing is marked as lost it is kept in full and printable |
| TaskLogs.TaskLogCapture.Snapshot | apps/code-runner/src/process/logs.ts:67-67 | What is handed out passes the diagnostics schema; it says that something was lost if and only if a chunk overflowed or the complete lines do not all fit, and holds every one of them otherwise |
| TaskLogs.ChunksMatterExactlyWhen | apps/code-runner/src/process/logs.ts:18-66 | Within the wire limit every way to cut a stream gives the capture of the whole stream if and only if no cut leaves more than 16 Ki units of a line open |
| TaskLogs.SameStreamSameSnapshot | apps/code-runner/src/process/logs.ts:18-67 | Lines of at most 16 Ki units meet that condition, so any two ways to cut such a stream end alike |
| TaskLogs.LongLinesDependOnChunks | apps/code-runner/src/process/logs.ts:27-35 | A longer line is kept if its newline comes with it and lost if it comes one chunk later |
| TaskLogs.SomeSnapshotsDiffer | apps/code-runner/src/process/logs.ts:27-35 | A concrete decoder, schema and stream of 16 Ki + 2 bytes whose two snapshots differ |
| TaskLogs.EveryStreamStaysWithin | apps/code-runner/src/process/logs.ts:52-64 | For every stream, oversized ones included, lines, bytes, characters and the open line stay within their limits and the text is storable |
| TaskLogs.TruncatedExactlyWhen | apps/code-runner/src/process/logs.ts:18-67 | Over every way to cut a stream: the capture is marked truncated if and only if a chunk overflows, a complete line does not parse, a printable message is longer than 2048, there are more than 200 lines, or their printable bytes exceed 65536; otherwise it holds every complete line, in order and in full |
| TaskLogs.ExceededExactlyWhen | apps/code-runner/src/process/logs.ts:18-36 | The caller is told of an overflow if and only if a chunk brings the stream above 512 KiB or leaves more than 16 Ki units of a line open; until then the state is that of the whole stream read at once |
| TaskLogs.LinesAreTheText | apps/code-runner/src/process/logs.ts:27-38 | The complete lines, each with its newline, and the open rest are the text, and no other newline is in it |
| CodeText.RetainedIsPrintable | apps/code-runner/src/process/diagnostics.ts:2-8 | Retained text is bounded, well-formed and free of NUL, and complete unless marked truncated |
| CodeText.RetainedKeepsTheFirst | apps/code-runner/src/process/diagnostics.ts:2-8 | Too long a text keeps its first characters, as many as allowed; only a surrogate pair that the cut splits is replaced |
| CodeText.WellFormedAt | apps/code-runner/src/process/diagnostics.ts:3-3 | Making text well-formed replaces exactly the lone surrogates, each in its place |
| CodeText.WellFormedExactlyWhen | apps/code-runner/src/process/diagnostics.ts:3-3 | Text is well-formed if and only if it has no lone surrogate |
| CodeText.CleanTextIsKept | apps/code-runner/src/process/diagnostics.ts:2-8 | Clean text is kept as it is if and only if it fits |

## Left out

- Numbers other than safe integers in JSON: their shortest decimal text is floating-point formatting. Fractions and integers beyond 2^53 - 1 are not values of the heap model.
- Iteration ordinals of 10^21 and above: `String` writes them with an exponent; the model writes all digits.
- RateLimit.AssertDecision: does not model the list of endpoint classes, the trimmed identifier and the upper bound of the window, which only refuse more decisions.
- RedisLimiter.DistributedRateLimiter.Consume: does not model malformed script replies, since the modelled script never sends one.
- TaskProcessPool.Pool.constructor: does not model the start-up check of Python or a disabled runner, which owns no slot.
- TaskPool.OneProcessPerOrdinal: assumes that a reservation is released only after its run has settled, as `apps/code-runner/src/transport/server.ts:66-88` does; TaskPool.ReleaseMustFollowRun shows why.
- TaskLogs.TaskLogCapture.Append: does not model UTF-8 decoding and JSON parsing themselves; both are parameters.
- Templates.VerifyCuratedTemplateManifest: does not model the manifest and origin schemas, which are given as parsed or refused, nor the endpoint syntax; `packages/templates/src/https-endpoint.ts` is not part of this model.
- Packages.ResolveCodePackages: does not model the order in which roots and read paths are listed; both are sets.
- Processes, sockets, pipes, frames, signals and resource limits behind a task slot (`apps/code-runner/src/process/slot.ts`): only its single use, its ordinal and its stopping are in the pool's model.
- Objects of the hub: listeners and channels are values in numbered tables, so two references to one listener are one number; iteration order over listeners is arbitrary.
- Timeouts of a subscription: the promise may settle either way at any time.
- Redis telemetry and the connection errors of the hub: they change no subscription.
- Which system calls the launcher lists and their numbers on each platform: the list is a parameter of the theorems.
- The wording of errors.
- Checkpoints, transitions, recovery and the database-backed use cases: they rest on modules and SQL outside these cores.
- Authorization tables, cursors, argument parsing and schemas: each is a finite or one-branch fact.
