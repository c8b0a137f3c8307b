# Verification of UCO's core

UCO is a coroutine runtime on io_uring. This project models its hand-written
concurrency primitives, its timer scheduler, and the parsers, indexes and
accounting around them, and proves what they promise.

Two kinds of model are used.

* **Concurrent code** is a state machine: a population of any size, one local state
  (program counter and registers) per coroutine, and a total function `Step` that
  performs one atomic operation, or one critical section where the source holds a
  lock. A run is any finite sequence of moves (`Interleavings.Run`), so a statement
  about every run is a statement about every interleaving. The primitives are layered:
  `PermitCounter` is the counting semaphore as its users see it. `Semaphore` proves that
  every run of `usema` is a run of it, one block of at most two moves of the same
  coroutine for each operation (`Semaphore.RunRefines`). `Mutex`, `SharedMutex`,
  `Channel` and `ConnectionPool`, which keep permit counts, prove both inclusions: each
  of their steps moves that counter by such a block, and each permit that the counter can
  hand to a waiter, or each dismissal after a kill, is a step of theirs. In the same way
  `OwnerLock` is the mutex as its users see it: every run of `umutex` is a run of it
  (`Mutex.IsOwnerLock`), and `SharedMutex` and `Channel`, which keep an owner bit,
  prove both inclusions.
  Safety and accounts are one half; the modules named `...Outcomes` hold the other: what
  each call comes to. They say in every run who wins, who gets what and who must wait
  (a late waiter turns starvation mode on, a wake breaks a sleep, the opener and everyone
  who joined return what the open gave), and from any reachable state how a call ends
  when nobody else moves ("alone").
* **Sequential code** that updates data in place is a class or a method with loops,
  proved against functions on values; the theorems are about those functions.

| module | models | steps or methods |
|---|---|---|
| `Collections`, `Interleavings` | stock value types; runs over every schedule, counting of coroutines | `Run`, `Count` |
| `PermitCounter`, `OwnerLock` | a semaphore and a mutex as their users see them | `Step` |
| `Semaphore`, `SemaphoreOutcomes` | `usema`, `kill_broadcast` | `StepWait`, `StepSignal` |
| `Mutex`, `MutexOutcomes` | `umutex` on its packed word | `StepDecide`, `StepWoke`, `StepUnlock`, `StepSettle` |
| `SharedMutex`, `SharedMutexOutcomes` | the compiled `ushared_mutex` | `StepWriter`, `StepReader`, `StepUnlock` |
| `Channel`, `ChannelOutcomes` | buffered `uchan` | `StepSend`, `StepReceive`, `StepClose` |
| `Sleeper`, `SleeperOutcomes` | `usleeper` and its arbitration with expiry | `StepSleep`, `StepWake`, `StepFire` |
| `WaitList` | `uco_linked_list` | `LinkedList` |
| `TimerHeap`, `TimerArm`, `TimerService` | the timer heap, the one kernel timeout, the expiry loop | `TimerHeap`, `Refreshed`, `ThreadTimers` |
| `Resp`, `RespLanguage`, `RespClient` | RESP2 serializer and incremental parser, and what RESP2 means without it | `Parser`, `Serialize`, `ReadReply` |
| `PathText`, `Routes`, `RoutePaths` | paths as text, the backtracking route trie, and which paths a route wins | `SplitPath`, `Insert`, `Dfs` |
| `RouteBindings`, `RouteTree` | what matches bind, and the trie in pointers | `PrefixTree` |
| `Lru`, `SingleFlight`, `FileOutcomes` | the cache of open files and its single-flight protocol | `LruCache`, `Step` |
| `ConnectionPool`, `PoolOutcomes` | the permit-limited pool | `StepGo`, `StepRelease`, `StepClose` |
| `SessionJson`, `JsonLanguage`, `Session` | flat JSON, what it means without the parser, and flash messages | `JsonFlatParser`, `Session` |
| `RateLimiter`, `RateOrder` | the fixed-window limiter, and calls served out of order | `Counter` |

## Findings

Where the code does not do what its comments say, the model follows the code.

* `AddFlash` says that a damaged value counts as empty. The strings that were read
  before the damage stay in the list; the value counts as empty exactly when no whole
  string could be read (`Session.DamagedCountsAsEmptyIff`, `Session.DamagedKeepsPrefix`).
* `ParseFlashArray` says that the whole text is checked. Its verdict is that of the
  whole text exactly when the text is not an empty array with something other than
  white space behind it; such a text is accepted (`SessionJson.WholeIff`).
* `Counter::Allow` reads the clock before it takes the lock, so a call of an earlier
  window may be served behind one of a later window. While the table has room for all
  keys, a key keeps within the limit of a window exactly when its calls of that window
  are served one behind the other among its own, or there are no more of them than the
  limit (`RateOrder.LimitIffTogether`). With more keys the clean-up can break the limit
  without any step back of the key itself, in every counter that `Make` makes
  (`RateOrder.SweepBreaks`, `RateOrder.CounterBreaks`). However many keys there are the
  limit holds if between two calls of the key in the window no call of a later window
  is served, of any key, nor one of its own of another window
  (`RateOrder.LimitIfUnbroken`).
* The route trie erases a parameter by name when it backtracks. Every request path is
  bound right exactly when no parameter name is used twice on the way to a node, and
  no wildcard name either, unless the table has parameters in the place of that wildcard
  that take all its paths (`RouteBindings.RightIffHarmless`; `RoutePaths.WinsIffUnshadowed`
  says exactly which wildcards win some path). A table that breaks this can lose a
  binding even of another pattern (`RouteBindings.ClashLosesBinding`).
* `timer_refresh` is called idempotent. With nobody asleep and a request in flight every
  further call with a free slot queues one more cancel; in all other cases a second call
  changes nothing (`TimerArm.IdempotentIff`).

## Model

| member | source | states |
|---|---|---|
| Semaphore.PermitsConserved | core/usync.cpp:637-743 | in every interleaving the count, the permits handed out and those in the hands of a wait about to return add up to the initial count plus the signals; a wait returns without a permit only after a kill |
| Semaphore.NwaitExact | core/usync.cpp:657-674 | with the spin lock free, nwait is the length of the waiter list, kill included, and the list holds each suspended unclaimed waiter exactly once |
| Semaphore.NoLostWakeup | core/usync.cpp:700-743 | while the list is non-empty the count is at most the woken waiters still retrying plus the signals past their increment and before their pop |
| Semaphore.PoppedIsResumed | core/usync.cpp:722-733 | a waiter off the list is the target of exactly one resumption, that of the coroutine that popped it |
| Semaphore.QuietSleepersLackPermits | core/usync.cpp:637-676 | with nobody on the move and somebody parked, the count is zero and no kill has happened |
| Semaphore.HandoverKeepsWake | core/usync.cpp:717-733 | a pop turns a signal that has not yet popped into a waiter that retries, so the wake-up balance is kept |
| Semaphore.TakeAllKeeps | core/usync.cpp:745-764 | the broadcast takes everybody off the list and becomes the only one to resume each |
| Semaphore.StepKeepsInv | core/usync.cpp:637-779 | each atomic operation of wait, try_wait, signal and kill_broadcast keeps all of the above together |
| Semaphore.StepRefines | core/usync.cpp:637-779 | each atomic operation of usema is one block of the counting semaphore: nothing, one move of the same coroutine, or the outcome of a call and its return; it publishes a permit iff a signal is counted, kills iff the semaphore is killed, and returns with a permit, or without one after a kill, iff that is counted |
| Semaphore.RunRefines | core/usync.cpp:637-779 | every run of usema is a run of the counting semaphore, operation by operation: the k-th block leads from what the callers see after k operations to what they see after k + 1 |
| SemaphoreOutcomes.WaitAlone | core/usync.cpp:637-656 | with a permit on offer wait, alone, takes it and returns |
| SemaphoreOutcomes.TryWaitAlone | core/usync.cpp:680-698 | try_wait, alone, takes a permit if there is one and otherwise returns without a trace |
| SemaphoreOutcomes.SpinsOut | core/usync.cpp:639-656 | without a permit a waiter, alone, spins as often as it may and then goes to the list |
| SemaphoreOutcomes.ParkAlone | core/usync.cpp:657-674 | it announces itself, looks again and parks, behind or before everybody as it asked |
| SemaphoreOutcomes.DismissedAlone | core/usync.cpp:657-663 | after a kill it returns without a permit |
| SemaphoreOutcomes.SignalWakesFront | core/usync.cpp:700-743 | in every run a signal, alone, publishes its permit and resumes the waiter at the front and no other |
| SemaphoreOutcomes.KillAlone | core/usync.cpp:745-779 | in every run kill_broadcast, alone, resumes everybody on the list |
| SemaphoreOutcomes.NoOvertaking | core/usync.cpp:657-733 | in every run a waiter that parks in turn does not leave the list before one that was there, and one that parks in front leaves before all of them |
| Mutex.MutualExclusion | core/usync.cpp:136-276 | in every interleaving at most one coroutine holds the mutex, one does iff the locked bit is set, and none of the three fatal branches is taken |
| Mutex.WordInBounds | core/usync.cpp:126-129 | the packed word never borrows across fields, its waiter field is at most the population, and starving implies not woken and a waiter |
| Mutex.NextWordFields | core/usync.cpp:166-187 | what the locker's arithmetic does to each field of the word, and that the woken bit is there when it is cleared |
| Mutex.NeverStrands | core/usync.cpp:149-276 | at most one token circulates, and with the word unlocked and a waiter registered there is one, or an unlocker still in its loop |
| Mutex.StarvingOnlyHandsOff | core/usync.cpp:206-220 | in every run, whoever becomes the holder of a starving mutex is its one heir, takes one waiter off, and was alone on the way |
| MutexOutcomes.LateTurnsStarving | core/usync.cpp:166-204 | in every run a coroutine woken late onto a mutex in normal mode remembers it whatever happens, and the step by which it registers again leaves the word starving |
| MutexOutcomes.OnceLateAlwaysLate | core/usync.cpp:204 | in every run lateness is remembered through every later sleep, until the lock is got |
| MutexOutcomes.LockerParks | core/usync.cpp:149-199 | in every run a locker behind a held mutex, alone, stops spinning and parks, and leaves the word starving if it was late |
| MutexOutcomes.NobodyBarges | core/usync.cpp:166-220 | in every run a starving mutex goes on starving and nobody acquires it until a hand-off |
| MutexOutcomes.UnlockMakesHeir | core/usync.cpp:205-274 | in every run the next unlock of a starving mutex issues its one permit, and the sleeper that takes it, alone, holds the mutex |
| MutexOutcomes.StarvationEndsIff | core/usync.cpp:213-219 | in every run the heir leaves the mutex starving iff it was late itself and not the last one waiting, whatever happens before its hand-off |
| MutexOutcomes.FreeIsTaken | core/usync.cpp:136-240 | in every run try_lock, and lock at its first step, get a mutex that nobody holds or waits for; whoever gets it found it unheld; a try_lock that fails leaves no trace |
| MutexOutcomes.LockAlone | core/usync.cpp:136-191 | in every run lock, alone, gets a mutex that is not held and does not starve within three steps |
| Mutex.QuietMeansFree | core/usync.cpp:242-276 | when everybody has left or sleeps and no permit is on offer, nobody sleeps and the word is zero |
| Mutex.HandoffKeeps | core/usync.cpp:213-219 | adding the hand-off delta moves the lock to the heir and leaves starvation mode consistently |
| Mutex.StepKeepsInv | core/usync.cpp:136-276 | each atomic operation of lock, try_lock and unlock keeps the token, waiter and mode accounting |
| Mutex.MovesCounter | core/usync.cpp:199-274 | each step of the mutex moves its semaphore by one block of the stepping coroutine |
| Mutex.CounterServes | core/usync.cpp:199-204 | whenever the counting semaphore can hand a permit to a parked coroutine, the mutex has a step that takes it and touches nothing else |
| Mutex.StepRefinesLock | core/usync.cpp:136-276 | each atomic operation of the mutex is one block of the owner lock: nothing, one call, acquisition or release by the same coroutine, or a call that acquires at once |
| Mutex.IsOwnerLock | core/usync.cpp:136-276 | every run of the mutex is a run of the owner lock, operation by operation |
| SharedMutex.WriterExcludesAll | core/usync.cpp:444-538 | with fewer than 2^30 readers at any time a writer in its section excludes all readers and writers in every run, permits being anonymous, and no fatal branch is taken |
| SharedMutex.FewCoroutines | core/usync.h:117-125 | a population of fewer than 2^30 coroutines never has too many readers |
| SharedMutex.CountersExact | core/usync.h:117-125 | the reader count and the countdown are exactly the readers inside, queued, granted and between their decrements |
| SharedMutex.NoDeadlock | core/usync.cpp:444-538 | when everybody has left or waits in vain, nobody waits |
| SharedMutex.HarmlessKeeps | core/usync.cpp:497-538 | a reader's step keeps what the owner of the writer mutex knows about the countdown |
| SharedMutex.StepKeepsInv | core/usync.cpp:444-538 | each atomic operation of the six calls keeps the accounts of readers, permits and countdown |
| SharedMutex.MovesCounters | core/usync.cpp:452-537 | each step of the lock moves each of its two semaphores by one block of the stepping coroutine |
| SharedMutex.CountersServe | core/usync.cpp:452-505 | whenever one of the two counting semaphores can hand a permit to a waiter, the lock has a step that takes it and leaves the other alone |
| SharedMutex.MovesLock | core/usync.cpp:444-496 | each step of the lock moves the mutex among writers by one block of the stepping coroutine |
| SharedMutex.LockServes | core/usync.cpp:444-450 | whenever that mutex is free a writer that wants it has a step that takes it and touches nothing else |
| SharedMutexOutcomes.ReaderEntersIff | core/usync.cpp:497-527 | in every run lock_shared and, alone, try_lock_shared enter iff no writer is announced; otherwise the first queues and the second leaves no trace |
| SharedMutexOutcomes.WriterEntersAlone | core/usync.cpp:444-474 | in every run lock and try_lock, alone, get a lock that nobody uses |
| SharedMutexOutcomes.TryLockGivesUp | core/usync.cpp:459-474 | in every run try_lock, alone, leaves no trace when a reader is inside or the mutex among writers is taken |
| SharedMutexOutcomes.WriterWaits | core/usync.cpp:444-457 | in every run a writer, alone, announces itself over the readers inside and waits for exactly those |
| SharedMutexOutcomes.LastReaderAdmits | core/usync.cpp:521-538 | in every run the last reader that an announced writer waits for lets it in |
| SharedMutexOutcomes.UnlockAdmits | core/usync.cpp:476-495 | in every run the unlock of a writer, alone, leaves a permit for every reader queued and the mutex among writers free |
| Channel.FirstInFirstOut | core/usync.h:481-540 | received followed by queued is the sent sequence in lock order, and the queue never exceeds its size |
| Channel.NoFalseMiss | core/usync.h:509-524 | a receive returns false only on a closed channel; before close a permit in hand means an item is there |
| Channel.MissMeansDrained | core/usync.h:509-532 | in every run a receive fails only on a closed channel from which every item ever accepted has been delivered |
| Channel.CloseUnblocks | core/usync.h:509-532 | after close, in every run, whoever is in a call can take its next step, or waits for the mutex and its owner can |
| Channel.QuietChannel | core/usync.h:481-524 | open and with nobody on the move, a sender waits only for a full queue and a receiver only for an empty one |
| Channel.StepKeepsInv | core/usync.h:481-532 | each atomic operation of send, receive and close keeps the permits of both semaphores equal to space and items |
| Channel.MovesCounters | core/usync.h:481-532 | each step of the channel moves each of its two semaphores by one block of the stepping coroutine |
| Channel.ItemsServe | core/usync.h:509-532 | whenever the item semaphore can hand a permit to a receiver, or turn it away after a kill, the channel has a step that is just that |
| Channel.SpaceServes | core/usync.h:481-532 | the same of the space semaphore and senders |
| Channel.MovesLock | core/usync.h:481-524 | each step of the channel moves its mutex by one block of the stepping coroutine |
| Channel.LockServes | core/usync.h:481-524 | whenever the mutex is free, whoever wants it has a step that takes it and touches nothing else |
| ChannelOutcomes.SendsConserved | core/usync.h:481-507 | in every run every item has been accepted as often as it was sent, but for the sends still on their way |
| ChannelOutcomes.SendAlone | core/usync.h:481-492 | with space, a send, alone, appends its item and announces it |
| ChannelOutcomes.ReceiveAlone | core/usync.h:509-524 | with an item, a receive, alone, takes the oldest and announces the space |
| ChannelOutcomes.CloseAlone | core/usync.h:526-532 | the first close, alone, closes the channel and kills both semaphores; another ends the process |
| Sleeper.ResumedExactlyOnce | core/usync.cpp:928-1013 | each accepted sleep returns exactly once, at most one is under way, and double push, double resumption and lost promise never happen |
| Sleeper.WakesConserved | core/usync.cpp:995-1013 | each wake either breaks one sleep or stays counted until a sleep_for consumes it |
| Sleeper.NeverAbandoned | core/usync.cpp:938-964 | a suspended sleeper is on the heap or being expired, or exactly one resumption for it is posted or about to be |
| Sleeper.StepKeepsInv | core/usync.h:420-434 | each atomic operation of sleep_for, wake, expiry and resumption keeps the arbitration |
| SleeperOutcomes.WakeWinsIff | core/usync.cpp:995-1013 | in every run a wake wins iff some sleep is registered and unresolved; otherwise it becomes pending |
| SleeperOutcomes.WinnerPosts | core/usync.cpp:1002-1004 | in every run the next step of the winner posts the sleeper, whatever happened since |
| SleeperOutcomes.WakeBreaksSleep | core/usync.cpp:966-1004 | in every run a wake on a suspended sleeper, with nobody else moving, ends the sleep as WOKEN and leaves nothing pending |
| SleeperOutcomes.ArbitrationIsFinal | core/usync.cpp:966-980 | in every run a sleep that a wake has won returns WOKEN and one that expired returns EXPIRED, whatever happens before |
| SleeperOutcomes.SleepForBegins | core/usync.h:420-434 | a sleep_for that finds wakes pending returns WOKEN at once and consumes exactly those; one of no time returns EXPIRED; only otherwise does it go for the slot |
| SleeperOutcomes.SleepAlone | core/usync.cpp:938-964 | in every run the claim of a vacant slot, alone, registers the sleep on the heap |
| SleeperOutcomes.SecondSleepIsBusy | core/usync.cpp:941-955 | in every run the claim of a taken slot returns BUSY and changes nothing else |
| SleeperOutcomes.SleepExpires | core/uco.cpp:569-608 | in every run an unresolved sleep that the scheduler expires ends as EXPIRED |
| WaitList.LinkedList.Push | core/uco.cpp:65-92 | links a node at the front or at the back, null without effect |
| WaitList.LinkedList.Pop | core/uco.cpp:94-107 | unlinks and returns the front node, null from an empty list |
| WaitList.LinkedList.TakeAll | core/uco.cpp:52-63 | empties the list and returns its nodes front first |
| TimerHeap.RootIsLeast | core/uco.cpp:565-569 | in a binary min-heap no element is less than the first |
| TimerHeap.SwapUp | core/uco.cpp:493-504 | an exchange with the parent moves the one disorder up |
| TimerHeap.SwapDown | core/uco.cpp:524-545 | an exchange with the least child moves the one disorder down, and keeps what the upward pass needs |
| TimerHeap.ChildrenOf | core/uco.cpp:526-540 | the two comparisons find the least child, or prove that there is no disorder below |
| TimerHeap.FillOrder | core/uco.cpp:518-521 | moving the last element into any slot disorders the heap there only |
| TimerHeap.TimerHeap.SiftUp | core/uco.cpp:493-505 | restores heap order upwards, keeps the elements and their back indices |
| TimerHeap.TimerHeap.SiftDown | core/uco.cpp:524-545 | restores heap order downwards; an element that moved is in order with its parent too; keeps the elements and their back indices |
| TimerHeap.TimerHeap.Push | core/uco.cpp:482-507 | adds exactly the node, or refuses one that is on the heap |
| TimerHeap.TimerHeap.Remove | core/uco.cpp:510-560 | removes exactly the node, from wherever it is, sifting down and then up |
| TimerHeap.TimerHeap.PopMin | core/uco.cpp:569-598 | removes exactly a node of least deadline, sifting down only |
| TimerArm.RefreshCovers | core/uco.cpp:614-674 | after a refresh, unless a retry is pending, some request in flight is cancelled or due no later than the heap top, and the accounts are exact |
| TimerArm.EarlyEnough | core/uco.cpp:634-639 | the early return of refresh is safe |
| TimerArm.NeverWithoutTimer | core/uco.cpp:614-674 | for every order of completions and every pattern of full queues no sleeper is left without a timer, all requests but the newest are cancelled and timer_inflight is their number |
| TimerArm.RetryEnds | core/uco.cpp:391-394 | in every run, after a submission that frees two slots and the retry of the scheduler nothing is pending and the heap top has its timer |
| TimerArm.AimedExactly | core/uco.cpp:640-673 | in every run a request is aimed exactly at the heap top of its moment, keeps its aim and leaves only by completing; none is submitted while nobody sleeps |
| TimerArm.SparesSlots | core/uco.cpp:634-639 | in every run, with a request in flight and no retry pending, a new top costs a submission iff it is due before the request aimed last |
| TimerArm.IdempotentIff | core/uco.cpp:612-674 | a refresh after a refresh changes nothing iff somebody sleeps, nothing is in flight, or no slot is free |
| TimerService.ThreadTimers.Refresh | core/uco.cpp:614-674 | the fields and the requests in flight move as the specification says |
| TimerService.ThreadTimers.Disarm | core/uco.cpp:617-633 | the branch of the empty heap |
| TimerService.ThreadTimers.Rearm | core/uco.cpp:640-673 | the branch that cancels and aims anew |
| TimerService.ThreadTimers.TimerPush | core/uco.cpp:482-507 | adds the node and leaves a timer for the new top |
| TimerService.ThreadTimers.TimerRemove | core/uco.cpp:510-560 | removes the node and leaves a timer for the new top |
| TimerService.ThreadTimers.StartSleep | core/usync.cpp:956-963 | a claimed sleep is on the heap with its deadline |
| TimerService.ThreadTimers.FireOne | core/uco.cpp:569-608 | one round pops a least deadline; of the others due exactly those that the resumed sleeper cancels leave, whatever else it does to the timers |
| TimerService.ThreadTimers.OnFire | core/uco.cpp:565-610 | the loop ends; the nodes popped were due, each is popped once, at its deadline, in the order of deadlines and never after it was cancelled; nobody is left due, and whoever was due was popped or cancelled by one that was |
| TimerService.ThreadTimers.Complete | core/uco.cpp:445-450 | a completion, cancelled or due, in any order, does the same and leaves a timer for the new top |
| Resp.ParseOneAppend | core/uredis.cpp:141-238 | a success or protocol error, with its reply and position, is unchanged by more bytes |
| Resp.PrefixNeedsMore | core/uredis.cpp:141-238 | every proper prefix of a complete reply needs more bytes |
| Resp.ParseIntSigned | core/uredis.cpp:114-139 | parse_int reads back every integer |
| Resp.RoundTrip | core/uredis.cpp:141-238 | every well-formed reply, anywhere in a stream and nested to any depth, parses back to itself and consumes exactly its bytes |
| Resp.BulkRoundTrip | core/uredis.cpp:182-206 | a bulk string is taken by its length, CRLF inside it included |
| RespLanguage.ReadIffSpelled | core/uredis.cpp:114-238 | anywhere in any stream a reply and a position are answered iff the bytes up to there spell that reply, as RESP2 says it without the parser |
| RespLanguage.RefusedIffRuined | core/uredis.cpp:141-238 | a protocol error is reported iff there is an unknown type byte, a line that is no number where one belongs, or an array with such an element; more bytes are asked for iff neither that nor a reply is there |
| RespLanguage.NegativeIsNil | core/uredis.cpp:190-222 | a negative count or length, printed anywhere, is the nil reply and takes exactly its line |
| RespLanguage.BadHeader | core/uredis.cpp:155-238 | an unknown type byte or a line that is no number is a protocol error, whatever follows |
| RespClient.Serialize | core/uredis.cpp:73-89 | the loop prints the array of bulk strings |
| RespClient.SerializedParses | core/uredis.cpp:73-89 | for every list of byte strings parse_one of serialize succeeds, consumes everything and yields exactly those strings |
| RespClient.Parser.FindLine | core/uredis.cpp:101-112 | finds the first CRLF at or after the cursor |
| RespClient.Parser.ReadNumber | core/uredis.cpp:209-217 | the line-and-number step of the cursor parser agrees with the grammar |
| RespClient.Parser.ReadOne | core/uredis.cpp:141-238 | the cursor parser agrees with the grammar: verdict, reply and position |
| RespClient.Parser.ReadBulk | core/uredis.cpp:182-206 | the bulk case agrees with the grammar |
| RespClient.Parser.ReadArray | core/uredis.cpp:207-234 | the element loop agrees with the grammar |
| RespClient.ReadReply | core/uredis.cpp:276-317 | the outcome is a function of the bytes received and of how the stream ends, an empty receive or an error, not of where it was split |
| RespClient.AnswerIffSpelled | core/uredis.cpp:276-317 | the answer is a reply iff the bytes received begin with its spelling, and a protocol error iff they are broken |
| RespClient.AnsweredWhole | core/uredis.cpp:276-317 | a reply sent whole is returned as such for every split and whatever follows |
| Routes.BuildMeaning | http/httpserver.cpp:1129-1171 | after any registrations a node ends a route iff a registered pattern has its shape, and holds their handlers in order |
| Routes.InsertMeaning | http/httpserver.cpp:1129-1171 | one insertion registers exactly its own shape |
| Routes.BuildPattern | http/httpserver.cpp:1133-1169 | the pattern string of a route is spelled with the names that the trie keeps |
| Routes.MatchIsBest | http/httpserver.cpp:1181-1243 | match succeeds iff some registered pattern matches, and picks the best by static, parameter, wildcard, an exact end before an empty wildcard |
| RouteBindings.MatchBinds | http/httpserver.cpp:1217-1240 | with distinct names on each trie path the parameters are exactly the bindings of the pattern found, despite backtracking |
| RouteBindings.FoundBinds | http/httpserver.cpp:1217-1240 | with parameter names new on their paths a failure leaves no binding, and a pattern with no name used twice is bound exactly |
| RouteBindings.RightIffHarmless | http/httpserver.cpp:1217-1240 | whatever the routes, every request path is bound right iff no parameter name is used twice on the way to a node, and no wildcard name is, unless the table shadows that wildcard |
| RouteBindings.RightIffDistinct | http/httpserver.cpp:1217-1240 | where wildcard names are new, every request path is bound right iff no name is used twice on the way to a node |
| RouteBindings.ParamClash | http/httpserver.cpp:1219-1224 | a parameter name used twice on the way to any registered pattern makes some request path bound wrong |
| RouteBindings.WildClash | http/httpserver.cpp:1227-1240 | a wildcard that wins a request path and whose name is used before it makes some request path bound wrong |
| RoutePaths.WinsIffUnshadowed | http/httpserver.cpp:1181-1243 | a registered wildcard is the preferred match of some request path iff the table does not hold, in its place, parameters of every smaller number and then a wildcard |
| RouteBindings.EndBelow | http/httpserver.cpp:1129-1171 | every node but the root is on the way to a registered pattern |
| RouteBindings.ClashLosesBinding | http/httpserver.cpp:1219-1224 | a table where two parameters of one name lose a binding of another pattern |
| Routes.DfsBest | http/httpserver.cpp:1181-1243 | from any node the search finds a pattern at least as good as any candidate |
| RouteTree.GrownNodeOk | http/httpserver.cpp:1139-1165 | after a new node is hung on, every pointer of every node leads where the enlarged trie says |
| RouteTree.MarkedStands | http/httpserver.cpp:1168-1169 | marking a node as the end of a route changes exactly that node of the trie |
| RouteTree.PrefixTree.Follow | http/httpserver.cpp:1136-1166 | follows or makes the child of one segment |
| RouteTree.PrefixTree.Register | http/httpserver.cpp:1129-1171 | the insertion loop makes the tree stand for the trie with the pattern inserted |
| RouteTree.PrefixTree.Search | http/httpserver.cpp:1181-1243 | the search that writes and erases one table in place finds what the specification finds and leaves its table |
| RouteTree.PrefixTree.SearchParam | http/httpserver.cpp:1217-1225 | the binding is written before the descent and erased after a failure |
| RouteTree.PrefixTree.JoinFrom | http/httpserver.cpp:1229-1235 | the rest of the path, joined with slashes |
| RouteTree.PrefixTree.Lookup | http/httpserver.cpp:1173-1179 | returns handlers, pattern and bindings of the match |
| PathText.SplitPath | http/httpserver.cpp:1101-1114 | cuts a path into its non-empty pieces |
| PathText.SplitJoin | http/httpserver.cpp:1101-1114 | cutting undoes joining, with or without a leading slash |
| PathText.SplitPlain | http/httpserver.cpp:1101-1114 | no piece is empty or holds a slash |
| RouteTree.PrefixTree.Add | http/httpserver.h:218-230 | registers a route given as text |
| RouteTree.PrefixTree.Find | http/httpserver.cpp:1173-1179 | from the text of a path to its route: found iff a registered pattern matches, and then the preferred one, all its handlers in order, its canonical pattern, and, where names are harmless, exactly its bindings |
| Lru.LruCache.Get | http/httpresponce.h:69-78 | a hit returns the value and moves the entry to the front, a miss changes nothing |
| Lru.LruCache.Put | http/httpresponce.h:80-104 | a new key goes to the front and may push the last one out; a present key keeps its value, which is returned |
| Lru.LruCache.Evict | http/httpresponce.h:85-92 | drops exactly the last entry, from list and map |
| Lru.KeptAreRecent | http/httpresponce.h:69-104 | after any calls the cache lists the most recently touched keys, latest first, up to its capacity |
| Lru.KeptIff | http/httpresponce.h:69-104 | a key is cached iff it was touched and fewer than capacity different keys were touched since |
| Lru.ValueStays | http/httpresponce.h:96-101 | a cached key keeps the value it came in with |
| SingleFlight.OneOpener | http/httpresponce.cpp:490-535 | in every interleaving at most one coroutine is at work on a path, and the duplicate branch is never taken, whatever was evicted |
| SingleFlight.OneResult | http/httpresponce.cpp:503-532 | the opener and all who waited on its call return the same file |
| SingleFlight.ResultStays | http/httpresponce.cpp:527-531 | the result of a call is set once |
| SingleFlight.OnlyGoodFiles | http/httpresponce.cpp:514-525 | failed opens are never cached, a descriptor returned for a path was opened for that path, and the cache keeps within 512 |
| SingleFlight.GetsWhatItAsked | http/httpresponce.cpp:490-538 | in every run, whoever asks for a path and gets a descriptor, cached, its own or another's, gets one opened for the path it asked |
| FileOutcomes.OpenIsReturned | http/httpresponce.cpp:519-543 | in every run, when the opener's open gave a descriptor, or a failure, the opener and everyone who waits on its call return that very one |
| FileOutcomes.FailsOnlyIfOpenFailed | http/httpresponce.cpp:490-543 | in every run a file returned is what an open of that path gave; a hit is never a failure |
| FileOutcomes.OpensAlone | http/httpresponce.cpp:514-543 | in every run a call for a path neither cached nor in flight, alone, opens it and returns what the open gave; a success is then cached, a failure is not |
| FileOutcomes.CacheIsPlay | http/httpresponce.cpp:492-534 | in every run the cache is what its gets and puts make of it |
| FileOutcomes.HitIff | http/httpresponce.cpp:492-500 | in every run a call hits iff the path was opened or hit before and fewer than 512 other paths since |
| FileOutcomes.OpenThenHit | http/httpresponce.cpp:490-534 | in every run what an opener cached is returned at once to every call for that path, as long as it stays cached |
| SingleFlight.NobodyForgotten | http/httpresponce.cpp:502-512 | who waits has a result ready or an opener at work on it |
| SingleFlight.InFlightIff | http/httpresponce.cpp:514-537 | a path is in the in-flight map iff a coroutine is at work on it |
| SingleFlight.StepKeepsInv | http/httpresponce.cpp:489-538 | each critical section of GetResource keeps all of this |
| ConnectionPool.PermitsConserved | core/uredis.cpp:596-687 | until Close free permits and the phases that hold one add up to the pool size, idle plus in-use connections never exceed it, and pending_permit_waits is exact |
| ConnectionPool.AllIsIdleAndLent | core/uredis.cpp:614-687 | until Close `all` is idle plus lent, no connection has two holders, and none in it is closed |
| ConnectionPool.NobodyBlockedByClose | core/uredis.cpp:689-712 | after Close available and still-to-be-issued permits cover every registered Acquire that waits |
| ConnectionPool.ClosedPoolKeepsNothing | core/uredis.cpp:639-651 | after Close every connection made is closed, but for one being entered, which is closed at its next step |
| ConnectionPool.BrokenNeverLentAgain | core/uredis.cpp:662-680 | a connection released broken is in nobody's hands and not idle after any further steps |
| ConnectionPool.NothingLentAfterClose | core/uredis.cpp:617-621 | once the pool is closed every Acquire returns empty-handed, whatever happens |
| ConnectionPool.ReaperSpares | core/uredis.cpp:579-592 | the reaper leaves min_idle connections and touches none that is lent |
| ConnectionPool.MovesCounter | core/uredis.cpp:610-712 | each step of the pool moves its semaphore by one block of the stepping coroutine |
| ConnectionPool.CounterServes | core/uredis.cpp:610-614 | whenever the counting semaphore can hand a permit to a waiting Acquire, the pool has a step that takes it and touches nothing else |
| PoolOutcomes.PermitMeansConnection | core/uredis.cpp:612-654 | in every run, on an open pool, an Acquire that has its permit does not end without a connection unless its own connect fails, and keeps the connection until it releases it |
| PoolOutcomes.AcquireAlone | core/uredis.cpp:596-654 | in every run an Acquire of an open pool with a permit on offer, alone, gets the connection idle for longest, or makes a new one iff none is idle |
| PoolOutcomes.LimitsStay | core/uredis.cpp:546-555 | in every run the limits are those configured, a size of 0 counting as 1 |
| PoolOutcomes.FailureGivesBack | core/uredis.cpp:632-651 | in every run a connect that fails, or ends after Close, gives its permit back, and what came too late is shut |
| PoolOutcomes.ClosedAlone | core/uredis.cpp:612-622 | in every run a waiter that gets a permit of Close, alone, returns empty-handed |
| PoolOutcomes.ReleaseAlone | core/uredis.cpp:656-687 | a sound connection released to an open pool is idle, any other is shut, and the permit comes back either way |
| PoolOutcomes.IdleLeaves | core/uredis.cpp:568-712 | in every run an idle connection stays so until it is lent, reaped as the one idle for longest of too many, or the pool is closed |
| PoolOutcomes.RecycledAlone | core/uredis.cpp:596-687 | in every run a sound connection released to a pool with none idle is the one that the next Acquire, alone, gets |
| PoolOutcomes.ReaperShrinks | core/uredis.cpp:579-592 | the reaper shuts those idle for longest, one at a time, down to the number to keep |
| PoolOutcomes.CloseAlone | core/uredis.cpp:689-719 | in every run Close, alone, shuts every connection, lent ones included, and issues one permit for each Acquire that waits; a second does nothing |
| ConnectionPool.StepAccounts | core/uredis.cpp:596-712 | each step of Acquire, Release, Close and the reaper keeps the permit accounts |
| ConnectionPool.StepConnections | core/uredis.cpp:568-719 | each step keeps the accounts of the connections |
| SessionJson.StringRead | http/session.cpp:35-64 | an escaped string reads back as itself, whatever bytes it holds |
| SessionJson.ObjectRoundTrip | http/session.cpp:66-84 | every map of byte strings, walked in any order, reads back as itself; only white space may follow |
| SessionJson.ArrayRoundTrip | http/session.cpp:289-345 | every list reads back as itself; only white space may follow, unless the list is empty |
| SessionJson.WholeIff | http/session.cpp:308-345 | for every text the verdict is that of the whole text iff the text is not an empty array with something behind it, and such a text is accepted |
| SessionJson.JunkBehindEmpty | http/session.cpp:320-324 | one such text |
| SessionJson.UnicodeRead | http/session.cpp:204-234 | every code point escaped as in section 7 of RFC 8259, surrogate pairs included, reads back as its UTF-8 |
| SessionJson.LoneSurrogate | http/session.cpp:211-231 | a surrogate without a partner reads as the replacement character |
| SessionJson.Utf8RoundTrip | http/session.cpp:115-139 | what an escape appends is well-formed UTF-8 of its code point (RFC 3629, sections 3 and 4) |
| JsonLanguage.StringIff | http/session.cpp:166-240 | a string is read iff its text is there (sections 2 and 7 of RFC 8259, unpaired surrogates as U+FFFD), and as what that text means |
| JsonLanguage.ObjectIff | http/session.cpp:242-287 | a session is read iff its text is one flat object, white space allowed around every token, and then as its members, the first of each key |
| JsonLanguage.ArrayIff | http/session.cpp:308-345 | a flash value is read iff its text is one array of strings, or an empty one with something behind it |
| JsonLanguage.AsManyAsCanBeRead | http/session.cpp:325-342 | of any flash value, damaged or not, exactly the strings are read that stand one after the other behind its bracket |
| Session.JsonEscapeAppend | http/session.cpp:35-64 | the loop appends the quoted string |
| Session.DumpSessionJson | http/session.cpp:67-84 | the loop prints the object |
| Session.DumpFlashArray | http/session.cpp:290-305 | the loop prints the array |
| Session.JsonFlatParser.ParseHex4 | http/session.cpp:142-164 | four digits or no move |
| Session.JsonFlatParser.ParseCodePoint | http/session.cpp:206-231 | the cursor code for surrogates agrees with the grammar |
| Session.JsonFlatParser.ParseQuoted | http/session.cpp:166-240 | the cursor string parser agrees with the grammar |
| Session.JsonFlatParser.Parse | http/session.cpp:242-273 | the cursor object parser agrees with the grammar, first value of a key kept |
| Session.ParseSessionJson | http/session.cpp:277-287 | exactly one object, white space allowed around it |
| Session.ParseFlashArray | http/session.cpp:308-345 | verdict and items, also after a failure |
| Session.Session.AddFlash | http/session.cpp:703-710 | appends to what could be read of the old value and marks the session written |
| Session.Session.Flashes | http/session.cpp:712-722 | hands out and deletes a readable list, leaves an unreadable value alone |
| Session.FlashRun | http/session.cpp:703-722 | from an absent key any run of AddFlash leaves exactly those values in order, and no other key changes |
| Session.FlashRoundTrip | http/session.cpp:703-722 | any run of AddFlash followed by Flashes returns exactly the values and restores the session |
| Session.DamagedCountsAsEmptyIff | http/session.cpp:707-709 | a damaged value counts as empty iff no whole string was read before the damage |
| Session.DamagedKeepsPrefix | http/session.cpp:325-342 | a cut-off array hands back its first string although the verdict is false |
| RateLimiter.Make | http/ratelimit.cpp:23-35 | a counter is made iff limit and window are positive |
| RateLimiter.Counter.Sweep | http/ratelimit.cpp:62-66 | the erase loop drops exactly the entries of earlier windows |
| RateLimiter.Counter.Allow | http/ratelimit.cpp:50-86 | verdict and table are those of the specification |
| RateLimiter.Counter.RetryAfter | http/ratelimit.cpp:37-48 | waiting that long always lands in a later window, a second less does not, and it is at most a window |
| RateLimiter.ServesAsReference | http/ratelimit.cpp:50-86 | on every trace that never goes back a window the grants are those of a limiter that keeps the whole history, clean-up or not |
| RateLimiter.AtMostLimit | http/ratelimit.cpp:80-84 | at most limit grants to a key in a window |
| RateLimiter.AtMostTwice | http/ratelimit.cpp:74-84 | at most twice the limit in any half-open interval one window long |
| RateLimiter.Bounded | http/ratelimit.cpp:59-72 | the table never exceeds its cap, whatever the times |
| RateOrder.LimitIffTogether | http/ratelimit.cpp:52-85 | for every trace of no more keys than the table holds, in whatever order it is served, a key keeps within the limit of a window iff its calls of that window are together among its own or no more than the limit |
| RateOrder.Share | http/ratelimit.cpp:74-85 | what a single key is granted of a window: all its calls up to the limit if they are together or few, more than the limit otherwise |
| RateOrder.TableOfRuns | http/ratelimit.cpp:74-84 | the entry of a single key is its last window and how much of the last run of calls was granted |
| RateOrder.Alone | http/ratelimit.cpp:59-84 | with room for all keys each key is served as if it were alone |
| RateOrder.LimitIfUnbroken | http/ratelimit.cpp:59-85 | however many keys there are, a key keeps within the limit of a window if no call of a later window, of any key, and no call of its own of another window is served between two of its calls of that window |
| RateOrder.SweepBreaks | http/ratelimit.cpp:59-77 | with a table of any size from two on, full, a call in any later window lets the clean-up break the limit of a key whose own calls never leave the window |
| RateOrder.CounterBreaks | http/ratelimit.cpp:18-35 | so it is with every counter that can be made, for any two times in different windows |

## Left out

- Resp.RoundTrip: integers are unbounded; the overflow of a length or an integer of 2^63 and more is not modelled.
- Resp.PrefixNeedsMore: a length that makes `len + 2` overflow is not modelled; lengths are taken below 2^63.
- RateLimiter.Counter.Allow: the clock reading is a parameter, and 64-bit overflow of milliseconds is not modelled.
- Mutex.MutualExclusion: only a holder unlocks; unlocking by others is a contract violation in the source.
- Mutex.WordInBounds: the word is an unbounded integer; the bound on the waiter field says when 32 bits suffice.
- Semaphore.PermitsConserved: the shared ownership of the state, the eventfd writes and the destruction of the semaphore are not modelled; a popped waiter is resumed by one step.
- SharedMutex.WriterExcludesAll: the bound on readers is the source's own; `SharedMutex.FewCoroutines` says which populations keep it.
- Channel.CloseLosesNothing: one receiver drains a channel while the others rest and the mutex is free; for every run there are `Channel.MissMeansDrained` and `Channel.CloseUnblocks`. The unbuffered `uchan<T, 0>` is not part of this model.
- Sleeper.ResumedExactlyOnce: the heap is one bit here (the node is on it or not) and the clock is left to the scheduler's moves; the heap itself is `TimerHeap`.
- Sleeper.WakesConserved: conservation, not promptness; a wake between the two reads of a sleep_for stays pending.
- TimerArm.NeverWithoutTimer: how late the kernel completes a request, and the buffer that holds its duration, are not modelled.
- TimerService.ThreadTimers.OnFire: what a resumed coroutine does to the timers is an arbitrary script; what else it runs is not modelled.
- RespClient.ReadReply: a time-out is one of the errors that a receive may bring, and is not computed from a clock; bytes behind the reply are dropped by the next call.
- RouteBindings.RightIffHarmless: bound right means that each edge of the pattern found has its value; that the table holds no other name is stated apart, by `RouteBindings.FoundBinds` and `RouteBindings.MatchBinds`. Middlewares and the method table are not part of this model.
- RateOrder.LimitIffTogether: says nothing of traces with more keys than the table holds; `RateOrder.SweepBreaks` shows that there the order of a key's own calls does not decide.
- RateOrder.LimitIfUnbroken: sufficient only; whether a call of a later window does harm depends on whether it finds the table full.
- RouteTree.PrefixTree.Register: pointers are indices into an arena, and freeing the tree is not modelled.
- SingleFlight.OneResult: the condition variable is a wait for `done`; a waiter may go on in any step after it is set. Opening the file is an arbitrary result.
- Lru.LruCache.Put: list iterators are numbers that are never reused; closing a descriptor when its last user drops it is not modelled.
- ConnectionPool.AllIsIdleAndLent: connections still lent at Close are closed there and again at their release; their lifetime is left to the caller.
- ConnectionPool.StepConnections: closing a connection outside the lock is part of the step that gives it up.
- Session.Session.Flashes: loading and saving of sessions, cookies and signatures are not part of this model.
- Mutex.CounterServes: which sleeper takes a permit is open here, so that a waiter that slept before asks to be queued in front is left to `Semaphore`, whose order is `SemaphoreOutcomes.NoOvertaking`.
- Fairness of the scheduler: the theorems about a call "alone" fix who moves; how long others may hold a call up is not modelled.
- The scheduler's decision to leave its loop while another thread is about to post a wake.
- The rw-mutex variant that is not compiled, the MySQL pool (the same protocol as `upool`), the HTTP request parser, logging, hooks and kernel calls.
- Weak memory: atomic operations are sequentially consistent steps, and a critical section under a lock is one step where the lock's exclusion is proved elsewhere or the lock is `std::mutex`.
