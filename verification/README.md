# A model of the AgentScope backend and its kernel tracer

This project models the small state machines in AgentScope's Go backend and its eBPF program, and proves what
they guarantee over every run. `dafny verify dfyconfig.toml` verifies all of it.

| module | what it models |
|---|---|
| `MachineTypes`, `MapSums` | machine integers, sums over maps, and helpers the others share |
| `TokenBucket` | the per-key rate limiter, with its garbage collection of idle keys |
| `WebSocketHub` | the event loop that fans broadcasts out to clients, evicts slow ones and shuts down |
| `CommSanitizer` | the sanitizer of configured process names, and the UTF-8 decoding it rests on |
| `ProcessFilter` | which processes are traced: descendant search, the two kernel maps userspace rewrites, the kernel's test |
| `KernelTracer` | the tracepoints, their hash maps and counters, the lossy ring buffer |
| `TracerAccounting` | what the events and counters that reach userspace mean in terms of the calls made |
| `CounterRates` | rates from counter differences, and the top-twelve rankings |
| `History` | the SQLite store with amortised pruning, the in-memory store, their agreement |
| `AsyncWriter` | the queueing writer in front of a store, and its shutdown |
| `Aggregation` | the moving-average counter, the concurrent rate map, the snapshot builder |
| `ProcDecoders` | /proc and socket-address decoders, flow keys |

Code that updates state in place is modelled by classes whose methods change fields and arrays. Their contracts
tie each method to a step on values; runs of such steps are what the lemmas quantify over. Where goroutines
interleave (`WebSocketHub`, `AsyncWriter`, the rate map of `Aggregation`) a run is any sequence of the atomic
actions the code allows, and a panic of the Go runtime is a state a run may or may not reach. Clock readings,
`/proc` contents, map iteration order, which ready case a `select` takes, ring-buffer space and failing SQL
statements are inputs or nondeterministic choices.

Main results:

- Forgetting idle keys is unobservable, for every interleaving with clock readings in order, if and only if five
  idle minutes refill a bucket (`TokenBucket.InvisibleIff`); both limiters the server builds qualify with the
  default settings. From any call to an admitted one at most burst + rate · time are admitted, and under the same
  condition a call is refused if and only if admitting it would exceed that since some earlier call of its key
  (`TokenBucket.RefusedIffExhausted`).
- The hub never closes a channel twice or sends on a closed one, and every client has been sent a contiguous
  slice of the processed broadcasts, with the slice's two ends characterised (`WebSocketHub.ClientStory`); a
  broadcast is lost exactly if it finds 256 others waiting (`WebSocketHub.OnlyOverflowIsLost`).
- The kernel's test accepts exactly the processes the user means, whenever the targets map had room
  (`ProcessFilter.KernelMaps.Retarget`, which says exactly when it has); from then on it loses exactly the
  processes that leave (`KernelTracer.FilterIsWrittenLessLeft`).
- Every failure event carries the arguments of the call that failed if the filter answers alike at both ends of
  openat and connect; that proviso is needed, and the exact condition is proved too
  (`KernelTracer.ReportIsOwnIffStored`).  Calls that began before the tracer did are part of the runs.
- A process entry shows more errors than calls in some continuation exactly if another thread was inside a call
  when the entry was made (`TracerAccounting.ErrorsWithinCallsIff`).
- Reservation attempts = delivered events + reported drops; each kernel counter is the total of what the followed
  calls are worth; rates integrate to the counters exactly when no counter ever falls.
- A rate window closes at the first operation that finds it a second old, and everything added is in a window or
  in the open count, up to 2^64 per overflow (`Aggregation.WindowsTakeASecond`, `Aggregation.CounterConserves`).
- Pruning keeps unfiltered history queries exact over every run; for queries by name the exact condition is
  proved, and for event queries the exact condition over whole runs, ties included
  (`History.EventQueriesUnaffectedIff`).
- The async writer loses only what is offered to a full queue, reorders nothing and never writes after closing the
  inner store; it can come to panic exactly when some `Close` begins while another is between looking at the stop
  channel and closing it.

Where the code does not meet what one would expect of it, the failing input is a lemma of its own:
`TokenBucket.CollectionIsVisible`, `KernelTracer.StalePathWithoutSteadyFilter`,
`TracerAccounting.MoreErrorsThanCalls`, `CounterRates.RestartLooksLikeAFlood`, `History.TiesEraseEverything`,
`AsyncWriter.OverlappingClosesPanic`; and each has its exact condition: `TokenBucket.InvisibleIff`,
`KernelTracer.ReportIsOwnIffStored`, `TracerAccounting.ErrorsWithinCallsIff`, `CounterRates.ExactIffNeverFalls`,
`History.EventQueriesUnaffectedIff`, `AsyncWriter.PanicsIff`. A configured name that the 15-byte limit splits
(`CommSanitizer.RejectedSecondTime`) is not found in the history (`History.ConfiguredNameIsFoundIff`).

Where documentation and code disagree, or two parts of the code, the model follows the code: docs/FAQ.md:167
speaks of a retention threshold by age, whereas pruning goes by row counts (1000 and 2000); the in-memory store
compares the comm it is asked for as given, whereas the SQLite store sanitizes it first; and a comment in
`parseHexIPPort` speaks of eight words, whereas the code reads four.

## Model

| member | source | states |
|---|---|---|
| TokenBucket.Limiter.constructor | backend/internal/api/ratelimit.go:22-35 | non-positive settings become 40 and 80; no keys yet |
| TokenBucket.Limiter.Allow | backend/internal/api/ratelimit.go:37-59 | the answer and all buckets afterwards are those of one step: collect, refill from elapsed time up to the burst, take a token if there is one; other keys are untouched |
| TokenBucket.Limiter.Obtain | backend/internal/api/ratelimit.go:43-47 | a missing key gets a full bucket, an existing one keeps its own object |
| TokenBucket.Limiter.Spend | backend/internal/api/ratelimit.go:48-58 | only this key's bucket changes, to its refilled level less the token taken |
| TokenBucket.Limiter.SpendFrom | backend/internal/api/ratelimit.go:48-58 | the bucket earns for the time elapsed, never beyond the burst, and gives a token if it has one |
| TokenBucket.Limiter.Sweep | backend/internal/api/ratelimit.go:61-71 | within a minute of the last collection nothing happens; otherwise exactly the keys idle for more than five minutes go |
| TokenBucket.Limiter.Forget | backend/internal/api/ratelimit.go:66-70 | the deletion loop, in any order, leaves exactly the keys idle for at most five minutes |
| TokenBucket.Simulation | backend/internal/api/ratelimit.go:37-71 | over any interleaved run each key's bucket equals the never-forgotten one, or is gone while that one would be full; answers are the same |
| TokenBucket.CollectionIsInvisible | backend/internal/api/ratelimit.go:37-71 | with 300·rate ≥ burst and readings in order, every call answers as a limiter that never forgets and sees only that key |
| TokenBucket.CollectionIsVisible | backend/internal/api/ratelimit.go:61-71 | otherwise some ordered run gets a different answer: drain, idle just over five minutes, drain again |
| TokenBucket.InvisibleIff | backend/internal/api/ratelimit.go:37-71 | collection is unobservable in all ordered runs if and only if 300·rate ≥ burst |
| TokenBucket.ShippedPoliciesRefill | backend/internal/api/server.go:50-51 | 0.2/10 and the default 40/80 satisfy that condition |
| TokenBucket.Burst | backend/internal/api/ratelimit.go:37-59 | a limiter that has just forgotten everything admits a whole burst at one instant |
| TokenBucket.SoloBurst | backend/internal/api/ratelimit.go:48-58 | of n calls at one instant on a bucket opening with x tokens, exactly those numbered up to x are admitted |
| TokenBucket.DrainAdmitted | backend/internal/api/ratelimit.go:37-71 | after more than five idle minutes the second burst is admitted in full |
| TokenBucket.DrainRefused | backend/internal/api/ratelimit.go:48-58 | a bucket that is remembered refuses it when the idle time earned less than the burst |
| TokenBucket.AdmissionBound | backend/internal/api/ratelimit.go:37-59 | from any call of a key stamped s to an admitted one stamped t, both counted, at most burst + rate·(t − s) are admitted, even with stamps out of order, unless the key is forgotten on the way |
| TokenBucket.AdmissionBoundDespiteCollection | backend/internal/api/ratelimit.go:37-71 | the same bound without that proviso, for ordered readings and 300·rate ≥ burst |
| TokenBucket.SinceLastFull | backend/internal/api/ratelimit.go:37-71 | in every run, whatever the policy and the clock: a bucket was full at some call of its key, and holds burst + rate·(time since) − calls admitted since |
| TokenBucket.RefusedOnlyIfExhausted | backend/internal/api/ratelimit.go:48-58 | whatever the policy and the clock: a call stamped t is refused only if, since some earlier call of its key stamped s, admitting it would exceed burst + rate·(t − s) |
| TokenBucket.RefusedIffExhausted | backend/internal/api/ratelimit.go:37-71 | for ordered readings and 300·rate ≥ burst: it is refused if and only if there is such an earlier call |
| TokenBucket.CollectForgets | backend/internal/api/ratelimit.go:61-71 | a collection takes place at the first call sixty seconds or more after the last, and takes exactly the keys unused for more than 300 |
| TokenBucket.RememberedForFiveMinutes | backend/internal/api/ratelimit.go:61-71 | over ordered runs: a key used within 300 seconds is remembered, one unused for 360 is forgotten |
| TokenBucket.CollectionIsRare | backend/internal/api/ratelimit.go:62-65 | over any run, collections are on average at least a minute apart |
| WebSocketHub.Hub.constructor | backend/internal/hub/hub.go:23-35 | a non-positive maximum becomes 128; nothing registered |
| WebSocketHub.Hub.HandleRegister | backend/internal/hub/hub.go:43-49 | a client beyond the maximum gets its channel closed, any other joins and the count follows |
| WebSocketHub.Hub.HandleUnregister | backend/internal/hub/hub.go:50-51 | one drop step, a no-op for a client already dropped |
| WebSocketHub.Hub.DropClient | backend/internal/hub/hub.go:65-72 | removes, closes and recounts only if the client is still there |
| WebSocketHub.Hub.CloseSend | backend/internal/hub/hub.go:70 | closing a closed channel is the fatal error, closing an open one only marks it |
| WebSocketHub.Hub.SendTo | backend/internal/hub/hub.go:54-59 | a non-blocking send: buffered if there is room for it, otherwise the client is dropped |
| WebSocketHub.Hub.BeginBroadcast | backend/internal/hub/hub.go:52-53 | the oldest queued message is taken up for exactly the clients registered then |
| WebSocketHub.Hub.HandleBroadcast | backend/internal/hub/hub.go:52-60 | in any order and with other goroutines acting in between, every client registered at the start has its turn |
| WebSocketHub.Hub.CloseClient | backend/internal/hub/hub.go:75-78 | one turn of the shutdown loop: one client closed and removed |
| WebSocketHub.Hub.CloseAll | backend/internal/hub/hub.go:74-85 | ends with no clients, all channels closed, the count zero and done closed |
| WebSocketHub.Hub.Run | backend/internal/hub/hub.go:37-63 | for any sequence of received cases: handles them in order up to a cancellation, passing over only what cannot arise (a client registered before; one unknown or unregistered; a message when all that was heard is taken up); stopped exactly if a cancellation was among them |
| WebSocketHub.Hub.Dispatch | backend/internal/hub/hub.go:40-61 | one turn of the select handles the case it was given, and that alone, unless it cannot arise |
| WebSocketHub.Hub.Broadcast | backend/internal/hub/hub.go:93-99 | the message joins the queue if fewer than 256 wait, else the queue stays as it was; never blocks |
| WebSocketHub.Hub.Drain | backend/internal/hub/client.go:74-89 | writePump takes the oldest buffered message, also from a closed channel |
| WebSocketHub.Hub.Others | backend/internal/hub/client.go:44-71 | what other goroutines may do at any moment: broadcast and drain |
| WebSocketHub.InvStep | backend/internal/hub/hub.go:37-85 | every action keeps the invariant about every client and about the hub |
| WebSocketHub.InvAlways | backend/internal/hub/hub.go:37-85 | so every reachable state satisfies it |
| WebSocketHub.DeliverKeeps | backend/internal/hub/hub.go:54-59 | one delivery keeps it, including an eviction in the middle of the loop |
| WebSocketHub.DropKeeps | backend/internal/hub/hub.go:65-72 | dropping keeps it, whatever the reason |
| WebSocketHub.RegisterKeeps | backend/internal/hub/hub.go:43-49 | registering keeps it, overflow included |
| WebSocketHub.UnregisterKeeps | backend/internal/hub/hub.go:50-51 | a late unregister of a dropped client keeps it |
| WebSocketHub.TakeKeeps | backend/internal/hub/hub.go:52-53 | taking a message from the queue keeps log + queue a subsequence of all broadcasts |
| WebSocketHub.CloseOneKeeps | backend/internal/hub/hub.go:74-78 | each turn of the shutdown loop keeps it |
| WebSocketHub.PublishKeeps | backend/internal/hub/hub.go:93-99 | a broadcast keeps it whether it is queued or dropped |
| WebSocketHub.ReceiveKeeps | backend/internal/hub/client.go:74-89 | reading a message keeps it |
| WebSocketHub.RunsAreSafe | backend/internal/hub/hub.go:37-91 | in every reachable state no channel was closed twice or sent on after closing; exactly the registered clients' channels are open; at most max clients; the count is exact outside closeAll; log + queue is a subsequence of all broadcasts |
| WebSocketHub.StoppedHubLeaksNothing | backend/internal/hub/hub.go:74-85 | once the hub has stopped, every channel it was ever handed is closed |
| WebSocketHub.OnlyOverflowIsLost | backend/internal/hub/hub.go:52-99 | in every run, processed + queued messages are exactly, in order, the broadcasts that found fewer than 256 waiting |
| WebSocketHub.NothingIsLostUnlessFull | backend/internal/hub/hub.go:52-99 | if every broadcast found fewer than 256 waiting, processed + queued are all broadcasts, in order |
| WebSocketHub.ReasonsAreReal | backend/internal/hub/hub.go:50-85 | in every run: an unregistered client is no longer served, no other counts as unregistered, and none is let go for a shutdown before one |
| WebSocketHub.LogCounts | backend/internal/hub/hub.go:40-61 | a message is processed for every message case the loop received, and for no other |
| WebSocketHub.OnwardRun | backend/internal/hub/hub.go:37-72 | along any continuation a client's start and end are fixed, what it was sent only grows, and nothing enters a closed channel |
| WebSocketHub.ClientStory | backend/internal/hub/hub.go:37-72 | read plus buffered is the contiguous slice of the log from admission; it reaches the end of the log while registered, and stops right before the message that found 64 unread if dropped as slow; a rejected client gets nothing |
| ProcessFilter.CommPrefixMatch | backend/bpf/agent.bpf.c:220-234 | the unrolled loop decides whether the wanted text is non-empty and a prefix of the current comm |
| CommSanitizer.SanitizeComm | backend/internal/config/validate.go:11-38 | the loop yields at most 15 bytes without NUL: nothing if any rune is unacceptable, otherwise the encoded runes, spaces as underscores, cut at 15 |
| CommSanitizer.TrimmedIs | backend/internal/config/validate.go:12-13 | trimming takes away white space at both ends, then NULs at both ends of what is left, and no more |
| CommSanitizer.NameIsTakenIff | backend/internal/config/validate.go:11-38 | the result is non-empty if and only if something is left after trimming and all its runes are letters, digits, one of -_.:+ or a space; then it is those runes, underscores for spaces, up to the fifteenth byte |
| CommSanitizer.DecodeRunes | backend/internal/config/validate.go:19 | ranging over encoded runes gives the runes back, whatever follows them |
| CommSanitizer.DecodeOneIff | backend/internal/config/validate.go:19 | the decoding is strict: it finds a rune exactly where the bytes go on with that rune's encoding, and otherwise takes one byte for U+FFFD |
| CommSanitizer.SanitizedTwice | backend/internal/config/validate.go:11-38 | sanitizing again changes nothing if and only if the 15-byte cut does not fall inside a rune; where it does, the second time yields nothing |
| CommSanitizer.RejectedSecondTime | backend/internal/config/validate.go:11-38 | fourteen ASCII letters and an accented one are accepted, cut to 15 bytes, and rejected the second time |
| CommSanitizer.AsciiNeverSplits | backend/internal/config/validate.go:33-36 | for ASCII names it never does |
| ProcessFilter.Closure | backend/internal/enrich/proc.go:133-149 | the fixpoint loop terminates for any parent map, visited in any order, with exactly the roots and what descends from them |
| ProcessFilter.ExpandDescendants | backend/internal/enrich/proc.go:112-166 | the roots first and in order, then every other descendant once; without a process table, the roots |
| ProcessFilter.RootsFirst | backend/internal/enrich/proc.go:150-158 | every root is in the closure, so all of them are listed, in order |
| ProcessFilter.ThenOthers | backend/internal/enrich/proc.go:159-164 | each remaining pid of the closure is listed once, in any order |
| ProcessFilter.DescentIsLeastClosedSet | backend/internal/enrich/proc.go:133-149 | descent by lineages is the least set containing the roots and closed under parenthood, cycles included |
| ProcessFilter.ResolveTargets | backend/internal/enrich/proc.go:43-61 | a living pinned pid, else nothing for a dead one; else what matches by comm, else by command line, else nothing; each time the roots first and in order, with all descendants |
| ProcessFilter.KernelMaps.Put | backend/internal/ebpfagent/agent.go:660-664 | an insertion into a full map of 256 fails and is ignored |
| ProcessFilter.KernelMaps.PutAll | backend/internal/ebpfagent/agent.go:656-664 | every wanted pid is in afterwards, or the map is full; nothing is lost |
| ProcessFilter.KernelMaps.DeleteStale | backend/internal/ebpfagent/agent.go:665-675 | exactly the unwanted pids go |
| ProcessFilter.KernelMaps.SyncTargets | backend/internal/ebpfagent/agent.go:655-677 | always a subset of the wanted set that keeps what was already there; equal to it if and only if old ∪ wanted has at most 256 pids |
| ProcessFilter.SyncOutcome | backend/internal/ebpfagent/agent.go:655-677 | the counting argument behind that equivalence |
| ProcessFilter.TwoTicksSettle | backend/internal/ebpfagent/agent.go:655-677 | two synchronisations with the same pids leave exactly the wanted set if and only if that alone fits, whatever stale pids filled the map before and even if exits remove pids in between |
| ProcessFilter.KernelMaps.WriteConfig | backend/internal/ebpfagent/agent.go:630-642 | the pinned pid, else the first resolved one, else 0; the comm zero-padded to 16 bytes |
| ProcessFilter.PadKeepsText | backend/internal/ebpfagent/agent.go:639 | a sanitized comm is read back by the kernel unchanged |
| ProcessFilter.KernelMaps.Retarget | backend/internal/ebpfagent/agent.go:394-399 | after a tick's resolution and map updates the kernel's test holds exactly for the watched processes, if the comm is sanitized and the map of 256 had room |
| ProcessFilter.FilterEndToEnd | backend/bpf/agent.bpf.c:236-249 | accepted if and only if pinned, or selected by the search, or the current comm starts with the configured text |
| KernelTracer.Tracer.Follows | backend/bpf/agent.bpf.c:236-249 | followed if and only if all are observed, or the process is pinned, or listed, or its comm starts with the configured non-empty text |
| KernelTracer.Tracer.Reserve | backend/bpf/agent.bpf.c:258-264 | a failed reservation is counted once, on the current cpu |
| KernelTracer.Tracer.Emit | backend/bpf/agent.bpf.c:258-282 | the record is delivered, or counted as dropped |
| KernelTracer.Tracer.SchedExec | backend/bpf/agent.bpf.c:307-327 | one exec step |
| KernelTracer.Tracer.SchedExit | backend/bpf/agent.bpf.c:329-346 | one exit step; what it does to the filter and the counters over runs is stated by `FilterIsWrittenLessLeft`, `ReusedPidIsNotFollowed` and `EntryIff` |
| KernelTracer.Tracer.GetStats | backend/bpf/agent.bpf.c:284-291 | finds or creates the entry; none if the map of 1024 is full |
| KernelTracer.Tracer.BumpSyscall | backend/bpf/agent.bpf.c:293-301 | counts the call, unless it is new and the table of 512 is full |
| KernelTracer.Tracer.CountCall | backend/bpf/agent.bpf.c:363-366 | the process's entry, found or made, counts the call, and so does the syscall table |
| KernelTracer.Tracer.SysEnter | backend/bpf/agent.bpf.c:352-413 | one entry step: counters, in-flight state and event for each kind of call |
| KernelTracer.Tracer.EnterOpenat | backend/bpf/agent.bpf.c:368-385 | the path and flags are remembered and reported |
| KernelTracer.Tracer.EnterConnect | backend/bpf/agent.bpf.c:387-403 | only a readable IPv4 address is remembered and counted |
| KernelTracer.Tracer.CountResult | backend/bpf/agent.bpf.c:425-440 | errors and transferred bytes go to the process's existing entry, by kind of call |
| KernelTracer.Tracer.SysExit | backend/bpf/agent.bpf.c:415-480 | one exit step: counters, the failure or connect report, the in-flight entry removed |
| KernelTracer.FilterIsWrittenLessLeft | backend/bpf/agent.bpf.c:329-346 | in every run the filter is the one userspace wrote last, less exactly the processes whose followed exit could be reported since |
| KernelTracer.ReusedPidIsNotFollowed | backend/bpf/agent.bpf.c:236-346 | after such an exit and until userspace writes again, a process with that pid is followed if and only if all are observed, or it is pinned, or its comm matches |
| KernelTracer.EntryIff | backend/bpf/agent.bpf.c:284-346 | in every run a process has counters exactly from its first followed call that found fewer than 1024 others, until a followed exit of it that could be reported |
| KernelTracer.ReportsAre | backend/bpf/agent.bpf.c:307-413 | what an exec, a thread's exit, and each kind of call's entry put in a ring with room: the whole record, or nothing |
| KernelTracer.PathIsCut | backend/bpf/agent.bpf.c:368-374 | of a name its first 127 bytes before the NUL survive |
| KernelTracer.WordsConvert | backend/bpf/agent.bpf.c:387-466 | results narrow to the 32-bit number of the same residue, bit 31 is set without touching others, ports change byte order |
| KernelTracer.InFlightIsOwn | backend/bpf/agent.bpf.c:353-480 | if the filter answers alike at both ends of openat and connect: an in-flight entry exists if and only if its thread is inside that call and it was recorded, and holds that call's arguments; threads may return from calls never seen to begin |
| KernelTracer.OpenFailureIsOwn | backend/bpf/agent.bpf.c:442-455 | a returning openat is reported exactly if followed, failed, seen to begin and recorded, with its own path and flags; one not seen to begin is not reported |
| KernelTracer.ConnectResultIsOwn | backend/bpf/agent.bpf.c:457-477 | a returning connect is reported exactly if followed, seen to begin, recorded and not EINPROGRESS, with its own address, port and descriptor |
| KernelTracer.CallReturnsOnce | backend/bpf/agent.bpf.c:415-480 | two returns of a thread never answer the same entry, so a call has at most one report |
| KernelTracer.StalePathWithoutSteadyFilter | backend/bpf/agent.bpf.c:415-455 | a filter that changes in the middle of calls makes a failure carry the path of an earlier call |
| KernelTracer.OwnIffStored | backend/bpf/agent.bpf.c:353-480 | for any filter behaviour: an entry holds its source's arguments, and the source is the call the thread is in if and only if that call was stored |
| KernelTracer.ReportIsOwnIffStored | backend/bpf/agent.bpf.c:442-477 | so a followed exit reports its source's arguments, and its own call's if and only if that call was stored when it began |
| TracerAccounting.EveryAttemptIsAccountedFor | backend/bpf/agent.bpf.c:251-282 | attempts = delivered + dropped over all cpus, plus 2^64 per wrap of a drop counter |
| TracerAccounting.ReadDropCount | backend/internal/ebpfagent/agent.go:690-704 | the per-cpu sum modulo 2^64, else the single value, else 0 |
| TracerAccounting.ReportedDropsAreExact | backend/internal/ebpfagent/agent.go:690-704 | below 2^64 attempts, attempts = delivered + the number reported |
| TracerAccounting.LiveState.NoteEvent | backend/internal/ebpfagent/agent.go:352-392 | the counters stay folds over everything seen: per path, errors ≤ operations, and over all paths operations add up to the open events seen and errors to the failed ones; a connection without bit 31 adds a flow with its own address, port, process and comm unless its endpoint has one, and nothing else does |
| TracerAccounting.FilesStep | backend/internal/ebpfagent/agent.go:357-369 | one event keeps the per-path counters and both totals |
| TracerAccounting.LiveState.NoteOpen | backend/internal/ebpfagent/agent.go:357-369 | one more operation on the path, or on "(unknown)", and one more error exactly if the result is negative or bit 31 is set |
| TracerAccounting.LiveState.NoteConnect | backend/internal/ebpfagent/agent.go:370-390 | an unfailed connection adds its flow unless the endpoint has one |
| TracerAccounting.FileCountersMeanCalls | backend/internal/ebpfagent/agent.go:357-369 | per path: errors are the failures delivered plus entries carrying bit 31; operations are entries plus failures delivered |
| TracerAccounting.FailuresNeedEntries | backend/bpf/agent.bpf.c:368-455 | whatever the filter and the threads do: per path, failures to report plus calls still waiting never exceed the followed entries |
| TracerAccounting.SeenOrDropped | backend/bpf/agent.bpf.c:258-282 | what is delivered is part of what happened, and all of the entries if the ring had room for them |
| TracerAccounting.NoMoreErrorsThanOpens | backend/internal/ebpfagent/agent.go:357-369 | operations − errors = entries delivered with bit 31 clear; errors ≤ followed entries + entries delivered with bit 31 set, and ≤ the delivered ones if the ring had room for all |
| TracerAccounting.ErrorsAreCovered | backend/bpf/agent.bpf.c:284-430 | within one life of a followed process entry: errors + calls open now ≤ calls counted + calls other threads were in at its creation, those begun before the tracer included, + failed returns nobody saw begin |
| TracerAccounting.ErrorsWithinCallsIff | backend/bpf/agent.bpf.c:284-430 | from an entry's creation on, errors never exceed calls, in every continuation, if and only if no other thread of the process was inside a call then |
| TracerAccounting.MoreErrorsThanCalls | backend/bpf/agent.bpf.c:329-430 | a thread's exit in between makes the entry show two errors for one call |
| TracerAccounting.PinnedIsFollowed | backend/bpf/agent.bpf.c:236-249 | a pinned process is followed as long as the configuration is not rewritten |
| TracerAccounting.CountersAreTotals | backend/bpf/agent.bpf.c:352-440 | each of the eight counters equals, modulo 2^64, what the followed calls since the entry's creation are worth |
| TracerAccounting.SyscallTableIsExact | backend/bpf/agent.bpf.c:293-301 | every syscall in the table has its exact number of followed entries, and one that was followed is missing only if the table of 512 is full |
| CounterRates.Counters.ReadProcessStats | backend/internal/ebpfagent/agent.go:561-577 | each of the five rates is the sum of 64-bit differences over the elapsed time; the last values read are remembered |
| CounterRates.Counters.ReadSyscallCounts | backend/internal/ebpfagent/agent.go:579-617 | exactly the rows the entries call for; up to twelve of them, as rates, descending, none omitted larger than any shown |
| CounterRates.ChangedIs | backend/internal/ebpfagent/agent.go:588-597 | for entries with different keys: row (nr, n) exists exactly if n > 0 leads, modulo 2^64, from the value remembered for nr (or 0) to the value read, and once only |
| CounterRates.RowForIff | backend/internal/ebpfagent/agent.go:591-594 | an entry calls for a row exactly if its value is not the remembered one, and for one only |
| CounterRates.RatesGrow | backend/internal/ebpfagent/agent.go:567-575 | each entry adds to each of the five rates the difference in that rate's own counter |
| CounterRates.ExchangeSort | backend/internal/ebpfagent/agent.go:596-602 | in place: a descending permutation of what was there |
| CounterRates.Rank | backend/internal/ebpfagent/agent.go:482-491 | the first min(12, n) of the sorted rows, every omitted row ranked no higher than any kept |
| CounterRates.TickTelescopes | backend/internal/ebpfagent/agent.go:567-575 | one tick's differences add up to the growth of the remembered values, plus 2^64 per fall |
| CounterRates.RatesTelescope | backend/internal/ebpfagent/agent.go:561-577 | over any run, rate × time = sum over keys of the last value read + 2^64 per reading below its predecessor |
| CounterRates.ExactIffNeverFalls | backend/internal/ebpfagent/agent.go:561-577 | rates integrate to the counters if and only if no reading ever fell |
| CounterRates.RestartLooksLikeAFlood | backend/internal/ebpfagent/agent.go:567-569 | a counter restarted between two ticks, 10 then 3, shows 2^64 − 7 calls |
| History.PruneKeepsStrictlyNewer | backend/internal/storage/sqlite.go:198-203 | pruning keeps exactly the rows strictly newer than the (n+1)-st newest, ties included in the loss |
| History.PruneLeaves | backend/internal/storage/sqlite.go:201-203 | it leaves n rows if and only if the n-th newest is newer than the first one beyond the limit |
| History.PruneIsExactWithoutTies | backend/internal/storage/sqlite.go:201-203 | it keeps as many rows as allowed if and only if the last allowed is newer than the next; never more |
| History.TiesEraseEverything | backend/internal/storage/sqlite.go:201-203 | a full table of equal stamps is emptied |
| History.PruneAscending | backend/internal/storage/sqlite.go:198-200 | with ascending keys it keeps exactly the last n rows |
| History.Database.constructor | backend/internal/storage/sqlite.go:37-70 | an empty database |
| History.Database.RecordSnapshot | backend/internal/storage/sqlite.go:130-173 | at most one per 1500 ms; the last try counts even if the statement fails; what is stored has the next id and the reading as its stamp |
| History.Database.RecordEvent | backend/internal/storage/sqlite.go:175-189 | a reused id replaces the older row; the write may prune |
| History.Database.MaybePrune | backend/internal/storage/sqlite.go:191-206 | every 32nd write, and no other, trims snapshots to 1000 and events to 2000; the excess of both tables together never exceeds writes mod 32, snapshots stay the newest part of all stored, and events are what the run of writes leaves |
| History.Database.TrimSnapshots | backend/internal/storage/sqlite.go:198-200 | the newest 1000 snapshots remain |
| History.RowsAreLatest | backend/internal/storage/sqlite.go:175-206 | in every run, whatever ids and stamps events come with: the table has at most one row of an id, the event recorded last under it |
| History.WithoutIdIs | backend/internal/storage/sqlite.go:175-189 | replacing takes away the rows with that id and no other |
| History.SizesAreBounded | backend/internal/storage/sqlite.go:191-206 | the tables stay below 1032 and 2032 rows, snapshots never below the newest 1000; the in-memory store holds exactly the newest 5000 of each |
| History.Database.QueryHistory | backend/internal/storage/sqlite.go:208-252 | oldest first, those of the sanitized name asked for, 100 for no limit and never more than 1000; unfiltered, the newest snapshots ever stored, as if nothing had been pruned |
| History.HandleHistory | backend/internal/api/handlers.go:112-121 | the handler's name is sanitized twice before rows are selected; its limit, 100 if not positive, is cut to the configured maximum and then to 1000 |
| History.ConfiguredNameIsFoundIff | backend/internal/api/handlers.go:112-121 | asking for the configured name finds the rows stored under it if and only if the 15-byte cut does not split a rune; if it does, rows without a name come instead |
| History.Database.QueryEvents | backend/internal/storage/sqlite.go:254-287 | the stamps of the newest rows; over any run with the clock in order, ids not reused and events spaced for the limit, those of the newest events ever recorded; those events themselves if no two share a stamp |
| History.FilteredQueryUnaffectedIff | backend/internal/storage/sqlite.go:208-224 | a query by comm is unaffected by pruning if and only if enough matching rows are left or none was pruned |
| History.EventQueryUnaffectedIff | backend/internal/storage/sqlite.go:191-206 | a prune leaves the stamps an n-row query sees as they were if and only if the n-th newest stamp is newer than the first one beyond the limit, or nothing is beyond it |
| History.EventQueriesUnaffectedIff | backend/internal/storage/sqlite.go:175-206 | over whole runs, with the clock in order and ids not reused: an n-row query shows at every moment, however snapshot writes fall in between, the stamps it would without pruning, if and only if in any 2001 events in a row the n-th newest is stamped later than the oldest |
| History.TableIsNewest | backend/internal/storage/sqlite.go:175-206 | with events so spaced the table always holds at least the newest n of all events, in order |
| History.PruneNewest | backend/internal/storage/sqlite.go:201-203 | what a prune does to the newest part of all events, ties allowed: a newest part again, with k rows exactly if the k-th newest beats the first beyond the limit |
| History.DenseShows | backend/internal/storage/sqlite.go:175-206 | where events are denser, some run of writes makes a query lose a row |
| History.SelectedStamps | backend/internal/storage/sqlite.go:254-258 | however ties are ordered, an answer's stamps are the newest n |
| History.SelectsAscending | backend/internal/storage/sqlite.go:254-258 | with ascending stamps there is one possible answer: the last n rows, newest first |
| History.NewestAnswers | backend/internal/storage/sqlite.go:208-252 | as many newest rows as asked for answer a query as all rows would |
| History.ReverseInPlace | backend/internal/storage/sqlite.go:245-247 | the two-index loop reverses the slice |
| History.Memory.RecordSnapshot | backend/internal/storage/memory.go:26-53 | appends with the next id, keeping the newest 5000 |
| History.Memory.RecordEvent | backend/internal/storage/memory.go:55-63 | appends, keeping the newest 5000 |
| History.Filtered | backend/internal/storage/memory.go:69-75 | the loop keeps exactly the rows of the given comm, or all |
| History.Memory.QueryHistory | backend/internal/storage/memory.go:65-82 | the newest matching rows, oldest first, 100 for no limit and never more than 1000; unfiltered, of all ever stored |
| History.Memory.QueryEvents | backend/internal/storage/memory.go:84-100 | the newest events ever recorded, newest first, 50 for no limit and never more than 500 |
| History.SameHistory | backend/internal/storage/memory.go:26-82 | fed the same stored samples at the same times, both stores answer unfiltered history queries alike |
| History.SameEvents | backend/internal/storage/memory.go:84-100 | fed the same events, clock in order and ids not reused, both stores answer with the same stamps if the events are spaced for the limit, and with the same rows if no two share a stamp |
| AsyncWriter.NothingLostNothingReordered | backend/internal/storage/async.go:34-86 | in every interleaving, per queue: accepted = written, then in hand, then waiting, in order; offered = accepted + dropped; closed only after the loop ended |
| AsyncWriter.OnlyOverflowIsLost | backend/internal/storage/async.go:34-68 | in every interleaving, per queue: written, in hand and waiting are exactly, in order, the items offered while fewer than the capacity waited; dropped counts the others |
| AsyncWriter.NoWriteAfterClose | backend/internal/storage/async.go:78-86 | once the inner store is closed no continuation writes to it |
| AsyncWriter.PanicsIff | backend/internal/storage/async.go:78-83 | with no further call of Close, no continuation of a run panics if and only if no call began while another was between looking at the stop channel and closing it |
| AsyncWriter.SecondSignalPanics | backend/internal/storage/async.go:81 | a run has panicked exactly if the stop channel was closed a second time |
| AsyncWriter.OverlappingClosesPanic | backend/internal/storage/async.go:78-83 | two calls interleaved between look and close do |
| AsyncWriter.ClosesInTurnAreSafe | backend/internal/storage/async.go:78-86 | if no Close begins while another is in between, none panics |
| AsyncWriter.Async.constructor | backend/internal/storage/async.go:19-32 | a non-positive capacity becomes 256 |
| AsyncWriter.Async.RecordSnapshot | backend/internal/storage/async.go:52-59 | queued if there is room, else dropped; never blocks |
| AsyncWriter.Async.RecordEvent | backend/internal/storage/async.go:61-68 | likewise for events |
| AsyncWriter.Async.Turn | backend/internal/storage/async.go:34-50 | one turn of the loop: it stops, or writes the oldest item of the chosen queue, or of the other if that is empty, and nothing else |
| AsyncWriter.Async.PickSnap | backend/internal/storage/async.go:40 | takes the oldest queued snapshot in hand |
| AsyncWriter.Async.PickEvent | backend/internal/storage/async.go:44 | takes the oldest queued event in hand |
| AsyncWriter.Async.FinishWrite | backend/internal/storage/async.go:41-47 | what the loop holds is written, and nothing else |
| AsyncWriter.Async.End | backend/internal/storage/async.go:35-39 | the loop ends and closes the done channel, only when the stop channel is closed |
| AsyncWriter.Async.WriteSnap | backend/internal/storage/async.go:40-43 | the oldest queued snapshot, and only it, is written, while others offer more |
| AsyncWriter.Async.WriteEvent | backend/internal/storage/async.go:44-47 | likewise for events |
| AsyncWriter.Async.Look | backend/internal/storage/async.go:79-80 | whether the stop channel is still open |
| AsyncWriter.Async.Signal | backend/internal/storage/async.go:81-82 | closes it, fatally if it is closed already |
| AsyncWriter.Async.Return | backend/internal/storage/async.go:85 | closes the inner store |
| AsyncWriter.Async.Meanwhile | backend/internal/storage/async.go:34-86 | whatever the loop, producers and other calls of Close do in between, a call's own position stays and a closed channel stays closed |
| AsyncWriter.Async.Close | backend/internal/storage/async.go:78-86 | wherever the loop is and among other calls of Close: returns with the loop ended and the inner store closed, and panics only if calls overlapped |
| AsyncWriter.Async.Await | backend/internal/storage/async.go:84 | waiting for done: everyone else goes on, and the loop ends once its select takes the stop channel |
| Aggregation.Counter.Add | backend/internal/agg/rates.go:22-27 | adds in 64 bits, then closes the window if a second has passed |
| Aggregation.Counter.Update | backend/internal/agg/rates.go:29-52 | a window of a second or more closes: its rate, the smoothed rate, the count reset |
| Aggregation.Counter.Rate1s | backend/internal/agg/rates.go:54-59 | the rate of the latest closed window |
| Aggregation.Counter.Rate5s | backend/internal/agg/rates.go:61-66 | the smoothed rate |
| Aggregation.CounterConserves | backend/internal/agg/rates.go:22-52 | Σ window rate × length + open count + 2^64 per overflow of the open count = everything added |
| Aggregation.WindowsTakeASecond | backend/internal/agg/rates.go:29-52 | over any run and any clock: every closed window is a second or longer, after an operation the open one is shorter, and the lengths add up to the time from making to the open window's start |
| Aggregation.OpenWindowHolds | backend/internal/agg/rates.go:22-52 | the open count is, modulo 2^64, what was added after the last operation that closed a window; that one's own addition went into the window closed |
| Aggregation.ConservesIffNeverOverflows | backend/internal/agg/rates.go:22-52 | nothing is lost if and only if the open count never overflowed |
| Aggregation.AverageStaysInHull | backend/internal/agg/rates.go:29-52 | the smoothed rate stays between the smallest and largest window rate seen; the one-second rate is the latest |
| Aggregation.RunSmooths | backend/internal/agg/rates.go:29-52 | a run smooths its average once for every window it closes |
| Aggregation.AverageConverges | backend/internal/agg/rates.go:29-52 | if a counter's further operations close n windows, each at the same rate, its average ends (2/3)^n times as far from that rate as it was; an average of zero is set by the first |
| Aggregation.MoveConserves | backend/internal/agg/rates.go:79-95 | each step of RateMap.Add keeps counted + carried = offered |
| Aggregation.NoDeltaIsLost | backend/internal/agg/rates.go:79-95 | in every interleaving of threads, what was offered for a key is in its counter or still carried |
| Aggregation.OneCounterPerKey | backend/internal/agg/rates.go:84-92 | a key, once bound to a counter, stays bound to it |
| Aggregation.Clone | backend/internal/agg/snapshot.go:204-218 | an equal snapshot that shares no slice |
| Aggregation.SnapshotBuilder.constructor | backend/internal/agg/snapshot.go:153-161 | empty windows |
| Aggregation.SnapshotBuilder.Update | backend/internal/agg/snapshot.go:163-196 | each series is the last 60 newest points ever supplied, the timeline the last 300 events; the rest of the snapshot is as given |
| Aggregation.SnapshotBuilder.TakeCpu | backend/internal/agg/snapshot.go:169-171 | only the newest supplied point is ingested, if any |
| Aggregation.SnapshotBuilder.TakeIo | backend/internal/agg/snapshot.go:172-174 | likewise |
| Aggregation.SnapshotBuilder.TakeNet | backend/internal/agg/snapshot.go:175-177 | likewise |
| Aggregation.SnapshotBuilder.AddEvent | backend/internal/agg/snapshot.go:244-255 | the timeline is the last 300 of all events ever added; nothing else changes |
| Aggregation.SnapshotBuilder.Latest | backend/internal/agg/snapshot.go:198-202 | the latest snapshot's content in fresh storage |
| Aggregation.LastNSnoc | backend/internal/agg/snapshot.go:220-242 | capping as one goes is the same as capping the whole history |
| Aggregation.WritesStayPrivate | backend/internal/agg/snapshot.go:163-255 | over any sequence of results fetched, arbitrary writes through the slices of any of them, events and snapshots supplied, the builder shows what the events and snapshots alone make it show |
| ProcDecoders.UintRoundTrip | backend/internal/enrich/proc.go:256-259 | printed decimals parse back, up to the width's maximum |
| ProcDecoders.IntRoundTrip | backend/internal/enrich/proc.go:255-258 | so do signed ones, with or without a plus sign |
| ProcDecoders.IntSaturates | backend/internal/enrich/proc.go:255-258 | a number that does not fit comes back as the nearest that does, with an error |
| ProcDecoders.StatRoundTrip | backend/internal/enrich/proc.go:243-261 | state, ppid, times, threads and start time come back from any line, whatever characters the comm contains |
| ProcDecoders.StatAcceptedIff | backend/internal/enrich/proc.go:243-253 | a line is accepted if and only if a character follows what follows its last closing parenthesis, and twenty fields are there |
| ProcDecoders.ParseHexIPPort | backend/internal/enrich/proc.go:405-440 | the decoder, its sixteen-byte loop and all error returns |
| ProcDecoders.AcceptedIff | backend/internal/enrich/proc.go:405-440 | a text is accepted if and only if it is 8 or 32 hexadecimal digits, one colon and a hexadecimal port up to FFFF |
| ProcDecoders.EndpointOf | backend/internal/enrich/proc.go:405-440 | then the port is the number written, and each group of eight digits, in either case of letters, gives its four bytes little-endian |
| ProcDecoders.BytesRoundTrip | backend/internal/ebpfagent/agent.go:798-800 | reading a word little-endian gives back the four bytes it was made of |
| ProcDecoders.ThreeDecodersAgree | backend/internal/realengine/engine.go:650-661 | for what the kernel prints, all three decoders name the same IPv4 address, and both text decoders the same port |
| ProcDecoders.DecodersAgreeOnV4 | backend/internal/realengine/engine.go:650-661 | on any text that the strict decoder accepts as IPv4, the lenient one reads the same |
| ProcDecoders.LenientOtherwise | backend/internal/realengine/engine.go:650-661 | on other text the lenient one names 0.0.0.0, or 255.255.255.255 where the number is too large |
| ProcDecoders.V6Words | backend/internal/enrich/proc.go:424-434 | four-byte groups printed as words decode to the same bytes |
| ProcDecoders.V6Printed | backend/internal/enrich/proc.go:424-434 | they print as eight hexadecimal digits each, without a colon |
| ProcDecoders.V6RoundTrip | backend/internal/enrich/proc.go:421-436 | every IPv6 address and port printed by the kernel decodes to itself |
| ProcDecoders.DottedInjective | backend/internal/ebpfagent/agent.go:798-800 | different addresses have different dotted forms |
| ProcDecoders.FlowKeyInjective | backend/internal/ebpfagent/agent.go:373-374 | two connections share a flow key if and only if address and port agree |

## Left out

- The Unicode tables (letter, digit, control, space) are parameters of `CommSanitizer.SanitizeComm`, of which only that the classes are disjoint is used.
- CommSanitizer.SanitizedTwice: assumes of the tables that letters, digits and the marks are neither white space nor control characters, and that U+FFFD is none of them.
- TracerAccounting.ErrorsWithinCallsIff: like `ErrorsAreCovered`, speaks of runs of fewer than 2^64 firings, within which no counter wraps around.
- `float64` is modelled as `real`; rounding, infinities and NaN are not.
- Clocks, `/proc` contents, the SQL engine, the ring buffer's free space and map iteration order are inputs or free choices.
- Tracepoint firings are taken one at a time: the insertion race in `bump_syscall`, and a process exiting in the middle of `syncTargetsToMap`, are not modelled.
- Syscall numbers are those of x86_64; the arm64 table of the eBPF program is not.
- Event fields that no property needs: timestamp, uid, source address; `handleEvent` and its timeline rows.
- The text of IPv6 addresses as Go prints it; decoders yield bytes.
- `/proc` scanning by comm and command line (`findByComm`, `findByCmdline`) and the liveness test: their results are the `Scan` input.
- History.Database.constructor: an existing database file, whose rows a new process finds with the write count back at zero, is not modelled.
- Pruning statements that fail, JSON columns, `Close` of the database; event rows carry only what queries and pruning depend on.
- History.Database.QueryEvents: promises stamps only when stamps tie, because SQL leaves the order of ties open; and nothing across runs in which the clock runs backwards or an event id is used again.
- WebSocketHub.Hub.Run: registering and unregistering are received cases; the two-second timeouts and the greeting messages of `ServeWS` are not modelled, and `ClientCount` is read between actions only.
- Aggregation.SnapshotBuilder.Update: nil slices are not told apart from empty ones, and a producer that goes on writing to the snapshot it handed over is not modelled.
- Aggregation.SnapshotBuilder.Latest: event attributes (a shared map) are not part of the rows.
- TracerAccounting.LiveState.NoteEvent: event counters are unbounded numbers; Go's 64-bit wrap-around of them is not modelled, and the lock is implicit.
- CounterRates.Counters.ReadProcessStats: CPU and disk rates of the same tick, and the fallback for a non-positive elapsed time, are not modelled.
- Aggregation.NoDeltaIsLost: the counter's own rates are left to the single-counter lemmas; here a counter is the sum it received.
- Configuration loading, HTTP handlers, authentication, formatting, chat providers, the mock generator, the Windows engine and `calculateSRE` hold no property of this kind.
