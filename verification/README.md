# FileGuard verification

A Dafny model of FileGuard: a path-level access policy is parsed, validated, compiled to
inode identities, written into kernel hash maps and decided there by a separate program,
while events flow back through a blocking ring queue to log sinks and subscribers. The
proofs tie these parts together. `dafny verify dfyconfig.toml` covers the whole project.

## The parts

| file | models | form |
|---|---|---|
| `Common.dfy` | optional values, results, machine integers | values |
| `Policy.dfy`, `DecisionEngine.dfy` | the policy, its validation, the path-level decision | values, methods with loops |
| `FileIdentity.dfy` | identities, their rendering, the reverse table | values, a class |
| `Compiler.dfy` | `PolicyCompiler::compile` | methods with loops |
| `ConfigParser.dfy` | `ConfigParser::from_json` on a JSON tree | functions, methods with loops |
| `BpfMap.dfy` | the kernel hash map contract: bounded insertion, `BPF_MAP_GET_NEXT_KEY` as bpf(2) describes it | functions, methods with loops |
| `KernelProgram.dfy` | the LSM program as map lookups | functions |
| `MeaningPreservation.dfy` | installed maps against the policy and the engine | lemmas |
| `UpdateProtocol.dfy` | `apply_policy` as single map writes with opens between them | a transition system |
| `EbpfManager.dfy`, `Controller.dfy` | the enforcer, the policy manager, the controller | classes |
| `EventQueue.dfy` | `SpscQueue`, one call at a time | a class |
| `QueueSteps.dfy`, `QueueGuarantees.dfy` | `SpscQueue` with producer, consumer and stopper interleaved | a transition system |
| `QueueLinearizable.dfy`, `LostWakeups.dfy` | the interleaved queue against the sequential one; the runs that lose a wakeup | lemmas |
| `StreamClient.dfy`, `ClientRing.dfy` | one subscriber, and its threads on the interleaved ring | values, lemmas |
| `Pipeline.dfy` | the event pipeline, all threads interleaved | a transition system |
| `ConsumerLoop.dfy` | `emit_event` and `consumer_loop` over the queue object | a class |
| `Framing.dfy` | newline framing of the control socket, both directions | methods with loops |

The enforcer carries a ghost history of the protocol steps its methods perform, so what
`UpdateProtocol` proves of every history holds at every instant of every call. Likewise
`QueueLinearizability.Linearizable` justifies the abstract queue that `Pipeline` uses, and
`ClientOnRing.ClientRefinesRing` its subscribers.

## Where the code and its documents part

- docs/04-architecture.md:83-84 says a half-updated map never makes decisions. An open
  that read `enabled` before the pause still makes its later lookups during the update:
  `UpdateProtocol.ReloadCanDenyAllowedOpen` and `ReloadCanAllowDeniedOpen` give the runs.
  `OverlappingOpenExact` says exactly when such an open is decided as the policy then in
  force, or one whose update began since, would decide it.
- A default action of ALLOW is not part of the compiled policy; the kernel always falls
  through to DENY (`MeaningPreservation.DefaultAllowDisagreement`, exact condition in
  `AgreementUnlessDefaultAllow`).
- The engine compares paths, the kernel identities. Hard links make them disagree
  (`HardLinkDisagreement`; exact conditions for one request in `AgreementPerRequest`, for
  all of them in `AgreementIffAliasInvariant`).
- `try_push` and `try_pop` notify without the mutex, so the other thread can miss the
  notification and sleep on (`LostWakeups.LostWakeup`, `LostProducerWakeup`; exact
  conditions in `QueueGuarantees.ForgottenExactly`, `ProducerForgottenExactly`). A stream
  client combines `try_push` with `pop`: its writer can sleep on a non-empty queue until
  the next event.
- `status()` falls back on cached fields if the config map cannot be read. It then claims
  enforcement that is off exactly when the latest update was given up after its pause and
  an earlier one had completed since the load (`EbpfManager.LinuxEBPFEnforcer.Status`; runs
  in `StaleStatus` and `StaleStatusRun`).
- `validate` accepts relative process paths, the parser does not; only the latter makes
  event paths unambiguous (`Controllers.ValidatedPolicyCanCollide`, exact condition in
  `EnrichmentUnambiguousIff`).
- A policy version outside 32 bits is cut, not rejected (`VersionPastRangeAccepted`, exact
  condition in `ConfigParsers.VersionWraps`), and rule numbers repeat after 2^32 rules (`MeaningPreservation.RuleNumberExact`).

## Model

| member | source | states |
|---|---|---|
| `Policies.ValidateResources` | src/policy.cpp:12-27 | accepts exactly lists of absolute, unique paths with no operation but OPEN; the hash set handed on holds exactly the listed paths; an error message is true of the policy |
| `Policies.ValidateRules` | src/policy.cpp:29-58 | accepts exactly rules that are named uniquely, protect a listed path, and name a non-empty exe_path and OPEN; an error message is true of the policy |
| `Policies.Validate` | src/policy.cpp:7-59 | the set-accumulating passes accept exactly the declaratively valid policies, and every rejection describes a real defect |
| `Policies.IsProtectedScan` | src/policy.cpp:61-66 | the scan answers whether any protected resource has the path |
| `Policies.FindRuleScan` | src/policy.cpp:68-79 | the scan returns the first matching rule |
| `DecisionEngine.Evaluate` | src/decision_engine.cpp:5-31 | unprotected exactly for unlisted paths, a rule hit exactly if a listed path has a matching rule; a hit carries action and id of the first matching rule, every other case its default |
| `FileIdentity.ToTextInjective` | include/fileguard/file_id.hpp:42-45 | "major:minor:ino" determines the identity |
| `FileIdentity.ToTextMeans` | include/fileguard/file_id.hpp:42-45 | the text is major, minor and inode number in decimal notation, in this order, separated by colons |
| `FileIdentity.RenderedIsNotAbsolute` | include/fileguard/file_id.hpp:42-45 | a rendered identity never looks like an absolute path |
| `FileIdentity.PathResolver.Add` | src/path_resolver.cpp:5-7 | the last path added for an identity replaces earlier ones and nothing else changes |
| `FileIdentity.PathResolver.ResolveId` | src/path_resolver.cpp:9-15 | a known identity gives its path; the text of an unknown one belongs to no other identity |
| `FileIdentity.UnambiguousIff` | src/path_resolver.cpp:9-15 | resolve is injective over all identities if and only if the table is and none of its paths equals the rendering of an unknown identity |
| `Compiler.ResolveResources` | src/policy_compiler.cpp:45-59 | succeeds exactly when every protected path resolves to a non-zero inode, recording each path with its identity; a failure names the path and cause |
| `Compiler.FindResolved` | src/policy_compiler.cpp:66-72 | the inner search finds the identity of a listed path and fails exactly on unlisted ones |
| `Compiler.Compile` | src/policy_compiler.cpp:37-96 | succeeds if and only if the policy is valid and all its paths resolve to real inodes; the result has the version of the policy and, entry by entry, the identities the resolver gives for its paths, the operations, the actions and the numbers from 1; the "unresolved protected resource" error never happens |
| `Compiler.TranslationUnique` | src/policy_compiler.cpp:42-92 | that description determines the compiled policy |
| `Compiler.CompiledIdsValid` | src/policy_compiler.cpp:53-93 | no compiled identity has a zero inode, and every compiled rule refers to a compiled protected resource |
| `BpfMap.FirstWins` | src/ebpf_manager_linux.cpp:171-191 | with BPF_NOEXIST and EEXIST ignored, the first item with a key is the one that stays |
| `BpfMap.InstallGrows` | src/ebpf_manager_linux.cpp:171-191 | the map after a prefix of the insertions is a submap of the map after all of them |
| `BpfMap.InsertAll` | src/ebpf_manager_linux.cpp:171-191 | an insertion loop holds the install of the prefix it got through; with no fault but a full map it succeeds if and only if the distinct keys fit |
| `BpfMap.ClearMap` | src/ebpf_manager_linux.cpp:119-148 | whatever the walk order, deleting the key at hand and asking for the successor of the deleted key visits entries once each, in order, ends, and leaves the map empty unless the walk fails |
| `BpfMap.WalkGoesOn` | src/ebpf_manager_linux.cpp:133-142 | on a map left alone the walk yields the keys one after the other and then ends |
| `KernelProgram.FgDecision` | ebpf/fileguard.bpf.c:124-157 | unknown process exactly for inode zero, otherwise a rule hit exactly if the pair has an entry; a hit carries action and number of the entry, everything else denies; the return value is 0 exactly for ALLOW |
| `KernelProgram.FileOpen` | ebpf/fileguard.bpf.c:162-205 | an open is denied exactly if enforced, on a protected file and without an ALLOW entry for an identified process; an event is written exactly for protected files when a slot is free, and carries the action taken |
| `MeaningPreservation.ProtectedInstall` | src/ebpf_manager_linux.cpp:171-178 | an identity is in the installed protected map if and only if some protected path resolves to it |
| `MeaningPreservation.RulesInstall` | src/ebpf_manager_linux.cpp:179-191 | for any resolver, each identity pair holds the number, action and operation of the first policy rule whose resolved identities match, and nothing if there is none |
| `MeaningPreservation.KernelFollowsPolicyById` | ebpf/fileguard.bpf.c:124-205 | for every compilable policy, resolver and pair of identities the kernel return value and event are those the first rule with matching resolved identities prescribes |
| `MeaningPreservation.EarlyExitsChangeNothing` | ebpf/fileguard.bpf.c:128-135 | on installed maps the exits for a zero file or process inode give the allow/deny result of plain map lookups |
| `MeaningPreservation.AgreementUnlessDefaultAllow` | src/decision_engine.cpp:28-30 | kernel and engine agree on a request if and only if the default is DENY, the path is unprotected or a rule matches; whatever the default, the kernel allows no more than the engine |
| `MeaningPreservation.DefaultAllowDisagreement` | src/decision_engine.cpp:28-30 | a compilable default-ALLOW policy with distinct inodes and a request on which they disagree |
| `MeaningPreservation.CompilationPreservesMeaning` | src/decision_engine.cpp:5-31 | default DENY and distinct inodes: kernel result, event action and reason equal the decision of the engine, and a reported rule number k names the rule rules()[k-1] whose id the engine reports |
| `MeaningPreservation.RuleNumberExact` | src/policy_compiler.cpp:62-87 | rule number minus one is the position of the rule if and only if the 32-bit counter has not wrapped |
| `MeaningPreservation.SpellingForVerdict` | ebpf/fileguard.bpf.c:124-157 | each kernel verdict is the verdict of the engine on some spelling of the same two files |
| `MeaningPreservation.AgreementPerRequest` | src/decision_engine.cpp:10-26 | for default DENY and any resolver, they agree on a request if and only if: the path is listed and the first rules by identity and by path are the same or say the same, or it is unlisted and no name of a protected file, or allowed by identity |
| `MeaningPreservation.AgreementIffAliasInvariant` | src/decision_engine.cpp:5-31 | for default DENY, kernel and engine agree on every request if and only if the engine answers alike for all names of one file |
| `MeaningPreservation.HardLinkDisagreement` | src/decision_engine.cpp:10-15 | a second name for a protected file makes them disagree: allowed by the engine, denied by the kernel |
| `UpdateProtocol.ProgressStep` | src/ebpf_manager_linux.cpp:150-205 | every step keeps: the maps of an update under way are empty or an install prefix, and an enabled kernel is idle and holds exactly the last applied policy |
| `UpdateProtocol.CoveredStep` | src/ebpf_manager_linux.cpp:167-191 | every step keeps: each map is empty or a submap of the full install of one policy given to apply_policy, counted from any policy on that was given before the update under way |
| `UpdateProtocol.Invariant` | src/ebpf_manager_linux.cpp:150-205 | both hold after every history of map writes, with failures and unloads anywhere; while enabled the policy in the kernel is the last one given |
| `UpdateProtocol.WholePolicyOpen` | ebpf/fileguard.bpf.c:170-205 | an open whose three reads have no pause between them is a pass-through or gets the verdict of one complete policy, the one whose version the config map shows |
| `UpdateProtocol.WindowCovered` | src/ebpf_manager_linux.cpp:167-191 | from an enabled instant on, each map comes from the policy then in force or one whose update began later |
| `UpdateProtocol.OverlappingOpenSound` | ebpf/fileguard.bpf.c:137-149 | an open overlapping updates denies only files protected by the policy in force at its enabled read or one whose update began before its last lookup, and a POLICY_RULE verdict is the entry of such a policy |
| `UpdateProtocol.OverlappingOpenExact` | ebpf/fileguard.bpf.c:128-205 | an open that read "enabled" is decided as one of those policies decides it if and only if: having found the file, its rule lookup hits, the process is unidentified or one of them has no rule for the process; having missed it, one of them does not protect the file |
| `UpdateProtocol.ReloadCanDenyAllowedOpen` | src/ebpf_manager_linux.cpp:158-169 | reloading the policy in force can deny any open on a protected file that it allows, with the interleaving that does it |
| `UpdateProtocol.ReloadCanAllowDeniedOpen` | src/ebpf_manager_linux.cpp:158-168 | it can also allow any open that it denies |
| `EbpfManager.LinuxEBPFEnforcer.constructor` | src/ebpf_manager_linux.cpp:37 | a new enforcer is unloaded and has an empty history |
| `EbpfManager.LinuxEBPFEnforcer.LoadProgram` | src/ebpf_manager_linux.cpp:43-117 | succeeds exactly if not loaded and every call of load succeeds, the LSM list naming bpf included, leaving empty maps with enforcement off; a failure changes nothing |
| `EbpfManager.ContainsMeans` | src/ebpf_manager_linux.cpp:92 | the LSM list test finds the name exactly if it occurs in the text |
| `EbpfManager.LinuxEBPFEnforcer.DetachProgram` | src/ebpf_manager_linux.cpp:234-250 | afterwards nothing is attached or enforced, the cached version is 0 and the cached counts stay |
| `EbpfManager.LinuxEBPFEnforcer.ClearProtected` | src/ebpf_manager_linux.cpp:168 | deletes entries as single recorded steps; on success the map is empty and nothing else changed |
| `EbpfManager.LinuxEBPFEnforcer.ClearRules` | src/ebpf_manager_linux.cpp:169 | the same for the rules map |
| `EbpfManager.LinuxEBPFEnforcer.InsertProtectedResources` | src/ebpf_manager_linux.cpp:171-178 | on success the map is the install of the protected resources; without faults that happens if and only if the distinct identities fit |
| `EbpfManager.LinuxEBPFEnforcer.InsertRules` | src/ebpf_manager_linux.cpp:179-191 | on success the map is the install of the rules; without faults that happens if and only if the distinct keys fit |
| `EbpfManager.LinuxEBPFEnforcer.ReplaceMaps` | src/ebpf_manager_linux.cpp:167-191 | both maps are cleared and refilled or an error of this phase is returned; without faults success means exactly that the policy fits |
| `EbpfManager.LinuxEBPFEnforcer.ApplyPolicy` | src/ebpf_manager_linux.cpp:150-205 | success leaves exactly the install of the policy, enabled with its version; a failure before the pause changes nothing, every later one leaves enabled = 0 and the cached status as it was; without faults success depends exactly on capacity and the only errors are failed insertions |
| `EbpfManager.SwitchDecides` | src/ebpf_manager_linux.cpp:158-205 | the kernel is enabled exactly if the last step that touched the switch enabled it |
| `EbpfManager.LinuxEBPFEnforcer.Status` | src/ebpf_manager_linux.cpp:207-220 | an enforcing status has version and both counts of one applied policy; with the config map readable it is the policy in the kernel; it claims an enforcement that is off if and only if the config map cannot be read and the latest update was given up after its pause while an earlier one had completed since the load |
| `EbpfManager.StaleStatus` | src/ebpf_manager_linux.cpp:207-220 | after the update of any policy too large for the maps, a status that cannot read the config map says enforcing while enforcement is off |
| `EbpfManager.StaleStatusRun` | src/ebpf_manager_linux.cpp:150-220 | a run from a new enforcer that gets there |
| `Controllers.OverwriteLastWins` | src/controller.cpp:144-154 | after adding pairs in order, an identity is known if and only if it was added, with the path added last |
| `Controllers.EnrichmentFaithful` | src/controller.cpp:143-154 | walking compiled and source lists in step: each known identity resolves to a configured path that has this identity, and exactly the compiled identities are known |
| `Controllers.EnrichmentExact` | src/controller.cpp:143-154 | when several paths have one identity, the last process path of the rules is reported, and only without one the last protected path |
| `Controllers.EventNamesFiles` | src/controller.cpp:230-231 | under the table of a policy, a logged event on a known file names it by a configured path that resolves to it, and likewise for the program |
| `Controllers.EnrichmentUnambiguousIff` | src/controller.cpp:143-154 | events name files unambiguously if and only if no configured path imitates a rendered unknown identity |
| `Controllers.ParsedPoliciesUnambiguous` | src/config_parser.cpp:48-50 | for policies with absolute process paths, which is all the parser accepts, resolve is injective over all identities |
| `Controllers.ValidatedPolicyCanCollide` | src/policy.cpp:45-51 | validate alone admits a policy for which two identities are rendered alike |
| `Controllers.BuildResolver` | src/controller.cpp:143-154 | the two loops build the table of the aligned pairs |
| `Controllers.PolicyManager.InstallPolicy` | src/controller.cpp:55-61 | the current policy is replaced if and only if the new one is present and valid, otherwise it stays |
| `Controllers.Controller.constructor` | src/controller.cpp:97-124 | before any load there is no current policy and the kernel is not enabled |
| `Controllers.Controller.LoadPolicy` | src/controller.cpp:126-164 | a load is a transaction: success makes userspace, resolver and kernel agree on the new policy, with its version in the config map and its version and counts in the status; a failure keeps policy and resolver and leaves the kernel untouched or paused; an enabled kernel always holds the install of the current policy; the last validation never fails; without faults success is exactly "compiles and fits" |
| `Controllers.Controller.Status` | src/controller.cpp:186-193 | unless the config map cannot be read, an enforcing report has the version and counts of the current policy |
| `Controllers.Controller.LoadAll` | docs/04-architecture.md:60-66 | after any serialized sequence of loads the current policy is the last one that loaded |
| `Controllers.CurrentPolicyEnforced` | src/controller.cpp:126-164 | while the kernel is enabled the config map shows the version of the current policy, every open is decided as that policy prescribes for the two files, and an event is reported under a configured path of the opened file |
| `Controllers.CurrentPolicyDecides` | docs/04-architecture.md:52 | for a default-DENY policy with distinct inodes the path-level engine mirrors what the running kernel decides under the current policy |
| `EventQueue.SpscQueue.Create` | include/fileguard/event_queue.hpp:29-31 | a capacity below 2 is refused, any other gives an empty open queue |
| `EventQueue.SpscQueue.Push` | include/fileguard/event_queue.hpp:37-47 | appends the item unless stopped or full; a stop wins over a full ring; nothing else changes |
| `EventQueue.SpscQueue.TryPush` | include/fileguard/event_queue.hpp:50-58 | appends the item or reports a full ring, whether stopped or not |
| `EventQueue.SpscQueue.Pop` | include/fileguard/event_queue.hpp:61-71 | takes the first item; on an empty ring it reports the end exactly when stopped |
| `EventQueue.SpscQueue.TryPop` | include/fileguard/event_queue.hpp:73-81 | takes the first item or reports an empty ring |
| `EventQueue.SpscQueue.RequestStop` | include/fileguard/event_queue.hpp:85-92 | only the stop flag changes |
| `QueueSteps.StoreSlotOk` | include/fileguard/event_queue.hpp:42-42 | storing into the slot at head overwrites no item still to be taken, and it is not the slot the consumer takes |
| `QueueSteps.TakeSlotOk` | include/fileguard/event_queue.hpp:65-65 | moving out of the slot at tail yields the next accepted item and disturbs no other |
| `QueueSteps.RingStep` | include/fileguard/event_queue.hpp:37-81 | the ring invariant, with what each thread knows from stale index reads, survives every step of every thread |
| `QueueGuarantees.BaseStep` | include/fileguard/event_queue.hpp:37-92 | every step of every thread keeps the ring invariant, mutual exclusion, that a push past its test of stop_ is not overtaken by a stop, and that pop gives up only after one |
| `QueueGuarantees.ConsumerNotForgottenStep` | include/fileguard/event_queue.hpp:60-71 | without try_push, every step keeps: a consumer asleep although it may pop is owed a notification |
| `QueueGuarantees.ProducerNotForgottenStep` | include/fileguard/event_queue.hpp:36-47 | without try_pop, every step keeps: a producer asleep although it may push is owed a notification |
| `QueueGuarantees.ForgottenExactly` | include/fileguard/event_queue.hpp:50-58 | with try_push a step breaks that guarantee if and only if the consumer goes to sleep on an index it read before an item was published whose notification has already been sent |
| `QueueGuarantees.ProducerForgottenExactly` | include/fileguard/event_queue.hpp:73-81 | with try_pop a step breaks it for the producer if and only if it goes to sleep on an index it read before a slot was released whose notification has already been sent |
| `QueueGuarantees.StopHeardStep` | include/fileguard/event_queue.hpp:85-92 | every step keeps: once request_stop has notified, nobody sleeps, whatever calls are mixed |
| `QueueGuarantees.RankDecreases` | include/fileguard/event_queue.hpp:37-92 | every step a thread takes by itself brings the pending calls nearer their end |
| `QueueGuarantees.FifoSafety` | include/fileguard/event_queue.hpp:37-81 | in every interleaving of push, try_push, pop, try_pop and stops, what was popped is in order the beginning of what was accepted; the slot being written holds no unconsumed item and is not being read |
| `QueueGuarantees.NoLostWakeup` | include/fileguard/event_queue.hpp:37-92 | in every run, spurious wakeups included, a sleeping thread whose condition holds is owed a notification, and both threads never sleep with none under way; each side only needs the other not to use its lockless call |
| `QueueGuarantees.NoDeadlock` | include/fileguard/event_queue.hpp:37-92 | in every run of the blocking calls, if no thread can move then each call has returned or waits for something truly missing, and at most one thread waits |
| `QueueGuarantees.StopEndsEverything` | include/fileguard/event_queue.hpp:85-92 | after request_stop has returned no thread sleeps, and without new calls every call returns within 73 steps |
| `QueueGuarantees.DrainedMeansComplete` | include/fileguard/event_queue.hpp:60-71 | pop gives up only when stopped with everything accepted popped; after a stop nothing more is accepted |
| `LostWakeups.LostWakeup` | include/fileguard/event_queue.hpp:50-58 | for every capacity, a run with try_push after which the consumer sleeps on a non-empty queue and no thread can move |
| `LostWakeups.LostProducerWakeup` | include/fileguard/event_queue.hpp:73-81 | for every capacity, a run with try_pop after which the producer sleeps on a queue with room and no thread can move |
| `QueueLinearizability.StepsRefineQueue` | include/fileguard/event_queue.hpp:37-92 | each step is the effect of at most one call on the abstract queue, with the answer the queue gives at that instant, refusals and empty answers included, or leaves the queue alone |
| `QueueLinearizability.Linearizable` | include/fileguard/event_queue.hpp:26-112 | for every interleaving of push, try_push, pop, try_pop and stops: the effects in order are a run of the sequential queue ending in the queue the ring stands for, and each thread receives exactly their answers |
| `StreamClient.OfferConserves` | src/daemon.cpp:74-79 | an offer keeps offered = accepted + dropped and the order, and is dropped exactly when its queue has no released slot left |
| `StreamClient.TakeConserves` | src/daemon.cpp:90-98 | what the writer takes stays a prefix of what was accepted |
| `StreamClient.CloseConserves` | src/daemon.cpp:85-100 | closing marks the client closed, stops its queue only on shutdown, and loses no accounting |
| `ClientOnRing.ClientRefinesRing` | src/daemon.cpp:64-100 | every interleaving of the producer, the writer and the stopper of a subscriber on its ring is a run of that subscriber: same queue, one drop for each refused try_push, all offers accounted for |
| `Pipeline.PipelineLog` | src/controller.cpp:215-257 | in every run the log is a prefix of the emitted events, nothing is accepted after a stop, and a finished consumer has logged exactly the accepted events, in order and once |
| `Pipeline.RunInputs` | src/controller.cpp:166-170 | in every run the queue is stopped exactly if a stop was requested, and the emitted events are those given to emit_event |
| `Pipeline.PushWaitsExactly` | src/controller.cpp:237 | a push waits exactly while the queue is full and not stopped, and otherwise returns with its event accepted unless a stop came first |
| `Pipeline.DrainRun` | src/controller.cpp:240-257 | from any stopped state the consumer on its own reaches its end with exactly the accepted events logged |
| `Pipeline.FairDrain` | src/controller.cpp:166-184 | after any run with a stop in it, every schedule that keeps giving the consumer its turn, whatever the other threads do, reaches the end of the consumer with exactly the accepted events logged |
| `Pipeline.FanOutConservation` | src/daemon.cpp:74-100 | for every client in every run: offered = accepted + dropped; offers are a contiguous piece of the log from its subscription, complete while it stays; accepted is a subsequence; taken is a prefix of accepted |
| `Pipeline.SubscriberIsServed` | src/controller.cpp:195-198 | after subscribing, a client that does not leave stays listed and open and is offered exactly the events whose fan-out began since, in order |
| `Pipeline.EventReachesSubscriber` | src/controller.cpp:195-257 | a run in which a client subscribes, an event is emitted, logged and fanned out, and the writer takes it |
| `Pipeline.UnsubscribedGetsNothing` | src/controller.cpp:200-203 | after unsubscribing a client is off the list for good and is offered nothing more |
| `Pipeline.ClosedGetsNothing` | src/daemon.cpp:74-100 | after closing, a client is offered nothing more except an event whose push had already found it open |
| `Pipeline.ClosedLeavesList` | src/controller.cpp:248-251 | a client closed while no fan-out is under way is off the list after the next one |
| `Pipeline.WriterCatchesUp` | src/daemon.cpp:90-98 | a writer left alone takes everything that was accepted, in order |
| `Pipeline.NonInterference` | src/controller.cpp:240-257 | each run has a twin in which a given client never subscribes, with the same log, the same queue and every other client in the same state |
| `ConsumerLoops.FanOutReachesOpen` | src/controller.cpp:247-255 | one fan-out offers the event to exactly the open clients, in order, and drops the closed ones from the list |
| `ConsumerLoops.FanOutParts` | src/controller.cpp:247-255 | the fan-out goes client by client, in order |
| `ConsumerLoops.FanOutAllServes` | src/controller.cpp:247-255 | fanning out a run of events offers all of them in order to each client that was open, and accounts for each |
| `ConsumerLoops.EnrichInjective` | src/controller.cpp:222-235 | under an unambiguous resolver, or none, enrichment maps different raw events to different events |
| `ConsumerLoops.EventPipeline.EmitEvent` | src/controller.cpp:215-238 | accepted exactly unless stopped or full; then the last item of the queue has the process path of the raw process and the resource path of the raw resource, each from the resolver in force or else the text of the identity, and the other fields unchanged |
| `ConsumerLoops.EventPipeline.FanOutEvent` | src/controller.cpp:247-255 | the erase-while-iterating loop computes the fan-out |
| `ConsumerLoops.EventPipeline.ConsumerLoop` | src/controller.cpp:240-257 | on a stopped queue the loop ends with the queue empty, every item logged once in order and fanned out in order |
| `Framing.FindNewlineMeans` | src/daemon.cpp:215 | the position found is the first newline, and none is found exactly when there is none |
| `Framing.LinesPartition` | src/daemon.cpp:215-217 | cutting a stream into lines and a tail loses no byte, and no line or tail contains a newline |
| `Framing.DispatchMeans` | src/daemon.cpp:214-220 | dispatching a buffer hands over its non-empty lines in order, up to the first handler that ends the loop, or all of them with the tail kept |
| `Framing.DispatchLines` | src/daemon.cpp:214-220 | the in-place loop over the buffer performs that dispatch |
| `Framing.RequestsSplit` | src/daemon.cpp:212-220 | cutting a stream anywhere and carrying the tail over gives the same requests and tail |
| `Framing.RequestsMeans` | src/daemon.cpp:218 | exactly the empty lines are skipped |
| `Framing.HandleClient` | src/daemon.cpp:199-223 | for every partition of the stream into chunks: the requests dispatched are those of the whole stream in order, up to the first handler that ends the loop, otherwise all of them with the unterminated tail kept |
| `Framing.DeliveredMeans` | src/daemon.cpp:50-55 | enough is delivered if and only if some send results with no failure among them add up to it |
| `Framing.WriteAll` | src/daemon.cpp:47-58 | it completes if and only if the send results deliver all the data before a failure, fails if and only if a failure comes first, and puts on the wire exactly what they deliver |
| `Framing.IdleSendsChangeNothing` | src/daemon.cpp:51-52 | interrupted and empty sends change neither the outcome nor the wire |
| `Framing.MessagesArrive` | src/daemon.cpp:199-223 | whatever part of the frames of newline-free messages arrived, in any chunks, its requests are the first of the messages, whole and in order; all of them if all arrived |
| `Framing.SendMessages` | src/daemon.cpp:47-58 | writing one framed message after the other stops at the first whose send results do not deliver it, with the frames before it and the delivered part of its own on the wire |
| `Framing.Exchange` | src/daemon.cpp:47-223 | sent with write_all under any send results and received in any chunks, exactly the messages before the first not delivered are dispatched, whole and in order, up to the first handler that ends the loop; all of them when every write is given enough |
| `ConfigParsers.ReadItems` | src/config_parser.cpp:87-103 | the list loop yields every element in order, or the failure of the first that cannot be read |
| `ConfigParsers.ReadIsSaid` | src/config_parser.cpp:56-139 | reading a tree gives a policy if and only if the tree says that policy, field by field and with the documented defaults |
| `ConfigParsers.FromJson` | src/config_parser.cpp:64-144 | the parser returns a policy if and only if the tree says it and it is valid; every other tree of well-typed fields is rejected |
| `ConfigParsers.UnknownNamesRejected` | src/config_parser.cpp:14-41 | an action, operation or identity type outside the vocabulary makes the parser reject the tree |
| `ConfigParsers.ParseSound` | src/config_parser.cpp:56-144 | an accepted tree yields a valid policy with absolute process paths and no rule-level resource operation |
| `ConfigParsers.ParseRender` | include/fileguard/config_parser.hpp:14-31 | rendering such a policy in the documented schema, with or without the defaulted fields, and parsing it returns the same policy |
| `ConfigParsers.ParserImage` | src/config_parser.cpp:56-144 | a policy is the result of parsing some tree if and only if it is valid, has absolute process paths and no rule-level resource operation |
| `ConfigParsers.VersionWraps` | src/config_parser.cpp:68 | any tree is accepted with a given version if and only if it is accepted with 0 and the low 32 bits are non-negative as a signed number, which become the version; the rest of the policy is the same |
| `ConfigParsers.VersionPastRangeAccepted` | src/config_parser.cpp:68 | 2^32 + 1 is accepted as version 1 |

## Left out

- EbpfManager.LinuxEBPFEnforcer.LoadProgram: the results of libbpf's calls and the text of the LSM list are parameters.
- EbpfManager.LinuxEBPFEnforcer.ClearProtected: a delete of a present key is taken to succeed, as the source ignores its result; the same holds for ClearRules.
- EbpfManager.LinuxEBPFEnforcer.Status: backend and detail texts are not modelled.
- UpdateProtocol.WholePolicyOpen: an open during which the program is detached is excluded; what a detached program's maps show to an open under way is not modelled.
- Controllers.Controller.LoadAll: loads are serialized; load_policy holds no lock over its whole run, and concurrent loads are not modelled.
- Controllers.Controller.constructor: opening sinks, creating the enforcer and starting the threads are not modelled.
- EventQueue.SpscQueue.Push: WouldBlock (and WaitsForItem in Pop) stands for a wait; waiting itself is in QueueSteps.
- QueueGuarantees.FifoSafety: memory is sequentially consistent; the acquire/release orderings of the atomics are not modelled.
- QueueGuarantees.NoLostWakeup: claimed for the blocking calls only, as it is false for try_push and try_pop (LostWakeups).
- Pipeline.PipelineLog: push and pop on the queue are single steps here, at the instant they take effect in QueueLinearizability.
- Pipeline.FanOutConservation: a client is a value in a table, not a shared object; what its writer took may still fail to reach the socket.
- ConsumerLoops.EventPipeline.EmitEvent: the rendering of the time is a parameter.
- KernelProgram.FileOpen: a rule lookup copies the entry; the program keeps a pointer and reads rule_id and action next, so the model assumes the entry is not deleted and reused in between. The process identity in an event and rule_id outside a rule hit are not claimed, as the program does not write them; CO-RE reads and dev_t decoding are parameters.
- ConfigParsers.FromJson: works on a JSON tree with integer numbers; text parsing, from_file, error texts, and the library's conversion of a Boolean or fractional version are not modelled. A field of the wrong type read with value() is the outcome Thrown; whether it or a rejection comes first is not specified.
- Policies.Validate: which of several defects is reported first is not specified.
- Framing.HandleClient: poll, recv errors and the running flag are not modelled; the handlers' answers are an arbitrary function.
- Framing.WriteAll: an unlimited run of interrupted or empty sends is cut off at the end of the given results.
- Streamed events: json_of adds no newline, so the stream to a subscriber is modelled as a sequence of queue items, without framing.
- stat(2) and a changing file system: a resolver is one function, fixed during a compilation.
- Sockets, file descriptors, pid files, signals, daemon start and stop, the request handlers behind handle_line.
- Console and JSON sinks, time formatting, the command line, benchmarks, demos, scripts, NullEnforcer.
