# AgentGuardian: a verified model

AgentGuardian turns access rules ("process *p* must not see file *f*", "process *p* sees *replace* wherever *f* says
*find*") into two kernel tables, and a set of eBPF programs enforces them across the system calls of all threads. This
project models both halves in Dafny and proves what they achieve together.

The kernel half

- `KernelSpec` is the state of the eBPF maps and user memory, and what one run of each program does to it, as functions
  on values. `KernelPrograms` is the programs themselves, step by step on mutable maps and memory; each is proved to
  compute the function.
- `Greedy` is the reference meaning of rewriting: one left-to-right, non-overlapping replacement, characterised
  uniquely. `Rewriting` proves that a chain of chunked, in-place, tail-calling scanner runs refines it.
- `SyscallProtocol` is the running system: entries and exits of many threads, descriptors, scanner runs, policy updates
  and memory changes interleave, one program run a step. `Isolation`, `HideOpens`, `TrackedFds` and `InterleavedScans`
  prove what holds in every run. The trivial handlers of `KernelPrograms` have no row of their own below: what they are
  for is stated by the invariants of the runs.

The user-space half

- `Rules` and `Compiler`: validation, and the pass over rules and processes that elects one rule per table key.
- `Tables`: live replacement of bounded maps whose operations can fail. `LiveUpdates` is what a task sees meanwhile.
- `Service` is the control service's sections under its lock; `ServiceRuns` and `TableSync` let reloads, background
  loops, table updates and Close interleave. `ServiceToKernel` says what a valid status means for enforcement.
- `FlagMode` is the mode without a rule file; `FlagModeToKernel` says what its flags do to a process.
- `ExampleRules` holds small rulesets and their compilations, so that counterexamples run on inputs that exist.

Between them, `Encoding` is the fixed-width encoding, `EndToEnd` goes from a rule to the bytes a process sees, and
`OpenToRead` follows one file from its open to the end of a read.

Some claims one would like to make are false of the code. Each is stated with its exact condition, or with a run that
breaks it beside the theorem that holds:

- A text of 64 bytes passes validation but loses its last byte (`TextFidelity`, `TextLosesLastByteAt64`).
- Comparing paths is string equality only for targets of at most 62 bytes without NUL, although 63 pass validation
  (`PathEqualityIsExact`).
- "Loaded and no error" does not mean that the kernel enforces the recorded rules if a reload takes place between a
  background loop's check and its table update, even when no two table updates overlap
  (`StaleLoopOverwritesTables`, `WithdrawnRuleStaysEnforced`; `NoErrorMeansInSync` is what holds).
- During a live update a process can be governed by neither its old nor its new policy, but by nothing or by an old rule
  for its name (`OldOrNewThroughout`, `NothingGoverns`, `ShadowedRuleGoverns`).
- An error in the status need not be one of the recorded rules (`SupersededLoopNeverCommits` says when,
  `StaleErrorIsCharged`, `WithdrawnRuleLeavesError`).
- In flag mode an overwritten static entry is not restored (`StaticPolicyHolds`, `StaticPolicyIsNotRestored`), and a
  round in which a map operation fails can leave an entry for good (`KeysAfterCompleteRound`, `FailedRoundLeavesEntry`).

Four assumptions are shown to be needed, each by runs from attachment on: a thread's rewrite states can be stored
(`FailedStoreLeaksAddress`), a tracked read can save its address (`UnsavedReadIsNotRewritten`), opens and closes of one process do not overlap (`OverlapLosesDescriptor`,
`OverlapRewritesUnrelatedFile`), and their map updates succeed (`UnstoredOpenLosesDescriptor`,
`UnstoredCloseKeepsDescriptor`).

`dafny verify dfyconfig.toml` checks everything.

## Model

| member | source | states |
|---|---|---|
| `Encoding.Fixed` | internal/ebpf/types.go:85-100 | every byte of the field that holds a string: the string while it lasts and leaves room for a final zero, zeros behind |
| `Encoding.CString` | internal/ebpf/types.go:71-83 | the string a field holds: NUL-free, and cut at the first NUL if there is one |
| `Encoding.CopyString` | internal/ebpf/types.go:85-100 | the copy loop writes the kept front and leaves the rest of the destination; a source that fills the field loses its tail |
| `Encoding.NewPolicy` | internal/ebpf/types.go:21-39 | the policy struct built step by step is `PolicyOf` of the strings |
| `Encoding.EncodeField` | internal/ebpf/types.go:41-45 | a zeroed array filled by the copy loop is `Fixed` |
| `Encoding.Int8SliceToString` | internal/ebpf/types.go:71-83 | the decoding loop yields the C string of the field |
| `Encoding.DecodeEncoded` | internal/ebpf/types.go:71-100 | decoding an encoded string yields it up to its first NUL, cut to one byte less than the field |
| `Encoding.RoundTrip` | internal/ebpf/types.go:71-100 | decode after encode is the identity exactly for NUL-free strings shorter than the field |
| `Encoding.CommKeysSeparateNames` | internal/ebpf/types.go:41-45 | a validated name has the key of a task exactly when it is the name of the task up to trailing NULs; without NULs that is equality |
| `Encoding.TextFidelity` | internal/ebpf/types.go:21-39 | the kernel's text bytes are the rule's exactly for texts under 64 bytes, or of 64 whose last byte is the zero that replaces it |
| `Encoding.TextLosesLastByteAt64` | internal/rules/validate.go:118-120 | a pair of valid 64-byte texts that keeps its length of 64 and loses its last byte |
| `Encoding.PathMatchesLoop` | internal/ebpf/agentguardian.bpf.c:102-123 | the byte loop decides equality of two non-empty, terminated C strings |
| `Encoding.PathEncoding` | internal/ebpf/agentguardian.bpf.c:302-309 | an encoded target matches a copied user path exactly when the target up to its first NUL is not empty and the two agree after being cut to 63 bytes |
| `Encoding.PathEqualityIsExact` | internal/ebpf/agentguardian.bpf.c:302-309 | matching is string equality for every user path exactly when the target has no NUL inside and at most 62 bytes, or begins with a NUL |
| `Greedy.GreedyIsUnique` | internal/ebpf/agentguardian.bpf.c:255-276 | a choice of windows is made of disjoint occurrences in order, with every occurrence in a window or overlapping an earlier one, exactly when it is the one the scan makes |
| `Greedy.InsideWindow` | internal/ebpf/agentguardian.bpf.c:268-273 | inside a chosen window stands the replacement text |
| `Greedy.OutsideWindows` | internal/ebpf/agentguardian.bpf.c:275-275 | outside all windows stands the original byte |
| `Greedy.WindowsFit` | internal/ebpf/agentguardian.bpf.c:282-284 | number of windows times text length is at most the number of bytes scanned |
| `Greedy.SomeWindowIffOccurs` | internal/ebpf/agentguardian.bpf.c:282-284 | something is replaced exactly when the text occurs |
| `Greedy.EditHit` | internal/ebpf/agentguardian.bpf.c:268-273 | writing the text over a match in the partly edited buffer stays on the way to the replacement of the original |
| `Greedy.EditMiss` | internal/ebpf/agentguardian.bpf.c:275-275 | so does moving on by one byte where the edited buffer shows no match |
| `Greedy.EditEnd` | internal/ebpf/agentguardian.bpf.c:262-265 | where the text no longer fits, the partly edited buffer is the whole replacement |
| `KernelPrograms.Programs.BufferMatchesFind` | internal/ebpf/agentguardian.bpf.c:209-227 | true exactly when all bytes of the text can be read and are there |
| `KernelPrograms.Programs.WriteReplaceText` | internal/ebpf/agentguardian.bpf.c:229-242 | the byte loop stores the whole text at once, skipping what cannot be written |
| `KernelPrograms.StoreOneMore` | internal/ebpf/agentguardian.bpf.c:231-241 | storing a text and then one byte behind it is storing the longer text |
| `KernelPrograms.Programs.ScanChunk` | internal/ebpf/agentguardian.bpf.c:254-276 | the loop over shared state and memory is 32 iterations of the scan on values |
| `KernelPrograms.Programs.ScanReadBuffer` | internal/ebpf/agentguardian.bpf.c:187-288 | one run: refuse, drop, hand over by tail call, or report and clean up |
| `KernelPrograms.Programs.HandleReadExit` | internal/ebpf/agentguardian.bpf.c:406-448 | the whole new state of a read exit with its first scanner run |
| `KernelPrograms.Programs.HandleOpenEnter` | internal/ebpf/agentguardian.bpf.c:290-316 | an open is recorded and reported exactly when a policy's path matches |
| `Rewriting.StepsCompose` | internal/ebpf/agentguardian.bpf.c:254-280 | iterations can be cut into runs anywhere |
| `Rewriting.StepsProgress` | internal/ebpf/agentguardian.bpf.c:254-280 | n iterations finish the scan or consume n bytes |
| `Rewriting.RunIsBounded` | internal/ebpf/agentguardian.bpf.c:254-280 | a run that hands over has done exactly a chunk: at least 32 bytes and at most 32 windows |
| `Rewriting.ChunkSizeDoesNotMatter` | internal/ebpf/agentguardian.bpf.c:15-15 | for every chunk size, enough runs give the result of the unbounded loop |
| `Rewriting.ChunksFitLimit` | internal/ebpf/agentguardian.bpf.c:14-16 | every possible scan completes within a number of runs exactly when runs times chunk covers 1024 bytes |
| `Rewriting.RunStaysInside` | internal/ebpf/agentguardian.bpf.c:244-288 | whatever the policy and whatever can be accessed, a run writes only inside the buffer of its rewrite state |
| `Rewriting.StepsRespectProtection` | internal/ebpf/agentguardian.bpf.c:239-240 | bytes that cannot be written keep their value |
| `Rewriting.UnreadableIsNoMatch` | internal/ebpf/agentguardian.bpf.c:218-223 | where a byte of the text cannot be read or differs, the scan moves on by one byte and writes nothing |
| `Rewriting.HoldsIsOccurrence` | internal/ebpf/agentguardian.bpf.c:209-227 | the kernel's match on memory is an occurrence in the buffer's contents |
| `Rewriting.StoreInBuffer` | internal/ebpf/agentguardian.bpf.c:229-242 | storing the text writes exactly its window of the buffer, even around the end of the address space |
| `Rewriting.IterateKeepsProgress` | internal/ebpf/agentguardian.bpf.c:258-275 | every iteration stays on the way from the original bytes to their greedy replacement; written text is not scanned again |
| `Rewriting.ChainFinishes` | internal/ebpf/agentguardian.bpf.c:278-287 | a chain of runs within the tail-call limit ends as the unbounded scan, reported and cleaned up |
| `Rewriting.ReadIsRewritten` | internal/ebpf/agentguardian.bpf.c:406-448 | main result: after the chain the first min(ret, 1024) bytes are the greedy replacement of what they were, every other byte is as it was, the bookkeeping is gone, and one event with the total window size is added exactly when the text occurred |
| `Rewriting.ReadIsLeftAlone` | internal/ebpf/agentguardian.bpf.c:413-429 | a read exit that prepares no scan changes no memory, reports nothing and clears the thread's state |
| `Rewriting.FailedReadIsLeftAlone` | internal/ebpf/agentguardian.bpf.c:175-177 | the exit of a read that returned 0 or an error touches no memory, reports nothing and clears the saved address and the rewrite state |
| `Rewriting.AddressLeftBehind` | internal/ebpf/agentguardian.bpf.c:165-207 | a whole read exit leaves the saved address exactly when storing the rewrite state failed or the address is null |
| `Rewriting.ClampIsMinimum` | internal/ebpf/agentguardian.bpf.c:171-185 | nothing is scanned after an error or the end of the file, otherwise what was read up to 1024 bytes; for reads of 4 GiB and more that is so exactly when the 32-bit cast does not cut the value below 1024 |
| `SyscallProtocol.StepFrame` | internal/ebpf/agentguardian.bpf.c:36-100 | every step touches only the per-thread entries of its own thread and the descriptors and memory of its own process |
| `SyscallProtocol.OpenStepsReport` | internal/ebpf/agentguardian.bpf.c:311-314 | the exact events of the open handlers and the file_open hook: one for a matching open, one with -2 for a denial, each with the path as copied at the entry |
| `SyscallProtocol.PassMatchesNothing` | internal/ebpf/agentguardian.bpf.c:298-305 | a policy that passes and a path that cannot be read match no open |
| `SyscallProtocol.CloseCleansUp` | internal/ebpf/agentguardian.bpf.c:497-499 | the exit of a recorded close takes back the descriptor, the record and any saved address of the thread |
| `Isolation.ScansFinishInTime` | internal/ebpf/agentguardian.bpf.c:254-280 | main result: in every run, with policies replaced between program runs, a scan makes at most 31 tail calls, under the limit of 33 |
| `Isolation.ScanRunAdvances` | internal/ebpf/agentguardian.bpf.c:171-185 | each run that hands over has consumed 32 more bytes of the same buffer; one that does not leaves no live rewrite state |
| `Isolation.ScansAreNeverCutShort` | internal/ebpf/agentguardian.bpf.c:278-280 | in every run a scanner hands over exactly when bytes are left: the code behind a refused tail call is reached only by finished scans |
| `Isolation.AddressStep` | internal/ebpf/agentguardian.bpf.c:386-433 | a saved address always belongs to a tracked read in progress, or is null |
| `Isolation.SavedExactlyWhenTracked` | internal/ebpf/agentguardian.bpf.c:386-404 | in every run, inside a read of a non-null buffer whose entry could save its address, the saved address is that buffer exactly when the entry found the descriptor tracked; of the rest only the thread's own rewrite states have to be storable |
| `Isolation.WritesStayInOwnRead` | internal/ebpf/agentguardian.bpf.c:386-460 | main result: at every step of every run, user memory changes only for the exit of a read whose own entry found its descriptor tracked, and only in that read's buffer up to min(ret, 1024); of all map updates only those of the acting thread's own rewrite states have to succeed |
| `Isolation.FailedReadChangesNothing` | internal/ebpf/agentguardian.bpf.c:425-429 | at any step of any run, the exit of a read that returned 0 or an error ends the call with memory and events as they were |
| `Isolation.FailedStoreLeaksAddress` | internal/ebpf/agentguardian.bpf.c:431-432 | a run in which a rewrite state cannot be stored and the exit of an untracked read then rewrites the buffer of an earlier one |
| `Isolation.UnsavedReadIsNotRewritten` | internal/ebpf/agentguardian.bpf.c:402-416 | a run in which the entry of a tracked read cannot save the address, and its exit then leaves everything as it is |
| `HideOpens.HiddenExactlyWhenMatched` | internal/ebpf/agentguardian.bpf.c:290-384 | main result: in every run, file_open answers -2 (-ENOENT) exactly when the incoming verdict is 0 and the thread is inside an open that matched a hide policy at its entry; otherwise the incoming verdict stands |
| `HideOpens.VerdictInsideOpen` | internal/ebpf/agentguardian.bpf.c:290-384 | through anything that happens between the entry of an open and its exit, file_open answers -2 exactly when a hide policy matched at the entry |
| `HideOpens.PendingStep` | internal/ebpf/agentguardian.bpf.c:290-341 | every step keeps: an open is pending exactly while its thread is inside an open that matched and could be recorded, with the action that matched |
| `TrackedFds.TrackedExactlyWhenOpenForRewrite` | internal/ebpf/agentguardian.bpf.c:318-341 | main result: if the opens and closes of a process do not overlap and their map updates succeed, whatever other processes do, its descriptors are tracked exactly when they are open and came from an open that matched a rewrite policy |
| `TrackedFds.DescriptorStep` | internal/ebpf/agentguardian.bpf.c:462-501 | at every step of any process the two differ only for the descriptor of an open or close in progress |
| `TrackedFds.InvStep` | internal/ebpf/agentguardian.bpf.c:318-501 | every step keeps what is known of each open and close in progress: which descriptor it is about, whether it is tracked and open |
| `TrackedFds.OverlapLosesDescriptor` | internal/ebpf/agentguardian.bpf.c:482-501 | a run from attachment on in which a close overlaps an open of the same number and the newly opened descriptor ends up untracked |
| `TrackedFds.OverlapRewritesUnrelatedFile` | internal/ebpf/agentguardian.bpf.c:318-341 | a run from attachment on in which a close overtakes the return of the open: the closed number stays tracked, and a later open of it that matches nothing is read as if it were to be rewritten |
| `TrackedFds.UnstoredOpenLosesDescriptor` | internal/ebpf/agentguardian.bpf.c:312-336 | without overlap, if either map update of an open fails its descriptor is open and untracked |
| `TrackedFds.UnstoredCloseKeepsDescriptor` | internal/ebpf/agentguardian.bpf.c:478-479 | without overlap, if the map update of a close fails its descriptor is closed and tracked |
| `InterleavedScans.RunAdvances` | internal/ebpf/agentguardian.bpf.c:244-288 | from any point of a scan, one run keeps it underway or leaves it rewritten and reported |
| `InterleavedScans.OthersDoNotDisturb` | internal/ebpf/agentguardian.bpf.c:386-460 | steps of other processes never disturb a scan, those of the own process only while a read into an overlapping buffer exits |
| `InterleavedScans.OthersReportNothing` | internal/ebpf/agentguardian.bpf.c:141-163 | no step but a thread's own read exit or scanner run reports a rewrite for it |
| `InterleavedScans.InterleavedReadIsRewritten` | internal/ebpf/agentguardian.bpf.c:244-288 | main result: in every run of the system, a read whose entry found its descriptor tracked and could save the address, and whose rewrite state can be stored, with steps of others between the runs of its scan that leave its policy and buffer alone, ends with the greedy replacement of the bytes it had read and exactly one report, or none if nothing was replaced; no other map update is assumed to succeed |
| `Rules.MatchesIdPattern` | internal/rules/validate.go:12-12 | the pattern as a condition on every character |
| `Rules.ValidateRule` | internal/rules/validate.go:57-126 | refuses exactly the rules that suffer from one of sixteen faults, and names the first in the order of the checks |
| `Rules.ValidRuleMeans` | internal/rules/validate.go:57-126 | what a valid rule is, in bytes and numbers: the characters of an id, a path of 1 to 63 bytes from the root, one selector, and texts that fit the action |
| `Rules.ValidateRuleset` | internal/rules/validate.go:23-55 | no errors exactly when the version is positive, all rules are valid and ids are unique; otherwise the report lists every error in the order of the rules and no others |
| `Rules.BadVersionIsReportedAlone` | internal/rules/validate.go:27-29 | version 0 or below is the only error reported, a positive version none |
| `Rules.OnlyValidRulesReserveIds` | internal/rules/validate.go:34-50 | of two rules with one id, the second valid, the second is a duplicate exactly when the first is valid |
| `Rules.SameIdSameRule` | internal/rules/validate.go:41-50 | in a valid ruleset an id identifies its rule |
| `Compiler.BeatsIsTotal` | internal/rules/compiler.go:189-200 | two rules never beat each other, and tie exactly when selector kind, priority, action and id agree |
| `Compiler.BeatsIsTransitive` | internal/rules/compiler.go:189-200 | the order is transitive |
| `Compiler.BeatsIsDocumentedOrder` | doc/config-persistence-design.md:259-270 | for valid rules the order is the documented one written out: pid before executable before task name, smaller priority, hide before rewrite, id that comes first in byte order |
| `Bytes.LessIsByteOrder` | internal/rules/compiler.go:199-199 | the order of ids is decided by the first differing byte, or by one being a front of the other |
| `Compiler.OfferElects` | internal/rules/compiler.go:95-102 | replacing the held candidate as `shouldReplace` says keeps it the one that beats all others seen |
| `Compiler.BuildPolicy` | internal/rules/compiler.go:169-187 | refuses exactly unknown actions, empty texts and texts of different length, and otherwise encodes the rule |
| `Compiler.CompilePid` | internal/rules/compiler.go:88-102 | after a rule that names a process, every key again holds its champion |
| `Compiler.CompileComm` | internal/rules/compiler.go:103-117 | the same for a rule that names a task |
| `Compiler.CompileExe` | internal/rules/compiler.go:118-139 | the same for a rule that names an executable, after one offer for each process that runs it |
| `Compiler.CompileRules` | internal/rules/compiler.go:75-146 | over all rules of a valid ruleset both candidate tables hold the champion of every key, and neither of the compiler's own refusals is reached |
| `Compiler.Policies` | internal/rules/compiler.go:148-153 | the tables are the policies of the elected candidates |
| `Compiler.NeedsProcessScan` | internal/rules/compiler.go:202-209 | true exactly when some enabled rule names an executable |
| `Compiler.CompileWithReport` | internal/rules/compiler.go:51-157 | refuses exactly an invalid ruleset, with its full report, and fails otherwise exactly if a process list is needed, not given and cannot be read; in all other cases every key of both tables has the policy of the one rule that beats all others for it, or is absent, for the processes given, scanned or none |
| `Compiler.OrderDoesNotMatter` | internal/rules/compiler.go:77-153 | main result: reordering or repeating rules and processes gives the same tables |
| `Compiler.LookupFindsBestRule` | doc/config-persistence-design.md:259-270 | the kernel's "process table, then task table" finds the policy of the best of all rules behind the two keys under the documented order, and nothing exactly when there is none |
| `Compiler.SelectingRules` | internal/rules/compiler.go:87-139 | for a process of the snapshot, the rules behind the two lookups are those that name its number, its task name (up to trailing NULs) or its executable |
| `Compiler.ProcessGetsBestRule` | doc/config-persistence-design.md:259-270 | main result: for a process of the snapshot the kernel finds the policy of the rule that precedes, in the documented order written out, all others naming its number, task name or executable, and none exactly when no rule does |
| `Compiler.TwoRulesForOneProcess` | internal/rules/compiler.go:189-200 | of two rules for one process, in either order of the list, the closer selector wins, then the smaller priority, then hiding, then the id that comes first |
| `Compiler.ProcessListMatters` | internal/rules/compiler.go:202-209 | without an enabled rule that names an executable the process list plays no part; with one, a process that runs it and is named by no number is in the table only if it is listed |
| `Compiler.SingleRuleTables` | internal/rules/compiler.go:77-153 | the exact tables of a single rule: none if disabled, else one entry for its process or task name, or one for every listed process that runs its executable |
| `Compiler.EmittedPoliciesPassGates` | internal/ebpf/agentguardian.bpf.c:196-204 | every policy compiled from a valid ruleset passes the kernel's gates: known action, non-empty terminated path, text of 1 to 64 bytes |
| `Tables.BpfMap.Put` | internal/rules/compiler.go:222-224 | a put fails, changing nothing, only on a fault or for a new key of a full map |
| `Tables.BpfMap.Delete` | internal/rules/compiler.go:231-233 | a delete removes one key, finds none or fails on a fault |
| `Tables.BpfMap.Keys` | internal/rules/compiler.go:263-276 | iteration lists all keys or fails |
| `Tables.PutEach` | internal/rules/compiler.go:221-225 | the entries put are the old table overlaid with part of the new, with all of it on success; failure without a fault means that an entry is missing and the map is full; every state on the way lies between the tables |
| `Tables.FullMeansTooMany` | internal/rules/compiler.go:221-225 | a map that is full on the way from one table to another shows that the keys of both do not fit |
| `Tables.DeleteStale` | internal/rules/compiler.go:227-234 | exactly the keys that are not new are deleted |
| `Tables.ReplacePolicies` | internal/rules/compiler.go:215-261 | main result: success leaves exactly the new table; at every moment, and after a failure, each key of both tables is present with its old or new policy, no foreign key appears, and nothing old is missing before everything new is in; without faults it fails only if the keys of both tables together do not fit |
| `Tables.ApplyCompiled` | internal/rules/compiler.go:159-167 | both tables on success, and the reasons for failure; the log of writes and the two histories, replayed, show that at every moment the process table is on its way with the task table untouched, or new with the task table on its way, and that a success passes through the moment between |
| `Tables.MomentsOfBoth` | internal/rules/compiler.go:159-167 | replaying first the writes to one table and then those to the other yields only such moments |
| `LiveUpdates.OldOrNewThroughout` | internal/rules/compiler.go:159-167 | main result: a task is governed by its old or its new policy at every moment of an update, exactly unless it loses its own entry while the old entry for its name differs from that and from the new one for its name |
| `LiveUpdates.FallingThrough` | internal/ebpf/agentguardian.bpf.c:132-138 | in that case there is a moment at which it is governed by the old entry for its name, or by nothing, which is neither its old nor its new policy |
| `LiveUpdates.NothingGoverns` | internal/rules/compiler.go:159-167 | two valid rulesets and a process hidden from under both that is governed by nothing in between |
| `LiveUpdates.ShadowedRuleGoverns` | internal/rules/compiler.go:159-167 | two valid rulesets and a process hidden from under both for which a shadowed rewrite rule takes over in between |
| `Service.ControlService.RestartSyncLocked` | internal/control/service.go:243-259 | revision raised, old loop cancelled, new loop with the new revision exactly when some rule needs the process list |
| `Service.ControlService.CommitApplied` | internal/control/service.go:323-337 | the whole new record after a full apply |
| `Service.ControlService.CheckRound` | internal/control/service.go:278-284 | the loop goes on exactly when its tables differ from the recorded ones and its revision is current |
| `Service.ControlService.RuntimeStateLocked` | internal/control/service.go:215-241 | reported valid exactly when loaded without error, with the version and sizes of what is recorded; nothing but the error before the first load |
| `Service.CompiledEqual` | internal/control/service.go:340-357 | comparing sizes and looking entries up one way decides equality of both tables |
| `Service.InclusionOfSameSize` | internal/control/service.go:341-354 | one-way inclusion between maps of the same size is equality |
| `ServiceRuns.ConsistentStep` | internal/control/service.go:243-338 | every step of every operation keeps the record consistent with all loops and applies in progress |
| `ServiceRuns.RecordedStateIsCompiled` | internal/control/service.go:291-337 | main result: in every interleaving the recorded tables are a compilation of the recorded ruleset, and at most one loop carries the current revision |
| `ServiceRuns.SupersededLoopNeverCommits` | internal/control/service.go:272-301 | every step of a superseded loop leaves the record as it is, except that a failed compile or table update sets the error, and the loop stays superseded |
| `ServiceRuns.CheckDecides` | internal/control/service.go:278-284 | a round goes on exactly when what it compiled differs from the record and its revision is current; otherwise nothing changes and the loop waits |
| `ServiceRuns.LiveLoopsOverRun` | internal/control/service.go:55-62 | in every run at most one loop has not been cancelled, the one whose cancel function is stored; after Close none |
| `ServiceRuns.CommitReplacesLoop` | internal/control/service.go:243-259 | a commit of a ruleset cancels all loops and starts one exactly when some enabled rule names an executable |
| `ServiceRuns.CommitClearsError` | internal/control/service.go:298-332 | every commit, of a reload or of a current loop, clears the error |
| `ServiceRuns.ErrorIsLastFailure` | internal/control/service.go:261-337 | main result: in every interleaving the error on record is the last failure after the last commit, and none if there is none |
| `ServiceRuns.GenerationCountsCommits` | internal/control/service.go:300-335 | main result: between any two moments generation grows by the number of commits and revision by the number of full applies; equal generations mean the same recorded ruleset and tables |
| `TableSync.NoErrorMeansInSync` | internal/control/service.go:278-337 | main result: as long as sections do not overlap, a loop's beginning at its check, "loaded and no error" means the kernel tables are the recorded ones |
| `TableSync.TablesStep` | internal/control/service.go:278-337 | the invariant behind it, kept by partly failed updates, superseded loops, skipped rounds and Close |
| `TableSync.StaleLoopOverwritesTables` | internal/control/service.go:278-286 | a run with no two overlapping table updates that ends idle, loaded and without error while the kernel holds the tables of the previous ruleset |
| `TableSync.WithdrawnRuleStaysEnforced` | internal/control/service.go:278-286 | the same for concrete rulesets: a process starts to run an executable that a rule names, the rules are withdrawn, and the kernel goes on hiding from it without any error |
| `TableSync.StaleErrorIsCharged` | internal/control/service.go:272-276 | a run that ends with the kernel tables equal to the recorded ones and an error of the previous ruleset, with no current loop left to clear it |
| `TableSync.WithdrawnRuleLeavesError` | internal/control/service.go:272-276 | the same for concrete rulesets |
| `ServiceToKernel.ValidStatusMeansEnforced` | internal/control/service.go:229-229 | main result: at a valid status outside all sections of such a run, a kernel with the service's tables enforces the recorded ruleset for some snapshot of the processes |
| `FlagMode.BuildRewritePolicy` | config/store.go:74-86 | refuses exactly empty texts and texts of different length |
| `FlagMode.WhatFlagsAskFor` | config/config.go:48-78 | which flags ask for rewriting, and which of them enter the flag's process |
| `FlagMode.ApplyNames` | config/store.go:88-96 | one policy is put for every name of the list; a failure leaves part of them and has a reason |
| `FlagMode.Apply` | config/store.go:18-49 | both tables after success, hide winning over rewrite; after a failure, what was made so far in the order of the program, so that no entry for hiding exists before all for rewriting do; every failure has one of the listed reasons |
| `FlagMode.StaticTable` | config/store.go:25-41 | the static entries have exactly the static process numbers as keys, with hide winning over rewrite |
| `FlagMode.Reconcile` | config/store.go:145-162 | one round puts the current entries and deletes what was listed last time, is gone and is not static; a failed round leaves some of the puts, or all of them and some of the deletions |
| `FlagMode.PutsComeFirst` | config/store.go:146-159 | a round in which a put fails takes no key away, and one that deletes has put every current entry |
| `FlagMode.SyncExecutablePolicies` | config/store.go:51-72 | the loop over any ticks, failed rounds included: a failed round keeps what it has done and the old list |
| `FlagMode.KeysInStep` | config/store.go:145-174 | without failed rounds, the keys after a complete round are exactly the static and current process numbers, unless process 0 was listed once, is gone, and is taken for static |
| `FlagMode.KeysInStepForProcesses` | config/store.go:145-174 | main result: so the keys are exact whenever process 0, which no process list contains, is not listed |
| `FlagMode.KeysAfterCompleteRound` | config/store.go:51-72 | main result: after any complete and failed rounds that end with a complete one, the keys are exactly the static ones, the current ones, and the strays: put by a failed round while not listed by a complete one before or since |
| `FlagMode.StraysStay` | config/store.go:152-159 | a stray stays through any further rounds, complete or failed, until a complete one lists its process |
| `FlagMode.FailedRoundLeavesEntry` | config/store.go:56-64 | a run in which a failed round leaves an entry for good |
| `FlagMode.StaticPolicyHolds` | config/store.go:145-162 | main result: after any rounds a static process is in the table, and has its static policy exactly when no round has put an entry for it or the last to do so put the same |
| `FlagMode.StaticPolicyIsNotRestored` | config/store.go:145-162 | a static process that runs a watched executable for one round keeps the executable's policy afterwards |
| `FlagModeToKernel.FlagTextsReachKernel` | config/store.go:74-86 | for texts of 1 to 63 bytes the policy compares the flag to find and stores the flag to replace |
| `FlagModeToKernel.WhoGetsWhat` | config/store.go:18-49 | which process and which task names get the hide policy and which the rewrite policy of the flags |
| `FlagModeToKernel.FlagsRewriteReads` | internal/ebpf/agentguardian.bpf.c:209-288 | main result: a task with the flags' rewrite policy sees the flags' text replaced in its tracked reads, and nothing else changed |
| `FlagModeToKernel.FlagsHidePath` | internal/ebpf/agentguardian.bpf.c:290-384 | main result: a task with the flags' hide policy gets -2 when it opens the flags' path and is allowed any other |
| `EndToEnd.LookupOfChampion` | internal/ebpf/agentguardian.bpf.c:125-139 | the policy the kernel finds for a task is that of its best rule |
| `EndToEnd.RuleTextReachesKernel` | internal/ebpf/types.go:21-39 | the texts of a valid rule under 64 bytes are what the kernel's loops compare and store |
| `EndToEnd.ProcessSeesRewrittenText` | internal/ebpf/agentguardian.bpf.c:209-288 | main result: inside a tracked read of any run whose entry could save the address, a process whose best rule rewrites sees, when the read returns and its rewrite state can be stored, every greedy occurrence of the rule's find replaced, and everything else unchanged |
| `EndToEnd.RuleIsApplied` | internal/ebpf/agentguardian.bpf.c:244-288 | the same with others acting between the runs of the scan, as long as they leave the policy and the buffer alone until it is over |
| `EndToEnd.ProcessSeesOriginalText` | internal/ebpf/agentguardian.bpf.c:413-429 | a process that no rule selects, whose best rule hides, or whose read is shorter than the text keeps its bytes |
| `EndToEnd.OpenIsGovernedByPath` | internal/ebpf/agentguardian.bpf.c:290-316 | main result: every open is governed by the task's best rule exactly when its path is the rule's, if and only if the rule's path has no NUL inside and at most 62 bytes |
| `EndToEnd.HidingAnswersByMatch` | internal/ebpf/agentguardian.bpf.c:290-384 | in any run, while a task whose best rule hides is inside an open, whatever rule changes follow its entry, file_open answers -2 and reports the path exactly when the copied path matches the encoded one, and otherwise allows the open and reports nothing |
| `EndToEnd.HiddenFileIsDenied` | internal/ebpf/agentguardian.bpf.c:290-384 | main result: a process from which a rule hides a file gets -2 for the rule's path, and for no other path if the rule's has no NUL inside and at most 62 bytes |
| `OpenToRead.OpeningIsForRewrite` | internal/ebpf/agentguardian.bpf.c:290-341 | an open of the path of the task's best rule, a rewrite rule, yields a descriptor marked for rewriting |
| `OpenToRead.ReadingIsTracked` | internal/ebpf/agentguardian.bpf.c:386-404 | once the open has returned and while the descriptor is open, every read of it by any thread of the process is tracked |
| `OpenToRead.OpenedFileIsRewritten` | internal/ebpf/agentguardian.bpf.c:290-460 | main result: from attachment on, a process whose own opens and closes do not overlap and whose map updates succeed, and that opens its rule's path and reads the descriptor, ends with the rule applied to the bytes it read, whatever other threads, other processes and rule changes come between |
| `OpenToRead.EpisodeHappens` | internal/ebpf/agentguardian.bpf.c:290-404 | right after attachment any matching open followed by a read of its descriptor is such a run |

## Left out

- Loading and attaching the programs, the event ring and event decoding: attachment is taken as given, with the openat2
  hooks both attached or both absent, and an event that cannot be reserved is not modelled, so every report arrives.
- YAML, directories, flag parsing, trimming and defaults: rules and configurations start normalised.
- The scan of /proc and the resolution of paths: the snapshot is an input, canonicalisation any function of the path.
- Warning texts, timestamps and error messages: only whether and why an operation fails.
- The HTTP server and client, the command-line tools and the daemon.
- dup, fork, exec, process exit, pread, mmap and signals: the programs do not handle them. Descriptors come and go by
  open and close alone; other descriptors are open from the start or not mentioned.
- A policy that changes during one program run: it is stable within a run, and may change between any two.
- Preemption within one program run: a run is one step, so two runs never interleave inside a loop.
- The packing of process and thread number into 64 bits, padding bytes of the structs, and the signedness of
  characters: a pair, nothing, and one type for eight bits.
- The task name is given with each program run, as the kernel returns it, and may change between runs.
- Wrap-around of the 64-bit generation and revision counters.
- Rewriting.ReadIsRewritten: assumes that the buffer can be read and written and the policy stays; memory that cannot is
  covered by RunStaysInside and WritesStayInOwnRead, changing policies by ScansFinishInTime.
- Isolation.WritesStayInOwnRead: assumes that the acting thread's own rewrite states can be stored;
  FailedStoreLeaksAddress shows why. No other map update is assumed to succeed.
- InterleavedScans.InterleavedReadIsRewritten: assumes that the read's own address and rewrite state can be stored, that its
  memory can be accessed, and that others leave its policy and buffer alone until the scan is over.
- EndToEnd.ProcessSeesRewrittenText: assumes that the read's own address and rewrite state can be stored, and that its memory
  can be accessed.
- FlagModeToKernel.FlagsRewriteReads: like ProcessSeesRewrittenText.
- FlagModeToKernel.FlagsHidePath: for paths of 1 to 62 bytes without NUL; the others are in PathEqualityIsExact.
- EndToEnd.RuleIsApplied: the same, with others leaving the policy and the buffer alone.
- EndToEnd.HiddenFileIsDenied: assumes that the open's own record can be stored; HiddenExactlyWhenMatched has the other case.
- TrackedFds.TrackedExactlyWhenOpenForRewrite: assumes that opens and closes of the process do not overlap and that
  their map updates succeed; the runs named above show why. Nothing is assumed of other processes.
- HideOpens.HiddenExactlyWhenMatched: an open whose record could not be stored is not hidden, and the statement says so.
- TableSync.NoErrorMeansInSync: says nothing while an operation is between its table update and its record.
- Tables.ReplacePolicies: the promise is for one table; `ApplyCompiled` and `OldOrNewThroughout` are about both.
- ServiceRuns lets a failed table update leave any tables at all, which includes what ReplacePolicies leaves.
- FlagMode.KeysInStep: for rounds whose map operations succeed; `KeysAfterCompleteRound` covers the others, at the moments
  after a complete round.
- FlagMode takes the current executable-derived entries as an input, and how a comma-separated flag is taken apart as any
  function.
- OpenToRead.OpenedFileIsRewritten: for rule paths without NUL and texts of at most 63 bytes, and as long as others
  leave the policy and the buffer alone while the scan goes on.
- Service.ControlService.RuntimeStateLocked: leaves out warnings, path and time.
- Compiler.ProcessGetsBestRule: like `SelectingRules`, for a snapshot that lists a process once, and a task name as the
  kernel reports it, without NUL and under 16 bytes.
- Code and documentation: the design document's section 8.1 orders pid before exe before comm, and so does the kernel's
  lookup; the model follows the code, where the order between comm and the others is only in the lookup.
