# A verified model of libpulp

libpulp replaces functions of a running process. A library inside the process
keeps the books (which patches are applied, which replacement of which function
is active) and queues the memory writes that redirect function entries; a tool
outside stops the process, calls into the library and executes the queue. This
project models the parts where that can go wrong and proves that it does not, or
says exactly when it does.

`dafny verify dfyconfig.toml` checks everything.

| file | what it is about |
|---|---|
| `Bytes`, `Errors` | little-endian integers, byte-range stores, error codes and state |
| `InsnCodec`, `InsnQueue`, `Ptrace`, `QueueDrain`, `PageWrite` | the instruction queue: encoder, interpreter, remote and in-process execution |
| `X86` | a small processor model, the prologue templates, what they do when called |
| `Engine` | the patching engine as a state machine on values: the specification |
| `Libpulp` | the engine as the library runs it: a class whose methods update lists and flags in place, each proved equal to its `Engine` counterpart |
| `Layout`, `ControlFlow` | memory and bookkeeping agree over every run; calls go to the newest active replacement |
| `Records`, `RevertAll`, `History` | the record invariant, revert-all, history erasure |
| `Deferral` | queued writes are as good as immediate ones |
| `Sessions`, `Whole` | when a session leaves the process healthy; what holds of calls when it does not |
| `EntryPoints`, `LibraryNames`, `References`, `Universes` | return codes, which patches a library name means, what references hold, which universe a detour has |
| `LibraryRuns` | the library taken through a whole run |
| `Witnesses` | concrete runs for three of the failures listed below |
| `MsgQueue`, `MsgPush` | the message ring: messages and where they lie; the byte-level program for every accepted size |
| `PcQueue`, `PcProgress` | the two-thread queue, statement by statement; calls run to their end |
| `Metadata`, `MetadataIo` | patch metadata: format, round trip, writers, splices, parser |
| `RemoteString`, `Power`, `Interpose`, `Md4`, `Md4Vector` | remote string reads, the POWER trampoline, the allocator guard, the digest |

How the pieces fit. `Engine.Next` is one operation: apply, revert one patch,
revert all patches of a library, toggle, or drain the queue; `Engine.Run` is any
sequence of them. `Libpulp.Library` carries out the same operations imperatively,
with an abstraction function `Abs` whose value after every method is the
`Engine` state; `LibraryRuns.RunLibrary` takes it through whole runs. Theorems about
runs are therefore theorems about the library.
The memory the theorems speak of is the one after all queued writes
(`ControlFlow.After`), which `ControlFlow.RunThenDrain` ties to draining, and
`Libpulp.DrainQueue` ties draining to decoding the actual bytes of the queue.

What is assumed of the world: prologue areas of patchable functions are pairwise
apart and apart from static-data reference slots (`Layout.WellPlaced`); symbol
look-ups are inputs of the apply operation; memory allocation succeeds; memory is
one flat array, in which libraries loaded later are already present.

Where code and expectation part:

- The revert-all loop (lib/ulp.c:116-119) does not advance past a patch that
  cannot be reverted. `RevertAll.EndsIffNoForeignDependent` gives the exact
  condition under which it ends, `Witnesses.RevertAllHangs` a run.
- The size test of the message ring (lib/msg_queue.c:48) admits a message whose
  bytes and NUL fill the buffer exactly. `MsgPush.PushEndsIff` and
  `MsgPush.RunEndsIff` say when its push ends: always, except as the first message
  or right behind another such one. On a ring in use it ends because `distance`
  falls below 0 and the unsigned sum with the size below the capacity;
  `MsgPush.FullPush` says what that leaves, and `MsgPush.RunsKeepTheNewest` that
  only a shorter message is there in full afterwards.
- The fallback of `__ulp_manage_universes` (lib/ulp.c:1075-1076) is the entry plus two,
  which is wrong behind an endbr64; `History.ManagedAgrees` has the exact
  condition, `Witnesses.EndbrFallbackIsWrong` a run.
- The livepatchable test (lib/arch/x86_64/patch.c:139-146) accepts an entry that
  begins with a short jump of its own; reverting replaces that jump by a nop.
  `ControlFlow.RevertRestoresCalls` and `History.RevertsLeaveNoTrace` say exactly
  when reverting gives back where a call goes.
- The interposer's counter (lib/interpose.c:398-402) is cleared, not decremented,
  at unlock. `Interpose.ExactIffQuiet` says when that is harmless, and
  `Interpose.LockedIff` when the try-lock succeeds otherwise: too early while a call
  it forgot goes on (`LateCallIsLost`), or not at all after it (`QuietButRefused`).
- The engine's writes are not checked (lib/ulp.c:77-86): an apply that overflows the
  instruction queue returns 0, sets EINSNQ and loses redirections.
  `Sessions.ApplySession` and `Sessions.RevertSession` give the exact condition,
  `Sessions.OverflowIsSilent` a request, and `Whole.CallsArrive` what is still true of
  calls afterwards.
- The in-process write (lib/insn_queue.c:298) takes its last page from the address
  behind the write. `PageWrite.AskedIffNeeded` says when that refuses a write
  whose own pages are all mapped. When a page refuses to become writable, the pages in
  front of it stay so (`PageWrite.Process.InterpretWrite`).

## Model

| member | source | states |
|---|---|---|
| InsnCodec.AlignIsLeast | lib/insn_queue.c:39-44 | The alignment used for instruction sizes is the least multiple of 4 (or 8) that is not smaller than its argument. |
| InsnCodec.MaskRounds | lib/insn_queue.c:39-44 | The mask expression of `align_to` rounds up to that multiple. |
| InsnCodec.RepresentsSize | lib/insn_queue.c:72-80 | An encoded run of instructions is as long as the sum of their sizes, and every instruction takes at least one byte. |
| InsnCodec.RepresentsAppend | lib/insn_queue.c:72-93 | Writing one more encoding at the end, and nothing before it, appends exactly that instruction to what the buffer represents. |
| InsnCodec.ReplayAppend | common/insn_queue.c:101-113 | Executing a concatenation is executing its parts one after the other. |
| InsnCodec.FetchDecodes | common/insn_queue.c:35-83 | Decoding inverts encoding: at the start of an encoded instruction the interpreter finds that instruction, with all operands, and advances by exactly its size. |
| InsnCodec.InterpDecodes | common/insn_queue.c:91-128 | Interpreting an encoded run executes exactly those instructions in order, prints exactly the texts of its PRINTs, and ends without error, with pc at the queue size and the counter used up. |
| InsnQueues.PutPrintIsChunk | lib/insn_queue.c:101-120 | The field stores of a PRINT produce a decodable encoding of that text and touch nothing in front of it. |
| InsnQueues.PutWriteIsChunk | lib/insn_queue.c:129-149 | The field stores of a WRITE produce a decodable encoding of that address and data and touch nothing in front of it. |
| InsnQueues.InsnQueue.GetWritableArea | lib/insn_queue.c:61-94 | A reservation is refused exactly when it is empty or does not fit; refused, it changes nothing; granted, it starts at the old end and is counted. |
| InsnQueues.InsnQueue.InsertPrint | lib/insn_queue.c:101-120 | If the padded instruction fits, the queue's content is the old content followed by that PRINT; otherwise bytes, size and content are unchanged and the error state becomes EINSNQ. |
| InsnQueues.InsnQueue.InsertWrite | lib/insn_queue.c:129-149 | The same for WRITE. |
| InsnQueues.InsnQueue.EnsureEmptiness | lib/insn_queue.c:163-177 | Reports and sets EINSNQ exactly when the queue holds instructions. |
| Ptrace.PokeTail | tools/ptrace.c:121-140 | Peek, merge and poke of the partial last word changes exactly the bytes to be written. |
| Ptrace.PokeWords | tools/ptrace.c:113-120 | The word loop stores the longest mapped run of whole words and fails exactly when a word is not mapped. |
| Ptrace.WriteBytesPtrace | tools/ptrace.c:110-143 | The word-wise remote write is a plain byte copy of the n bytes and nothing else, for every n and address; it fails exactly when a word it needs is not mapped. |
| QueueDrain.Interpret | common/insn_queue.c:91-128 | The interpreter loop, run in place on the process memory, computes the outcome function of the codec. |
| QueueDrain.InterpretOne | common/insn_queue.c:35-83 | Each handler does what its instruction means and returns its size. |
| QueueDrain.InterpretFromProcess | tools/insn_queue.c:172-209 | Draining a well-formed queue executes all of it in order and leaves the remote queue empty; a queue of a newer version is refused and nothing changes. |
| PageWrite.PagesCoverWrite | lib/insn_queue.c:292-300 | Every byte of a write lies in one of the pages whose protection is changed. |
| PageWrite.LastPageIsNeeded | lib/insn_queue.c:298-300 | The last page of that range holds a byte of the write exactly when the write does not end on a page boundary. |
| PageWrite.AskedIffNeeded | lib/insn_queue.c:298-315 | The protection lookups succeed exactly when all pages of the write are mapped and, if it ends on a page boundary, the page behind it is mapped too. |
| PageWrite.BoundaryWriteRefused | lib/insn_queue.c:298-312 | A write that is refused although its only page is mapped. |
| PageWrite.Process.Query | lib/insn_queue.c:302-315 | The first loop succeeds exactly when every page is mapped and then holds every page's protection. |
| PageWrite.Process.Unprotect | lib/insn_queue.c:318-324 | Every page up to the first one that refuses it becomes writable, and no other page changes. |
| PageWrite.Process.Restore | lib/insn_queue.c:333-339 | All protections are back as they were. |
| PageWrite.Process.InterpretWrite | lib/insn_queue.c:287-342 | The in-process write happens in full, with all protections as before, exactly when every page asked about is mapped and none refuses to become writable; otherwise no byte changes, and the pages in front of a refusing one stay writable. |
| X86.PrologueLayout | lib/arch/x86_64/patch.c:41-61 | Where the indirect jump, its zero displacement, the target word, endbr64 and the backward jump lie in each template. |
| X86.IndirectJump | lib/arch/x86_64/patch.c:41-61 | The jump through the word behind it goes to the little-endian address stored there. |
| X86.RedirectsReaches | lib/arch/x86_64/patch.c:41-61 | Executing a patched entry arrives at the new function, with and without endbr64. |
| X86.FallsThroughReaches | lib/arch/x86_64/patch.c:91-101 | Executing a reverted entry arrives at the function's own body. |
| X86.UntouchedReaches | lib/arch/x86_64/patch.c:127-146 | A patchable entry never patched arrives at its body if it starts with nops; from one that starts with a jump of its own, which the livepatchable test also lets through, control reaches where that jump goes. |
| X86.PatchableIff | lib/arch/x86_64/patch.c:127-146 | An entry is patchable if and only if it, or what is behind its endbr64, starts with a two-byte nop sequence or a short jump. |
| X86.PatchTakesEffect | lib/arch/x86_64/patch.c:115-169 | Patching or reverting an entry makes it redirect or fall through as asked, and does not change how later patches see the entry. |
| X86.AreaDecides | lib/arch/x86_64/patch.c:127-146 | The kind of an entry and its effect depend on the bytes of its own area only. |
| Layout.AreaKept | lib/ulp.c:77-86 | A write to another function's prologue or to a reference slot leaves an area's bytes alone. |
| Layout.LaidAfterAll | lib/arch/x86_64/patch.c:127-146 | No sequence of pending engine writes changes the outcome of the endbr64 and livepatchable tests. |
| Layout.SyncAfterPatch | lib/arch/x86_64/patch.c:115-169 | After patching one function, every root's entry bytes agree with its newest active detour. |
| Layout.SyncAfterSlot | lib/ulp.c:690-745 | Writing a static-data reference keeps every entry in agreement. |
| ControlFlow.PushKeeps | lib/ulp.c:1101-1122 | Pushing a detour keeps addresses unique, makes the pushed target the newest active one of that function, and disturbs no other function. |
| ControlFlow.ApplyUnitsTracks | lib/ulp.c:634-680 | Applying the units of a patch keeps memory-after-drain and bookkeeping in agreement. |
| ControlFlow.RevertFromTracks | lib/ulp.c:1223-1259 | So does switching off every detour of a patch, wherever it is in the stacks. |
| ControlFlow.NextKeeps | lib/ulp.c:147-212 | Every operation (apply, revert-all, single revert, toggle, drain) keeps the invariant: while not in error, the bytes all queued writes will leave agree with every function's newest active detour. |
| ControlFlow.RunKeeps | lib/ulp.c:147-212 | So does every sequence of operations. |
| ControlFlow.CallsGoToNewestActive | lib/ulp.c:634-680 | After any sequence of operations without error state, executing any patchable function's entry reaches the target of its newest active detour, or its own unmodified body if there is none; bytes outside patched prologues and reference slots never change. |
| ControlFlow.RevertRestoresCalls | lib/arch/x86_64/patch.c:127-166 | Over every run without error, a function without active detour is entered as in the untouched process if and only if it was never patched or its entry did not begin with a jump to elsewhere. |
| ControlFlow.RunThenDrain | tools/insn_queue.c:172-209 | Draining after any run leaves exactly the memory the previous theorem speaks of. |
| ControlFlow.ErrorsAreFinal | lib/ulp.c:152-167 | Once in an error state other than EUSRBLOCKED, no operation changes patches, detours, counters or the state; only queued writes may still be drained. |
| Records.InstalledIsNewest | lib/ulp.c:1239-1252 | In every recorded state the target installed for a function is that of the last unit for it in the newest applied patch that names it, and there is none if no applied patch does. |
| Records.RemovedClaims | lib/ulp.c:1171-1212 | Removing a patch from the list removes exactly its claims on every function. |
| Records.PushedDetours | lib/ulp.c:1101-1122 | A push adds one detour on top of one function's stack and leaves all other stacks alone. |
| Records.RevertedRoots | lib/ulp.c:1223-1259 | The restartable double loop switches off exactly the detours of the reverted patch from its position on. |
| Records.ApplyRecords | lib/ulp.c:633-753 | A successful apply keeps the record invariant: unique ids, dependencies applied and older, unique root addresses and indices, stacks ordered by universe, and per function the active detours are exactly the claims of the applied patches, in order. |
| Records.RevertRecords | lib/ulp.c:1146-1259 | A revert keeps it, removes exactly the patch and exactly its detours, and succeeds. |
| RevertAll.WalkIsLoop | lib/ulp.c:109-134 | The recursive walk used as specification ends exactly when the loop, turn by turn, ends. |
| RevertAll.CanRevertNext | lib/ulp.c:541-570 | With dependencies older than dependents and no foreign dependent, the next patch of the library can always be reverted. |
| RevertAll.WalkReturns | lib/ulp.c:109-134 | Without a foreign dependent the walk ends with exactly the other libraries' patches, in order. |
| RevertAll.WalkSticks | lib/ulp.c:116-119 | With a foreign dependent the walk comes to a patch it cannot revert and never leaves it. |
| RevertAll.EndsIffNoForeignDependent | lib/ulp.c:97-137 | The revert-all loop terminates if and only if no patch of another library depends on a patch of the given one. |
| RevertAll.LeavesTheOthers | lib/ulp.c:97-137 | Then it removes exactly that library's patches, keeps the others in order, and every function replaced only by removed patches has no active detour; the return code says whether anything was removed. |
| History.NextRecords | lib/ulp.c:147-212 | Every operation keeps the record invariant while not in error. |
| History.ReachableRecords | lib/ulp.c:757-848 | The record invariant holds in every reachable state that is not in error. |
| History.DetoursAreUnits | lib/ulp.c:1223-1259 | In such a state a patch with a unit for a function is applied if and only if the function has an active detour with that id and target. |
| History.ManagedIsRoot | lib/ulp.c:1053-1077 | With unique indices the search by index finds the root's newest active target, or the address two bytes behind the entry. |
| History.FirstActiveIsNewest | lib/ulp.c:1053-1077 | The first active detour from the top has the highest universe of all active ones. |
| History.ManagedAgrees | lib/ulp.c:1053-1077 | The search result is where a call really goes if and only if the function has an active detour or does not start with endbr64. |
| History.ReplayWorks | lib/ulp.c:474-532 | Applying any dependency-closed list of distinct patches to a fresh process succeeds. |
| History.RevertsLeaveNoTrace | lib/ulp.c:1146-1259 | History erasure: after any run without error, targets and active detours are those of a fresh process to which only the surviving patches were applied, in their order; calls go to their destinations in both processes, and these are equal if and only if the function has an active detour, or never had one, or its entry was not a jump to elsewhere; memory is equal outside reference slots and the prologues of functions reverted entirely. |
| History.UnitsKeepLive | lib/ulp.c:1101-1122 | Applying alone never leaves a patched function without an active detour. |
| Witnesses.RevertAllHangs | lib/ulp.c:116-119 | In every process: patch one library, patch another with a patch that depends on the first, revert all patches of the first library; the session never returns. |
| Witnesses.EndbrFallbackIsWrong | lib/ulp.c:1075-1076 | Patch and revert a function that starts with endbr64: the search by index gives the entry plus two, the call goes to the entry plus six. |
| Witnesses.OwnJumpIsLost | lib/arch/x86_64/patch.c:139-142 | Patch and revert a function whose entry is a short jump of its own: the call no longer takes it. |
| Witnesses.SuchProcessesExist | lib/arch/x86_64/patch.c:139-146 | Memory images with such functions. |
| LibraryNames.SameLibraryIff | lib/ulp.c:115 | Two names count as the same library if and only if their first 256 characters, the terminator included, are the same. |
| LibraryNames.ShortNames | lib/ulp.c:775 | Names shorter than that count as the same only if they are equal. |
| LibraryNames.LongPathsOverflow | lib/ulp.c:107-110 | A path whose directory part fills 256 characters or more is refused with EOVERFLOW, and nothing changes. |
| LibraryNames.RevertAllByName | lib/ulp.c:97-137 | After every healthy run, reverting all patches of a library removes an applied patch if and only if the request that applied it named that library. |
| References.RefIs | lib/ulp.c:722-749 | Address and content of each reference write, from the reference and the load addresses. |
| References.WritesHold | lib/ulp.c:720-750 | After the writes of all references, each one not stored over holds what it stands for. |
| References.ReferencesHold | lib/ulp.c:682-750 | After a healthy apply and a drain, every static-data reference not stored over by a later one holds the address of its datum in the target library, or the module index and the offset if it is thread-local; its slot is the looked-up symbol, or the given offset in the patch object. |
| EntryPoints.EnteredIff | lib/ulp.c:147-212 | Both entry points do their work if and only if the process is in no error state, no write is queued and it is not busy; otherwise only EINSNQ may be set. |
| EntryPoints.BusyIsLeftAlone | lib/ulp.c:160-168 | A session on a busy process changes no patch, detour, counter, memory or queue. |
| EntryPoints.TogglesCancel | lib/ulp.c:1275-1298 | Toggling goes between ENONE and EUSRBLOCKED and back; other error states stay. |
| EntryPoints.BlockedStays | lib/ulp.c:1275-1298 | Without a toggle no sequence of operations changes a blocked process, but for queued writes being carried out. |
| EntryPoints.SanityIs | lib/ulp.c:913-960 | The admission code, in terms of the ids of the applied patches. |
| EntryPoints.ApplyCodes | lib/ulp.c:474-532 | The return code of every request to apply, from what it asks for; a request refused up to the look-ups changes nothing, a later failure leaves EUNKNOWN. |
| EntryPoints.RevertCodes | lib/ulp.c:541-570 | The return code of every request to revert: unknown id, dependents, or 0; refused, it changes nothing. |
| EntryPoints.ParseCodes | lib/ulp.c:474-490 | Metadata that cannot be loaded changes nothing; the code is the loader's. |
| EntryPoints.OtherCodes | lib/ulp.c:516-526 | Any other patch type is refused and changes nothing. |
| EntryPoints.WrittenPatchIsApplied | tools/packer.c:240-316 | What the packer writes as a patch is read back with the type that a session applies. |
| EntryPoints.WrittenReverseIsReverted | tools/packer.c:1078-1149 | What it writes as a reverse patch is read back with the type that a session reverts. |
| Universes.NextStamps | lib/ulp.c:1101-1122 | Every operation keeps: no detour is of a universe to come, and detours of one universe belong to one patch. |
| Universes.UniversesTell | lib/ulp.c:633-680 | So it is in every reachable state, error states included. |
| Sessions.ApplySession | lib/ulp.c:474-532 | From a drained healthy state an apply returns 0 if and only if it is admitted, all lookups succeed and all functions are patchable; it then leaves the process healthy, with all its writes queued, if and only if these have room together. |
| Sessions.RevertSession | lib/ulp.c:541-570 | A revert returns 0 if and only if the patch is applied and nothing depends on it; it then leaves the process healthy, with all its writes queued, if and only if these have room together. |
| Sessions.WalkSession | lib/ulp.c:97-137 | The same for the writes of reverting all patches of a library. |
| Sessions.OverflowIsSilent | lib/ulp.c:77-86 | For every queue size a patch whose application returns 0, loses a write and leaves EINSNQ. |
| Whole.NextLeavesWhole | lib/ulp.c:147-212 | Every operation, failing or not, leaves every prologue untouched, or a whole template for a detour in its stack, or reverted. |
| Whole.CallsArrive | lib/arch/x86_64/patch.c:115-169 | In every reachable state, error states included, a call to a patchable function arrives at a target of its stack, or at its body, or where its entry led at first. |
| Deferral.DeferredIsImmediate | lib/ulp.c:77-86 | Over every run that does not end in an error state such as a full queue, queueing every memory write and draining later gives the same state and memory as performing every write at once. |
| Libpulp.Library.MemWrite | lib/ulp.c:77-86 | The engine's write appends one WRITE to the queue, or sets EINSNQ if it does not fit. |
| Libpulp.Library.SkipPrologue | lib/arch/x86_64/patch.c:91-101 | Emits the two-byte nop behind an endbr64, if there is one. |
| Libpulp.Library.PatchAddr | lib/arch/x86_64/patch.c:115-169 | The byte-array code emits the template write, or refuses with ENOPATCHABLE, as the engine model's emission says. |
| Libpulp.Library.GetDetourRootByAddress | lib/ulp.c:592-600 | Finds the root of an address if there is one. |
| Libpulp.Library.PushNewDetour | lib/ulp.c:1101-1122 | The new state is the engine model's push, with a fresh root and index for a new function. |
| Libpulp.Library.FindActive | lib/ulp.c:1239-1250 | Scans a detour stack for the newest active target. |
| Libpulp.Library.ApplyUnits | lib/ulp.c:650-685 | The unit loop refines the engine model's unit step, error code included. |
| Libpulp.Library.ApplyRefs | lib/ulp.c:687-745 | The reference loop refines the engine model's reference step. |
| Libpulp.Library.ApplyAllUnits | lib/ulp.c:633-753 | The whole apply refines the engine model's. |
| Libpulp.Library.StateUpdate | lib/ulp.c:757-848 | Records the patch on top of the list with its units in order and its dependencies reversed, or fails and changes nothing. |
| Libpulp.Library.GetAppliedPatch | lib/ulp.c:1124-1134 | Finds the applied patch with an id if there is one. |
| Libpulp.Library.CheckPatchDependencies | lib/ulp.c:938-960 | True exactly when every dependency is applied. |
| Libpulp.Library.CheckPatchSanity | lib/ulp.c:913-927 | The admission code of a patch: already applied, unmet dependency, or fine. |
| Libpulp.Library.CanRevertPatch | lib/ulp.c:541-570 | Refuses exactly ids that are not applied or that an applied patch depends on. |
| Libpulp.Library.RevertAllUnits | lib/ulp.c:1223-1259 | The nested loops over roots and detours refine the engine model's revert. |
| Libpulp.Library.SwitchOffOne | lib/ulp.c:1231-1256 | One detour of the patch is switched off and the entry re-pointed to what is now newest. |
| Libpulp.Library.StateRemove | lib/ulp.c:1171-1212 | Unlinks exactly the first patch with the id. |
| Libpulp.Library.RevertPatch | lib/ulp.c:1146-1159 | Removes the record and the detours, or reports an unknown id and changes nothing. |
| Libpulp.Library.LoadPatch | lib/ulp.c:474-532 | Parse, admission, state update and apply, with the error code and error state of each failing stage. |
| Libpulp.Library.EntryChecks | lib/ulp.c:152-167 | Stops with the error state if there is one, with EINSNQ if writes are queued, with EAGAIN if the process is busy, in this order. |
| Libpulp.Library.TriggerPatch | lib/ulp.c:181-212 | The apply entry point is the state machine's apply step; its code is the error state, EINSNQ, EAGAIN, or that of the session. |
| Libpulp.Library.RevertPatchesFromLib | lib/ulp.c:147-178 | The revert entry point is the state machine's revert-all step; its code is the error state, EINSNQ, EAGAIN, or that of the loop. |
| Libpulp.Library.RevertAllPatchesFromLib | lib/ulp.c:97-137 | The loop, where it ends, computes the specification's walk. |
| Libpulp.Library.EnableOrDisablePatching | lib/ulp.c:1275-1298 | Toggles between ENONE and EUSRBLOCKED and changes nothing else. |
| Libpulp.DrainQueue | tools/insn_queue.c:172-209 | Draining the library's encoded byte queue through the interpreter is the state machine's drain step. |
| LibraryRuns.Perform | lib/ulp.c:147-212 | One operation of the library, or of the tool, is one step of the state machine, with all preconditions met by the invariant. |
| LibraryRuns.RunLibrary | lib/ulp.c:147-212 | A library taken through any operations that make sense in its process, and that do not hang, ends in the state of the engine's run. |
| MsgQueue.EvictIsMinimal | lib/msg_queue.c:67-82 | Eviction drops whole oldest messages, as few as make room. |
| MsgQueue.PushKeepsASuffix | lib/msg_queue.c:37-94 | A push leaves a suffix of the live messages, followed by the new one. |
| MsgQueue.LivesIffShorter | lib/msg_queue.c:48 | A message can be whole and alive in some ring of a capacity if and only if its bytes and NUL are fewer than that. |
| MsgQueue.WindowIsText | tools/messages.c:59-70 | The `distance` bytes from `bottom` on, going round, are the live messages, each with its NUL, with zero padding at the wrap. |
| MsgQueue.OldestInMemory | lib/msg_queue.c:69-82 | What an eviction scan sees: the oldest message ends at its NUL, followed by the next message or by padding to the end of the buffer. |
| MsgQueue.TurnOverInMemory | lib/msg_queue.c:57-61 | Zero-filling from top to the end of the buffer keeps what it does not overwrite and pads behind it. |
| MsgQueue.PushKeepsFits | lib/msg_queue.c:37-94 | A push of a message shorter than the buffer keeps the ring invariant: blocks disjoint, in order, and ended by `top` and by the end of the buffer. |
| MsgPush.ScanIsEvicted | lib/msg_queue.c:67-82 | The nested eviction loops, test by test and with the unsigned comparison of the source, end with the `bottom` and `distance` of the eviction function. |
| MsgPush.EvictedIsEvict | lib/msg_queue.c:67-82 | On a ring of messages that function drops exactly the messages the abstract eviction drops. |
| MsgPush.PushEndsIff | lib/msg_queue.c:37-94 | From every sound state a push of any accepted size ends if and only if the size is below the capacity or `top` is not 0. |
| MsgPush.PushedSound | lib/msg_queue.c:84-93 | Every push that ends leaves a sound state: `top`, `bottom` and `distance` within the buffer, its first byte in use, its last one NUL. |
| MsgPush.PushedIsPush | lib/msg_queue.c:37-94 | A push shorter than the buffer does to the bytes what the push on messages says. |
| MsgPush.FullPush | lib/msg_queue.c:67-93 | A message that fills the buffer, pushed on a ring in use, overwrites all of it: `top` is 0, `bottom` where the scan of the old bytes stopped, and the reader prints the message from there on, or nothing if that is byte 0. |
| MsgPush.NoneIsForever | lib/msg_queue.c:67-82 | The push function gives no state exactly where the loops, step by step, never end. |
| MsgPush.RunEndsIff | lib/msg_queue.c:37-94 | A sequence of accepted messages never ends if and only if a message that fills the buffer comes first or right behind another one. |
| MsgPush.FirstFullNeverEnds | lib/msg_queue.c:76-79 | For every capacity, a first message that hangs. |
| MsgPush.RunsKeepTheNewest | lib/msg_queue.c:37-94 | After every sequence of accepted messages that ends, the ring holds the last ones pushed, in order and whole, but for a first one that filled the buffer; the newest one is there in full if and only if it is shorter than the buffer. |
| MsgPush.MessageRing.SkipOldest | lib/msg_queue.c:70-79 | The inner loop finds the next message, or byte 0, and how far it went. |
| MsgPush.MessageRing.MakeRoom | lib/msg_queue.c:67-82 | The outer loop ends with the eviction function's values. |
| MsgPush.MessageRing.TurnIfNeeded | lib/msg_queue.c:51-61 | The rest of the buffer is zeroed, and `distance` and `top` adjusted, exactly when the message does not fit behind `top`. |
| MsgPush.MessageRing.CopyMessage | lib/msg_queue.c:84-85 | Stores the message and its NUL and changes no other byte. |
| MsgPush.MessageRing.StrPush | lib/msg_queue.c:37-94 | Buffer and ints after a push are those of the push function; empty and too long messages change nothing; the live messages are those of the push on messages, or what FullPush says. |
| MsgPush.MessageRing.Print | tools/messages.c:59-70 | The reader's loop prints exactly the live messages and padding. |
| PcQueue.SlotsDiffer | tools/pcqueue.c:150-175 | Different elements fewer than n apart live in different slots. |
| PcQueue.StepKeeps | tools/pcqueue.c:136-229 | Every statement of either thread keeps the queue invariant. |
| PcQueue.EveryInterleaving | tools/pcqueue.c:136-229 | Over every interleaving of statements: what was dequeued is a prefix of what was enqueued, at most n are in between, both threads never touch one slot, and semaphores plus operations in progress sum to n. |
| PcQueue.NeverBothBlocked | tools/pcqueue.c:136-229 | Over every interleaving both threads are blocked at once exactly when n is 0, and every other thread inside an operation can step. |
| PcProgress.EnqueueStores | tools/pcqueue.c:136-179 | In every interleaving an enqueue that returns uninterrupted has stored its element, once, behind those before it. |
| PcProgress.EnqueueCompletes | tools/pcqueue.c:136-179 | With a free slot it returns exactly when its thread has had five turns, whatever the consumer does. |
| PcProgress.UnstoredMeansSignal | tools/pcqueue.c:141-144 | An enqueue that returns with nothing stored was interrupted by a signal. |
| PcProgress.DequeueTakes | tools/pcqueue.c:188-229 | In every interleaving a dequeue that returns uninterrupted has taken the next element stored, and returns it. |
| PcProgress.DequeueCompletes | tools/pcqueue.c:188-229 | With an element stored it returns exactly when its thread has had five turns. |
| PcProgress.UntakenMeansSignal | tools/pcqueue.c:193-197 | A dequeue that returns with nothing taken was interrupted by a signal. |
| Metadata.OneUnitWritten | tools/packer.c:274-292 | The bytes of one replacement, written out. |
| Metadata.OneRefWritten | tools/packer.c:300-314 | The bytes of one reference, written out. |
| Metadata.OnePatchWritten | tools/packer.c:240-316 | The bytes of a section with one replacement, one dependency and one reference, field by field. |
| Metadata.CutCount | common/common.c:227-248 | A count of which only some bytes are left keeps the high bytes of the one before where the source accepts it, and is an error where it asks for all four. |
| Metadata.NoCount | common/common.c:227-248 | A count of which no byte is left is an error. |
| Metadata.SectionSpliced | tools/introspection.c:1943-1980 | Splicing the path into what the writers produce gives type, id, path, then the rest, for both patch types. |
| Metadata.PatchRoundTrip | common/common.c:250-509 | Serialise, splice in the path, parse: gives back type, id, path, build id, name, units, dependencies and references in order, whatever bytes follow in the buffer. |
| Metadata.ReverseRoundTrip | tools/packer.c:1078-1149 | The same for the header of a reverse patch, whose name is written without its NUL. |
| Metadata.PaddingIsNotRead | common/common.c:227-248 | On arbitrary bytes: where no read is cut short, parsing the exact-size buffer and parsing it padded with anything give the same result. |
| MetadataIo.Stream.WriteUnits | tools/packer.c:274-292 | Writes the count-prefixed encoding of all units. |
| MetadataIo.Stream.WriteDeps | tools/packer.c:294-298 | Writes all dependencies. |
| MetadataIo.Stream.WriteRefs | tools/packer.c:300-314 | Writes all references. |
| MetadataIo.Stream.WriteMetadata | tools/packer.c:240-316 | The writer's output is the section the round trip speaks of. |
| MetadataIo.Stream.WriteReverse | tools/packer.c:1078-1149 | The reverse writer's output is the reverse section. |
| MetadataIo.ExtractToMem | tools/introspection.c:1943-1980 | The copying splice builds the spliced section, or refuses when it would not fit. |
| MetadataIo.MoveBytes | lib/gdb_interface.c:83-84 | The overlapping move copies the old bytes. |
| MetadataIo.InjectPath | lib/gdb_interface.c:47-94 | The in-place splice produces the same bytes as the copying one exactly when the result fits; otherwise it returns ENOMEM and changes nothing. |
| MetadataIo.MetaReader.ReadFromMem | common/common.c:227-248 | A read takes what is left, at most what was asked for, and the cursor never passes the buffer length. |
| MetadataIo.MetaReader.NextUnits | common/common.c:354-406 | The unit loop appends the parsed units in order, or fails where the bytes end. |
| MetadataIo.MetaReader.NextDeps | common/common.c:408-431 | The same for dependencies. |
| MetadataIo.MetaReader.NextRefs | common/common.c:433-502 | The same for references. |
| MetadataIo.MetaReader.ParseMetadata | common/common.c:250-509 | The cursor-based parser computes the parsing function of the round trip, errors included. |
| RemoteString.HasByteZeroIsExact | tools/ptrace.c:305-312 | The subtraction trick is non-zero if and only if one of the eight bytes is zero. |
| RemoteString.ReadLong | tools/ptrace.c:207-240 | Reads the word whose bytes lie at the address, or fails if it is not mapped. |
| RemoteString.ReadString | tools/ptrace.c:362-391 | The doubling loop ends on every memory; it fails exactly when a word up to the terminator is not mapped, and otherwise returns exactly the remote bytes through the terminator's word. |
| RemoteString.ReadWholeWords | tools/ptrace.c:323-333 | The fixed-size word loop copies words up to the terminator's, or all that fit. |
| RemoteString.TerminatorIsRead | tools/ptrace.c:314-348 | If the buffer has room for the terminator, it is among the bytes read. |
| RemoteString.ReadStringAllocated | tools/ptrace.c:314-348 | Copies exactly the string's words, cut to the buffer, leaves the rest of the buffer alone, and fails exactly when a needed word is not mapped. |
| Power.BranchDecodes | lib/arch/powerpc64le/patch.c:72-79 | The generated word is an I-form relative branch (Power ISA Book I, section 2.4) to the given displacement if and only if that is a multiple of 4 from -2^24 on, below 0. |
| Power.BackReachesArea | lib/arch/powerpc64le/patch.c:181-194 | The branch from either slot lands at the start of the pre-entry area. |
| Power.SlotIsStable | lib/arch/powerpc64le/patch.c:117-143 | The branch slot found is the same before and after any sequence of patch and skip requests, and nothing but the pre-entry area and that slot changes. |
| Power.LastRequestDecides | lib/arch/powerpc64le/patch.c:159-224 | After any sequence of requests the slot holds a nop or the branch to the start of the new prologue, as the last request asked. |
| Power.FirstSlotWins | lib/arch/powerpc64le/patch.c:117-143 | The entry word is used whenever it is a nop or the branch, and then the word behind the global entry point stays; otherwise the entry word stays. |
| Power.NoSlotFails | lib/arch/powerpc64le/patch.c:209-224 | Without a place for the branch a request fails with ENOPATCHABLE; the area in front of the entry has been filled all the same. |
| Power.GetBranchOffset | lib/arch/powerpc64le/patch.c:117-143 | The scan loop finds that slot. |
| Power.PatchAddr | lib/arch/powerpc64le/patch.c:209-224 | Patching and skipping change memory as the request function says, with its error code. |
| Interpose.ExactIffQuiet | lib/interpose.c:383-434 | Over every interleaving the counter equals the calls in flight plus the lock if and only if no call is in flight at any unlock. |
| Interpose.LockedMeansQuiet | lib/interpose.c:383-394 | In such runs the try-lock succeeds exactly when nobody is inside an interposed function. |
| Interpose.FlagIsShort | lib/interpose.c:383-434 | In every run the counter is the calls in flight plus the lock, less the calls that were in flight at the last unlock. |
| Interpose.LockedIff | lib/interpose.c:383-394 | In every run the try-lock succeeds if and only if as many calls are in flight as were at the last unlock. |
| Interpose.QuietButRefused | lib/interpose.c:396-402 | A run after which nothing is in flight, the counter is -1 and the try-lock fails. |
| Interpose.LateCallIsLost | lib/interpose.c:396-402 | A run that breaks the condition, and a try-lock that then succeeds in the middle of a call. |
| Md4.ZeroBytesIsLeast | tools/md4.c:98-108 | The zero padding is the least that leaves room for the length field (RFC 1320, section 3.1). |
| Md4.PaddedIsInjective | tools/md4.c:89-139 | Two messages have the same padded form if and only if they are equal, although the bit length is kept modulo 2^64. |
| Md4.FIsChoice | tools/md4.c:174 | In the bits of any mask F is y where x is set and z where it is not (RFC 1320, section 3.4: "if X then Y else Z"). |
| Md4.GIsMajority | tools/md4.c:202 | In the bits of any mask G is set where two of x, y and z are, and clear where two of them are. |
| Md4.HIsParity | tools/md4.c:230 | In the bits of any mask H is the parity of x, y and z. |
| Md4Vector.EmptyDigest | tools/md4.c:43-290 | The digest of the empty message is the one published in RFC 1320, appendix A.5. |
| Md4.OutputIsInjective | tools/md4.c:267-288 | The sixteen output bytes determine the four registers (RFC 1320, section 3.5). |
| Md4Program.Pad | tools/md4.c:89-139 | The buffer built is the padded message of RFC 1320, sections 3.1 and 3.2. |
| Md4Program.AppendLength | tools/md4.c:127-139 | The shift loop stores the bit length modulo 2^64, low-order byte first. |
| Md4Program.GatheredIsWord | tools/md4.c:155-168 | Shifting in four bytes from the last to the first reads a little-endian word. |
| Md4Program.ReadWords | tools/md4.c:155-168 | The sixteen words of a block. |
| Md4Program.Round1 | tools/md4.c:173-199 | The sixteen unrolled lines are sixteen steps of round 1. |
| Md4Program.Round2 | tools/md4.c:201-227 | The same for round 2, with its word order and constant. |
| Md4Program.Round3 | tools/md4.c:229-255 | The same for round 3. |
| Md4Program.Block | tools/md4.c:170-261 | One turn of the block loop is the compression of RFC 1320, section 3.4. |
| Md4Program.Append | tools/md4.c:275-282 | Appends a register, low-order byte first, and changes no other byte of the result. |
| Md4Program.MD4 | tools/md4.c:43-290 | The routine computes the digest of RFC 1320 for every input. |

## Left out

- Process control: ptrace attach, seccomp, /proc parsing, dlopen and dlsym, ELF and
  JSON reading. Symbol look-ups and "library loaded", "allocator busy" answers are inputs.
- Build-id matching (lib/ulp.c:982-1044): an opaque yes or no that is part of the
  admission input; the `memcmp` result at lib/ulp.c:1006 is used un-negated.
- The remote build-id note walk (tools/introspection.c:710-748).
- Failing remote writes inside the interpreter: the handler's error value is added
  to `pc` (common/insn_queue.c:101-113); the model stops with `Fault` there, and
  the theorems are about queues whose writes are mapped.
- Memory exhaustion, leaks and the double bookkeeping of freed records.
- Command-line handling, result summaries, timestamps and message formatting.
- The `.dsc` parser; only its outcome, lists with matching counts, is an input. The
  counter kept by `add_dependency` is the list length and not modelled apart.
- The assembly entry stubs; on POWER the model ends where control reaches the
  start of the pre-entry area, and the one word `get_branch_offset` may read
  past a short function is taken to be mapped.
- The record fields `overwritten_bytes`, `timestamp` and `container_name`, which no modelled
  step reads.
- Libpulp.Library.PushNewDetour: universe and root counters are unbounded, where the source has 64
  and 32 bits; wrapping would take more applies than any process lives.
- InsnQueues.InsnQueue.InsertWrite: capacity is below 2^23, so that every size fits the signed 24-bit
  field, and sizes are below the C `int` limit.
- MsgPush.MessageRing.StrPush: requires that the push ends, which `MsgPush.PushEndsIff` says exactly;
  the capacity is below 2^30, so that twice of it is an `int`, and sizes passed are the string length
  plus one, as the formatter gives them.
- Libpulp.Library.RevertAllPatchesFromLib: requires the walk to end, as the source's loop otherwise
  does not; the exact condition is `RevertAll.EndsIffNoForeignDependent`.
- MetadataIo.MetaReader.ParseMetadata: a count the source leaves uninitialised when the bytes end
  early is taken as 0; the parse fails in either case.
- MetadataIo.ExtractToMem: the section holds at least the 33 bytes of type and id; the source does not
  test for that, and with fewer its copy length (tools/introspection.c:1975) wraps around.
- MetadataIo.InjectPath: the same for its size argument (lib/gdb_interface.c:68-69).
- QueueDrain.Interpret: queues whose execution would touch unmapped memory or bytes beyond the buffer,
  where the model has `Fault`.
- QueueDrain.InterpretOne: the same for one instruction.
- References.ReferencesHold: `TLS_DTV_OFFSET` is 0, as on x86-64; on POWER it is 0x8000
  (include/arch/powerpc64le/arch_common.h:5).
- Power.PatchAddr: the new prologue is one opaque run of words; its content is not interpreted.
- The size test of `set_metadata_buffer` (tools/introspection.c:1434-1455), one comparison
  in front of a remote write that `Ptrace.WriteBytesPtrace` covers.
- `insnq_interpret_from_lib` (lib/insn_queue.c:352-370): the same interpreter loop run
  inside the process with the handler of `PageWrite`, followed by clearing the queue.
- Interpose: the interposed functions themselves; only their counter is modelled.
