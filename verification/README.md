# Verified models of anemone

This project models the parts of the anemone kernel and its userspace whose correctness is a
question of protocol, format or invariant, and proves the properties they exist for. Every
statement is for all inputs, all runs or all reachable states.

| files | what they model |
|---|---|
| `EpisodeWord`, `Episode`, `EpisodeCalls`, `EpisodeInvariant`, `EpisodeSafety`, `EpisodeProgress` | the terminal power episode: one atomic word over which any number of control flows race to shut the machine down, switch to emergency, or enter the machine action |
| `SymtabFormat`, `SymtabTable`, `SymtabBuilder` | the symbol-table byte format: checked parser, iterator, binary-search lookup, checked encoder |
| `PerCpuBorrow`, `PerCpuLayout` | per-CPU storage: the borrow automaton under nested accesses and interrupts, and the boot-time layout of the areas |
| `ShellStart` | the pipe handshake by which PID 1 learns that a shell could not be started |
| `Publication` | publishing an embedded program by writing a temporary file and renaming it |
| `Dirent`, `DirentKernel` | `getdents64` records from the kernel's directory producer to the two userspace walkers |
| `StackImage`, `InitStack`, `StartupEnv` | the initial user stack, from the kernel that pushes it to the iterators that read it |
| `CpuSets` | the fixed-size CPU mask as a mathematical set |
| `RangeAllocators` | the allocator of address ranges with its two indexes |
| `Bytes`, `Bits`, `Arithmetic` | bytes, words, little-endian integers, UTF-8, bitwise operations, quotients and remainders |

Code that works by updating things step by step is a method or a class here, proved against a
function or a predicate on values; protocols between several control flows are transition
systems in which a schedule picks the next flow and action, so that a statement about every
schedule is a statement about every run.

## Main results

*Terminal episode.* `StepKeepsInv` is the invariant behind everything else; it holds for any
number of flows and CPUs, also with several flows on one CPU, and with panics and stops between
any two atomic operations. From it follow one executor per run (`OneExecutor`), at most four
values of the word with frozen identity and rising phase (`WordHistory`, `IdentityFrozen`), one
machine action (`MachineActionOnce`), handlers in order and none after one that panics
(`HandlersInOrder`, `ListIsRegistered`, `NoHandlerAfterLeaving`), an intent that somebody asked for
(`PublishedAsAsked`), the orderly plan as a prefix (`PlanIsPrefix`), losers that halt within two of
their own steps and one more per panic (`CallersHalt`), nobody else who gives up (`HaltsForAReason`)
and bounded loops under any contention (`LoopsTerminate`, `SoloBounds`). `PlanStopsIffOneFlowPerCpu`
gives the exact condition under which the plan is over once the orderly phase is. `ShutdownCompletes` and
`CanCompleteIffNotOrphaned` are the other half: the executor invokes every handler and the fallback,
whatever the other flows do, if and only if no flow that panicked or was halted inside a registration
holds the list of the published intent.

*Symbol table.* `Parse` accepts exactly the declaratively well-formed byte strings, `Encode`
succeeds exactly on the encodable lists and fills its buffer in place with their image; either
reports the first problem in the order of its checks. `RoundTrip` and `Reencode` connect the two.
`Lookup` is the last start at or below the address, found with at most floor(log2 n) + 1 probes;
overlapping ranges are accepted by the parser, so the search can miss a symbol
(`OverlapHidesASymbol`), and `LookupCompleteIffNoHole` says exactly when it cannot.

*Per-CPU storage.* `Cpu.Run` executes any nesting of accesses, guards and interrupts on the real
cells; it completes if and only if no place in the program offends (`CompletesIffHarmless`), runs
every closure once and in order (`ClosuresAreAccesses`, `StartsInOrder`) and lets each see exactly
the accesses and guards around it (`ClosuresAreSites`). `BspInit` lays out disjoint, page-aligned,
tiling areas in one memory, in which every variable reads as in the template.

*End to end.* `ReadIdentities`, `List` and `ExecAndRead` run a kernel producer against a userspace
consumer and state that what comes out is what went in, whatever the number of batches or strings.
`RangeAllocators.Session` states conservation over any sequence of allocations and frees.

*Found to be false.* Six promises do not hold of the code as it stands. Each is kept as it is, with a
concrete input or run and the exact condition:

- the episode word's round trip fails for CPU numbers past 2^61 - 2, because the checked shift does
  not check for lost bits (`HighExecutorAliases`; exact: `DecodeEncode`);
- a plan step can run after the switch to emergency when two flows share the executor CPU
  (`SharedCpuRunsThePlanOn`; exact: `PlanStopsIffOneFlowPerCpu`);
- a flow that panics inside a handler registration still holds the list's lock and, as the emergency
  executor, waits for it for ever (`RegistrationPanicDeadlocks`; exact: `ShutdownCompletes` for whole
  runs and `CanCompleteIffNotOrphaned` for states);
- `lookup` can miss a containing symbol of an accepted table (`OverlapHidesASymbol`; exact:
  `LookupCompleteIffNoHole`);
- PID 1 takes end of file on the pipe to mean that the shell was started, which a child killed while
  preparing, or cut off before the first byte of its report, also produces (`StartedWithoutExec`;
  exact: `StartedMeansExecIff`);
- a rejected `free` of the range allocator can lose a free range, although its test says that the
  original ranges stay intact after rejected frees (`RejectionCanLoseARange`; exact: the last clause
  of `RangeAllocator.Free`).

Where the code and its documentation differ, the model follows the code: the comment over the
initial-stack constructor says that the auxiliary vector is not implemented, and the code pushes it.

## Assumptions

- Atomic operations are linearizable; a panic never returns; a stop request may arrive at any
  moment or never, also inside the interrupt-disabled stretch of a registration, which allows for
  more than the code does; words are 64 bits, targets are little-endian, and plain unsigned
  subtraction wraps.
- CPU numbers of booted flows are encodable in the episode word; handlers are registered by flows
  that are not inside a shutdown.
- An interrupt handler's accesses are balanced, and interrupts do not nest inside the
  interrupt-disabled sections of the core-local primitives.
- Names and strings that reach a C-string interface contain no zero byte. What a new program is given
  is smaller than half the address space, as every object in memory is, and user space is smaller
  than a quarter of it.
- Ranges given to the allocator end inside the machine word, as `Range<u64>` and page ranges do; past
  it the code's `start + len` wraps unless overflow checks are on, and no profile turns them on.
- Failures of calls into code outside the model (the filesystem, the kernel's pipes, user memory) are
  chosen by the environment, at any call. A failing create, change of mode or rename leaves the ramfs
  as it was; a failing write may have stored bytes.

## Model

| member | source | states |
|---|---|---|
| `EpisodeWord.DecodeEncode` | anemone-kernel/src/power.rs:56-96 | the word round trip holds if and only if the executor number plus one fits in 61 bits |
| `EpisodeWord.EncodeDecode` | anemone-kernel/src/power.rs:56-96 | a word that decodes is the encoding of what it decodes to; only zero decodes to nothing published |
| `EpisodeWord.HighExecutorAliases` | anemone-kernel/src/power.rs:56-73 | past that bound two different CPUs share one word |
| `EpisodeWord.EncodeIsBitwise` | anemone-kernel/src/power.rs:56-73 | or-ing the shifted executor, bit 0 for a reboot and bit 1 or 2 for the phase gives the word |
| `EpisodeWord.EncodeFailsAtTop` | anemone-kernel/src/power.rs:56-73 | encoding panics for the last CPU number and no other |
| `EpisodeWord.DecodeIsBitwise` | anemone-kernel/src/power.rs:75-96 | masks and a shift by three select intent, phase and executor, and both phase bits at once is the branch that panics |
| `Episode.ProceedStep` | anemone-kernel/src/power.rs:98-178 | a step of one flow's code touches no other flow and never moves it to another CPU |
| `EpisodeInvariant.StepKeepsInv` | anemone-kernel/src/power.rs:98-178 | every load, exchange, plan step, handler call, registration, panic and stop keeps the invariant, and changes the word only by an exchange that continues the episode, from the executor CPU once published |
| `EpisodeInvariant.EmergencyCasKeepsInv` | anemone-kernel/src/power.rs:112-152 | the emergency exchange with a possibly stale load keeps the invariant |
| `EpisodeInvariant.MachineCasKeepsInv` | anemone-kernel/src/power.rs:154-178 | the machine-action exchange with a possibly stale load keeps the invariant |
| `EpisodeInvariant.HandlerKeepsInv` | anemone-kernel/src/power.rs:212-249 | invoking the next handler keeps the invariant |
| `EpisodeInvariant.LockListKeepsInv` | anemone-kernel/src/power.rs:279-287 | a registration that locks its list, or spins on it, keeps the invariant |
| `EpisodeInvariant.PushKeepsInv` | anemone-kernel/src/power.rs:279-287 | the push and the unlock keep the invariant: the list is never the one whose handlers are being run (what the push does to the lists: `ListIsRegistered`, `RegistrationAlone`) |
| `EpisodeInvariant.InterferenceKeepsInv` | anemone-kernel/src/panic.rs:6-25 | a request, a panic or a stop at any point keeps the invariant, also a panic that leaves a list locked |
| `EpisodeSafety.OneExecutor` | anemone-kernel/src/power.rs:312-354 | in every run whoever runs a plan step, enters the machine action or invokes a handler sits on the one CPU the word names |
| `EpisodeSafety.WordHistory` | anemone-kernel/src/power.rs:56-178 | in every run the word takes at most four values, all encodings of snapshots with one executor and intent and rising phase, so decoding never panics |
| `EpisodeSafety.IdentityFrozen` | anemone-kernel/src/power.rs:98-178 | between any two moments after publication executor and intent are the same and the phase has not gone back |
| `EpisodeSafety.MachineActionOnce` | anemone-kernel/src/power.rs:154-178 | entering the machine action succeeds at most once per run, with the intent published first |
| `EpisodeSafety.ListIsRegistered` | anemone-kernel/src/power.rs:279-287 | over every run a list is what it was at boot followed by the handlers of the completed registrations for it, in the order of their pushes, and nothing else ever touches it |
| `EpisodeSafety.HandlersInOrder` | anemone-kernel/src/power.rs:212-249 | the handlers invoked in a run are a gapless prefix of the one list chosen by the intent, then the halt fallback; that list is what was registered before the run followed by the handlers of the run's completed registrations, in order |
| `EpisodeSafety.NoHandlerAfterLeaving` | anemone-kernel/src/panic.rs:6-25 | no handler runs once the flow that entered the machine action panicked inside one, was stopped or fell back |
| `EpisodeSafety.PlanIsPrefix` | anemone-kernel/src/power.rs:262-277 | the plan events are a prefix of the six starts and completions of filesystem, network and device in this order, by the winner of the publication, and all of them precede a machine action entered without a panic |
| `EpisodeSafety.EveryCallerLoses` | anemone-kernel/src/power.rs:98-178 | in every run a flow off the published executor's CPU that is in the protocol at all is at one of the positions from which losers halt |
| `EpisodeSafety.LosersHalt` | anemone-kernel/src/power.rs:290-354 | the same from every state that keeps the invariant, with the exact number of steps left at each position |
| `EpisodeSafety.CallersHalt` | anemone-kernel/src/power.rs:290-354 | from every boot state, once an episode is published, a caller off its CPU that gets two own steps and one more for each of its own panics has halted, whatever the others do in between |
| `EpisodeSafety.LoopsTerminate` | anemone-kernel/src/power.rs:112-178 | with any number of flows per CPU no call of either loop makes more than three iterations |
| `EpisodeSafety.SoloBounds` | anemone-kernel/src/power.rs:112-178 | with one flow per CPU no call of the emergency loop, halted ones included, makes more than two iterations, and a call that won the machine action made one |
| `EpisodeSafety.NoPlanStepAfterEmergency` | anemone-kernel/src/power.rs:328-354 | with one flow per CPU the plan does not advance after the orderly phase |
| `EpisodeSafety.SharedCpuRunsThePlanOn` | anemone-kernel/src/power.rs:328-354 | with two flows on the executor CPU there is a run in which it does |
| `EpisodeSafety.PlanStopsIffOneFlowPerCpu` | anemone-kernel/src/power.rs:328-354 | over all runs from a boot state the plan stops with the orderly phase if and only if no two flows share a CPU |
| `EpisodeProgress.StepKeepsLists` | anemone-kernel/src/power.rs:279-326 | in every reachable state a locked list is held by the machine action that entered it, by a flow inside a registration, or by one that panicked or was halted inside one |
| `EpisodeProgress.RegistrationAlone` | anemone-kernel/src/power.rs:279-287 | a registration that finds its list free adds its handler at the end of that list, leaves the other one alone and gives the lock back |
| `EpisodeProgress.FirstExchangeWins` | anemone-kernel/src/power.rs:98-152 | the first exchange on the empty word makes its flow the executor of the intent it asked for, or of an emergency power-off |
| `EpisodeProgress.PublishedAsAsked` | anemone-kernel/src/power.rs:98-152 | over every run the first word published is an orderly one with the intent that a flow on the executor CPU was called with, or an emergency power-off |
| `EpisodeProgress.OwnStepAdvances` | anemone-kernel/src/power.rs:312-354 | every own step of the executor brings it one step nearer to the end of its list, unless a registration holds that list at that moment |
| `EpisodeProgress.LockAdvances` | anemone-kernel/src/power.rs:312-326 | the only place where the executor waits is the lock, and only for a registration |
| `EpisodeProgress.OtherKeepsCourse` | anemone-kernel/src/power.rs:98-178 | no step of another flow sets the executor back |
| `EpisodeProgress.RunningListFixed` | anemone-kernel/src/power.rs:279-326 | once the machine action holds its list no registration extends it |
| `EpisodeProgress.PanicKeepsCourse` | anemone-kernel/src/panic.rs:6-25 | a panic of the executor in the orderly phase leads it on to the machine action |
| `EpisodeProgress.LatePanicHalts` | anemone-kernel/src/panic.rs:6-25 | after the orderly phase a panic halts its flow at its next step |
| `EpisodeProgress.StoppedForGood` | anemone-kernel/src/power.rs:290-310 | a flow that StopExecution reached is halted, and a halted flow does nothing more in any continuation |
| `EpisodeProgress.OrphanNeverCompletes` | anemone-kernel/src/power.rs:279-326 | once a flow left a registration half way with the list of the published intent locked, no continuation completes |
| `EpisodeProgress.CompletesIffNotOrphaned` | anemone-kernel/src/power.rs:312-354 | with enough own steps outside others' registrations the executor invokes its whole list and the fallback if and only if that has not happened |
| `EpisodeProgress.CanCompleteIffNotOrphaned` | anemone-kernel/src/power.rs:312-354 | from every state with the executor on course some continuation completes if and only if that has not happened |
| `EpisodeProgress.ShutdownCompletes` | anemone-kernel/src/power.rs:312-354 | the if-and-only-if over every run from boot with one flow per CPU |
| `EpisodeProgress.RegistrationPanicDeadlocks` | anemone-kernel/src/power.rs:279-287 | from every boot state a flow that panics inside its registration becomes the executor and no continuation completes |
| `EpisodeCalls.EmergencyLoadDecides` | anemone-kernel/src/power.rs:115-138 | the emergency load goes on to its exchange exactly on an empty word or an orderly episode of its own CPU, panics exactly on a word of no episode, and otherwise halts |
| `EpisodeCalls.EmergencyExchange` | anemone-kernel/src/power.rs:118-152 | a won exchange publishes the emergency of this CPU with the intent that was there, a power-off if there was none; a lost one changes nothing |
| `EpisodeCalls.LostEmergencyRetries` | anemone-kernel/src/power.rs:112-152 | a lost exchange decides afresh on the word that beat it |
| `EpisodeCalls.MachineLoadDecides` | anemone-kernel/src/power.rs:157-164 | the machine-action load goes on to its exchange exactly for an episode of its own CPU that has not entered the machine action |
| `EpisodeCalls.MachineExchange` | anemone-kernel/src/power.rs:165-177 | a won exchange publishes the machine action with the intent that was there; a lost one changes nothing |
| `EpisodeCalls.LostMachineRetries` | anemone-kernel/src/power.rs:154-178 | a lost exchange decides afresh on the word that beat it |
| `EpisodeCalls.HaltsForAReason` | anemone-kernel/src/power.rs:98-249 | in every state a flow's own step halts it if and only if it lost the publication, the emergency or the machine action, or is through with its handlers |
| `EpisodeCalls.LastCpuPanics` | anemone-kernel/src/power.rs:56-73 | publishing from the last CPU number is a panic |
| `SymtabFormat.ContainsBounds` | symtab/src/lib.rs:57-64 | a symbol contains its start and its last address and neither neighbour, and nothing when its end does not fit a word |
| `SymtabFormat.SymbolAtReads` | symtab/src/lib.rs:177-203 | under a right header an entry below the count is read without running past the bytes, succeeds exactly when its name range is right, and reports the first problem otherwise |
| `SymtabTable.ParseHeader` | symtab/src/lib.rs:76-97 | accepts exactly the right headers; an error names the first defect in the order of the checks |
| `SymtabTable.CheckEntry` | symtab/src/lib.rs:98-132 | accepts an entry exactly when it is well-formed and its start is above the one before; an error names the first defect in the order of the checks |
| `SymtabTable.Parse` | symtab/src/lib.rs:76-133 | accepts arbitrary bytes if and only if they are a well-formed table; an error names the first defect, header before entries and entries in order |
| `SymtabTable.EntriesStayReadable` | symtab/src/lib.rs:154-234 | after acceptance every entry below the count reads back, so the later assertions cannot fail |
| `SymtabTable.Log2IsFloor` | symtab/src/lib.rs:154-167 | the bound on the probes is the floor of the binary logarithm |
| `SymtabTable.PartitionPoint` | symtab/src/lib.rs:154-167 | the search loop finds how many symbols start at or below the address with at most floor(log2 n) + 1 probes |
| `SymtabTable.Lookup` | symtab/src/lib.rs:154-175 | finds the symbol with the greatest start not above the address if it contains the address, and nothing otherwise |
| `SymtabTable.LookupIsScan` | symtab/src/lib.rs:154-175 | for disjoint ranges a symbol containing the address is unique and is the one the search looks at, so the search finds nothing exactly when no symbol contains the address |
| `SymtabTable.LookupCompleteIffNoHole` | symtab/src/lib.rs:154-175 | on an accepted table the search misses no containing symbol at any address if and only if no symbol reaches past the end of a later one that is followed by a gap |
| `SymtabTable.MissesNothingIffNoHole` | symtab/src/lib.rs:58-64 | the same for any ascending list of in-range symbols |
| `SymtabTable.SymbolsIter.constructor` | symtab/src/lib.rs:205-220 | a new iterator stands before the first symbol |
| `SymtabTable.SymbolsIter.Next` | symtab/src/lib.rs:221-234 | yields the symbols in order, then nothing for ever |
| `SymtabTable.Collect` | symtab/src/lib.rs:215-234 | running the iterator gives exactly the symbols of the table |
| `SymtabBuilder.Validate` | symtab/src/builder.rs:37-66 | passes exactly ranges, names and order that may be encoded and gives the length of the string area; an error names the first objection in the order of the checks |
| `SymtabBuilder.Fill` | symtab/src/builder.rs:67-98 | the in-place writes leave exactly header, entries and strings in the buffer |
| `SymtabBuilder.Encode` | symtab/src/builder.rs:37-98 | succeeds exactly on ascending, non-empty, in-range, named symbols whose total fits 32 bits; an error names the first objection in the order of the checks; the closing parse cannot fail |
| `SymtabBuilder.SymbolReadsBack` | symtab/src/builder.rs:67-98 | every entry of an encoded table reads back as its symbol |
| `SymtabBuilder.RoundTrip` | symtab/src/builder.rs:37-98 | what the encoder produces is well-formed and yields exactly the input symbols in order |
| `SymtabBuilder.Reencodable` | symtab/src/builder.rs:37-98 | the symbols of any accepted table, overlapping names or not, meet every demand of the encoder but perhaps the size limit |
| `SymtabBuilder.Reencode` | symtab/src/builder.rs:37-98 | parsing, iterating and encoding again gives a table with the same symbols or fails for size only |
| `SymtabBuilder.OverlapIsAccepted` | symtab/src/lib.rs:98-132 | encoder and parser accept a table whose second range lies inside the first |
| `SymtabBuilder.OverlapHidesASymbol` | symtab/src/lib.rs:154-175 | encoding that table, parsing it and looking up an address past the inner range finds nothing, although the first symbol contains it |
| `PerCpuBorrow.CellDecides` | anemone-kernel/src/percpu.rs:36-69 | the borrow cell alone tells whether an access conflicts with the open ones |
| `PerCpuBorrow.Opened` | anemone-kernel/src/percpu.rs:36-69 | opening a non-conflicting access keeps exclusion and changes its own cell by one step and no other |
| `PerCpuBorrow.CompletesIffHarmless` | anemone-kernel/src/percpu.rs:36-69 | a program completes if and only if no place in it is an access that conflicts with those open around it or an interrupt inside an interrupt |
| `PerCpuBorrow.StartsInOrder` | anemone-kernel/src/percpu.rs:117-158 | the closures that start are a prefix of those of the program text in order, and all of them when it completes |
| `PerCpuBorrow.ClosuresAreAccesses` | anemone-kernel/src/percpu.rs:117-158 | variable and kind of the closures, in order, are those of the accesses in the text: each access runs its closure once |
| `PerCpuBorrow.ClosuresAreSites` | anemone-kernel/src/percpu.rs:117-158 | what a closure sees is fixed by its place: its cell is that of the accesses open around it and its own, the counter is that of the entry plus one for itself and for each guard and access around it |
| `PerCpuBorrow.ClosuresAreProtected` | anemone-kernel/src/percpu.rs:117-158 | every closure of every program runs with preemption off and its cell showing exactly one exclusive or at least one shared access |
| `PerCpuBorrow.Cpu.constructor` | anemone-kernel/src/percpu.rs:36-69 | a new CPU has no open access and no live guard |
| `PerCpuBorrow.Cpu.GuardNew` | anemone-kernel/src/percpu.rs:383-406 | a new guard raises the preemption counter by one and gives the core-local cell back |
| `PerCpuBorrow.Cpu.GuardDrop` | anemone-kernel/src/percpu.rs:383-406 | dropping a live guard lowers the counter by one; its checked decrement cannot fail |
| `PerCpuBorrow.Cpu.SetInHwirq` | anemone-kernel/src/percpu.rs:332-347 | sets the interrupt flag and gives the core-local cell back |
| `PerCpuBorrow.Cpu.Take` | anemone-kernel/src/percpu.rs:36-69 | the write that takes a borrow makes the cells those of one more open access |
| `PerCpuBorrow.Cpu.Give` | anemone-kernel/src/percpu.rs:36-69 | the write that gives a borrow back makes them those of one fewer, and none of its failures can occur |
| `PerCpuBorrow.Cpu.RunAccess` | anemone-kernel/src/percpu.rs:117-158 | one access, with interrupts between the read and the write of its cell, completes if and only if neither it nor anything nested in it offends, runs its closures in order, and restores cells, counter and flag on completion |
| `PerCpuBorrow.Cpu.Run` | anemone-kernel/src/percpu.rs:117-158 | every well-nested program completes if and only if no place in it offends; it starts the closures of the text in order, all of them on completion and a prefix otherwise, and everything is restored on completion |
| `PerCpuLayout.AlignUpBounds` | anemone-kernel/src/utils/align.rs:27-34 | rounding up gives the least page multiple not below the size |
| `PerCpuLayout.AlignUpIsMask` | anemone-kernel/src/utils/align.rs:27-34 | for every power of two the masked sum is that multiple |
| `PerCpuLayout.AreasDisjoint` | anemone-kernel/src/percpu.rs:446-508 | areas of different CPUs do not overlap |
| `PerCpuLayout.AreasTile` | anemone-kernel/src/percpu.rs:446-508 | an address is inside the allocation if and only if it is inside some CPU's area |
| `PerCpuLayout.AllocatedPages` | anemone-kernel/src/percpu.rs:446-508 | the pages asked of the allocator are exactly the areas |
| `PerCpuLayout.VariablesNeverOverlap` | anemone-kernel/src/percpu.rs:86-110 | two different pairs of CPU and variable never overlap, for every CPU count, template size and page size (where a variable is and what it holds: `Boot.BspInit`) |
| `PerCpuLayout.Boot.InitArea` | anemone-kernel/src/percpu.rs:446-508 | an area becomes the template with the CPU's own number, and no other byte changes |
| `PerCpuLayout.Boot.InitCpu` | anemone-kernel/src/percpu.rs:446-508 | one turn of the loop keeps the areas before it |
| `PerCpuLayout.Boot.AreaIsInPlace` | anemone-kernel/src/percpu.rs:86-110 | in an initialised area a variable is found at its template offset from the base and holds its template bytes; the first word holds the CPU's own number |
| `PerCpuLayout.Boot.BspInit` | anemone-kernel/src/percpu.rs:446-508 | afterwards every area is page-aligned, holds its personal copy of the template, is recorded as its CPU's base, every variable reads there as in the template, and nothing outside the allocation changed |
| `ShellStart.ErrnoRoundTrip` | anemone-apps/busybox-init/src/main.rs:212-242 | the four bytes of any errno, negative ones included, read back as that errno |
| `ShellStart.WriteKeepsInv` | anemone-apps/busybox-init/src/main.rs:212-223 | a write of any length keeps the bytes in the pipe a prefix of the errno |
| `ShellStart.ReadKeepsInv` | anemone-apps/busybox-init/src/main.rs:225-242 | a read of any length loses, invents and reorders no byte |
| `ShellStart.RunKeepsInv` | anemone-apps/busybox-init/src/main.rs:263-297 | the handshake invariant holds after every interleaving |
| `ShellStart.VerdictIsFixedByBytes` | anemone-apps/busybox-init/src/main.rs:225-242 | the parent's result is fixed by the bytes the child got out: none, all, or a torn report |
| `ShellStart.ReadErrorIsReal` | anemone-apps/busybox-init/src/main.rs:225-242 | the parent reports a read error only if a read failed with that error |
| `ShellStart.ReadErrorEnds` | anemone-apps/busybox-init/src/main.rs:225-242 | a hard read error ends the parent's loop with that error, for good |
| `ShellStart.ShortIffCutOff` | anemone-apps/busybox-init/src/main.rs:212-223 | a report that is over is short if and only if a hard write error, a write of nothing or a kill came while it was being written |
| `ShellStart.CauseIsReported` | anemone-apps/busybox-init/src/main.rs:263-297 | the errno the child sets out to report is that of its first failure, and there is none once it has started the shell |
| `ShellStart.FailureSurfaces` | anemone-apps/busybox-init/src/main.rs:263-297 | in every interleaving a parent that is done has exactly the child's errno if and only if the report was not cut off, and a started shell if there was no failure |
| `ShellStart.StartedMeansExecIff` | anemone-apps/busybox-init/src/main.rs:225-297 | when the parent says "started", the exec succeeded if and only if the child was not killed while preparing and no report of its was cut off |
| `ShellStart.StartedWithoutExec` | anemone-apps/busybox-init/src/main.rs:225-297 | a run in which a killed child counts as a started shell |
| `ShellStart.WriterTerminates` | anemone-apps/busybox-init/src/main.rs:212-223 | four writes that take something complete a report that is not cut off, under any interleaving and any interruptions |
| `ShellStart.ReaderTerminates` | anemone-apps/busybox-init/src/main.rs:225-242 | once the child's end is gone the parent finishes within one read more than the bytes left, under any interleaving and any interruptions |
| `ShellStart.HandshakeCanEnd` | anemone-apps/busybox-init/src/main.rs:212-297 | after every run, with neither a kill nor a failing read, the handshake can still come to an end: no interleaving leaves the two sides waiting for each other |
| `Publication.RamFs.constructor` | anemone-kernel/src/boot.rs:199-244 | a freshly mounted ramfs is empty |
| `Publication.RamFs.Mount` | anemone-kernel/src/boot.rs:224-233 | the mount, and only a successful one, puts the ramfs over the mountpoint |
| `Publication.RamFs.Touch` | anemone-kernel/src/boot.rs:164-174 | creating a file needs a free name and leaves everything else alone |
| `Publication.RamFs.Write` | anemone-kernel/src/boot.rs:246-255 | a write may be short, a failing one may have stored bytes, and both change only the file's bytes at the position |
| `Publication.RamFs.RenameNoReplace` | anemone-kernel/src/boot.rs:190-194 | a rename that refuses to replace moves the name in one visible step |
| `Publication.WriteAll` | anemone-kernel/src/boot.rs:246-255 | writes the whole image under any pattern of short writes, or fails with a prefix of it in the file; a write that takes nothing is an error; it makes no call but writes |
| `Publication.MountRamfs` | anemone-kernel/src/boot.rs:199-244 | on success the ramfs is mounted with its root writable by the owner only, over a directory of the same mode if it had to be made, by exactly these calls in order: make the directory only if it was missing, mount, resolve, set the mode; a mountpoint that is no directory or cannot be inspected is reported as such before any call; every other error names the last call made and its error |
| `Publication.FillTemp` | anemone-kernel/src/boot.rs:161-185 | up to the rename only the temporary name exists; the calls are create, open, writes, set the mode; a failure names the last call made and leaves behind what its operation name tells |
| `Publication.MaterializeEmbeddedAt` | anemone-kernel/src/boot.rs:156-197 | in every state any observer could see, under any failures, the published name is absent or names the whole image with execute permission; it is there exactly on success, after the calls of mounting and filling and one rename; failure happens exactly where a call failed or a write took nothing, and names that call and its path |
| `Dirent.ListRecord` | anemone-apps/nemophila/src/main.rs:150-178 | accepts exactly the well-framed records, reading inside the returned count and advancing by the declared length |
| `Dirent.IdentitiesRecord` | anemone-apps/nemophila-r0-test/src/procfs.rs:69-97 | accepts exactly the same records despite its different first check |
| `Dirent.ListBatch` | anemone-apps/nemophila/src/main.rs:150-178 | prints the visible names of any byte batch in order up to the first bad framing |
| `Dirent.IdentitiesBatch` | anemone-apps/nemophila-r0-test/src/procfs.rs:69-97 | collects the numbers of the visible names, or fails when a framing or a number is bad |
| `Dirent.ParseDecimal` | anemone-kernel/src/fs/proc/nemophila/dir.rs:78-106 | the decimal name of any 64-bit identity parses back to it |
| `Dirent.ParsedIsDecimal` | anemone-apps/nemophila-r0-test/src/procfs.rs:69-97 | a text that parses is the decimal of its number, after at most one plus sign and leading zeros |
| `DirentKernel.Sink.constructor` | anemone-kernel/src/fs/api/getdents64.rs:84-97 | a new sink is empty with the given capacity |
| `DirentKernel.Sink.Push` | anemone-kernel/src/fs/api/getdents64.rs:99-139 | appends a whole aligned record or nothing; a record that does not fit stops the batch, or is an error in an empty one (what a record holds: `RecordFields`) |
| `DirentKernel.RecordIsFramed` | anemone-kernel/src/fs/api/getdents64.rs:63-139 | a record the kernel wrote passes the walkers' checks and gives its own name and length, whatever follows it |
| `DirentKernel.RecordFields` | anemone-kernel/src/fs/api/getdents64.rs:63-139 | at the offsets of `linux_dirent64` a record holds the entry's inode number, the constant offset 39, its type and its name, whatever follows it |
| `DirentKernel.RecordIsPadded` | anemone-kernel/src/fs/api/getdents64.rs:99-139 | a record is padded with zeros to the next multiple of eight |
| `DirentKernel.RecordsAligned` | anemone-kernel/src/fs/api/getdents64.rs:99-139 | every record of a batch starts at a multiple of eight |
| `DirentKernel.WalkRecords` | anemone-kernel/src/fs/api/getdents64.rs:63-139 | walking any list of laid-out records visits every name in order |
| `DirentKernel.DirentsOfRecords` | anemone-kernel/src/fs/api/getdents64.rs:99-139 | the fields of any list of laid-out records are those of the entries, in order |
| `DirentKernel.ReadDir` | anemone-kernel/src/fs/proc/nemophila/dir.rs:78-106 | a batch is the longest run of whole records from the cursor that fits, and the cursor moves past exactly those |
| `DirentKernel.ListingDirents` | anemone-kernel/src/fs/proc/nemophila/dir.rs:78-106 | the directory shows itself and its parent with their inode numbers as directories, then one regular file per identity |
| `DirentKernel.Getdents64` | anemone-kernel/src/fs/api/getdents64.rs:142-187 | the returned bytes hold exactly inode number, offset, type and name of the next entries, as many as fit and no fewer, never more than asked; a next record that cannot fit an empty batch is an invalid argument; a failure before the directory is read moves nothing, and a copy-out that fails afterwards loses the batch |
| `DirentKernel.List` | anemone-apps/nemophila/src/main.rs:150-178 | against the kernel every name but the dots is printed once and in order however the directory splits into batches; it fails exactly when some record fits no buffer |
| `DirentKernel.ReadIdentities` | anemone-apps/nemophila-r0-test/src/procfs.rs:69-97 | against the kernel the result is exactly the snapshot of identities, in order, for any number of them |
| `StackImage.WordReads` | anemone-rs/src/env.rs:60-77 | a word laid out in memory reads back at its address |
| `StackImage.StringReads` | anemone-rs/src/env.rs:91-106 | a terminated string reads back at its address |
| `InitStack.UserStack.constructor` | anemone-kernel/src/mm/uspace/mod.rs:611-636 | a new stack is empty at its top |
| `InitStack.UserStack.Push` | anemone-kernel/src/mm/uspace/mod.rs:611-636 | data goes to the highest aligned address that leaves room for it, unless the stack would outgrow its limit; data past the address space is refused too, through the wrapped subtraction |
| `InitStack.UserStack.PushCString` | anemone-kernel/src/task/api/execve/binfmt/elf/init_stack.rs:160-165 | the text and its terminator lie directly below what was there |
| `InitStack.PushStrings` | anemone-kernel/src/task/api/execve/binfmt/elf/init_stack.rs:208-252 | the strings lie in order directly below what was there and every recorded address reads as its string; it fails exactly when they exceed the limit |
| `InitStack.PushPointers` | anemone-kernel/src/task/api/execve/binfmt/elf/init_stack.rs:222-270 | memory gets the pointers in order with a null after them |
| `InitStack.AuxPush` | anemone-kernel/src/task/api/execve/binfmt/elf/auxv.rs:163-171 | appends the entry, or panics exactly on a second one of a type that must be unique |
| `InitStack.PrepareAuxv` | anemone-kernel/src/task/api/execve/binfmt/elf/init_stack.rs:168-186 | gives the whole list, or panics exactly when an added type is there already (which entries it adds, with which values: `AuxIsRead`) |
| `InitStack.PushAuxv` | anemone-kernel/src/task/api/execve/binfmt/elf/init_stack.rs:189-206 | memory gets the auxiliary entries backwards, so the leading null entry ends the vector; it fails exactly when they exceed the limit |
| `InitStack.PushBlobs` | anemone-kernel/src/task/api/execve/binfmt/elf/init_stack.rs:137-158 | program name, random bytes and platform name lie in this order from the top down and are readable at their recorded addresses |
| `InitStack.PushVectors` | anemone-kernel/src/task/api/execve/binfmt/elf/init_stack.rs:109-113 | count, arguments, environment and auxiliary vector lie in this order without gaps |
| `InitStack.PushPadding` | anemone-kernel/src/task/api/execve/binfmt/elf/init_stack.rs:95-107 | the padding puts the end of the vectors on a multiple of 16 |
| `InitStack.AlignIsMask` | anemone-kernel/src/utils/align.rs:38-45 | the mask the code aligns with rounds down to that multiple |
| `InitStack.BuildStack` | anemone-kernel/src/task/api/execve/binfmt/elf/init_stack.rs:76-131 | the final stack pointer is a multiple of 16 with the vectors directly above it, then fewer than 16 zero bytes, then exactly the argument strings, the environment strings and the texts of the auxiliary vector, all readable at their recorded addresses; it fails exactly when the strings or the whole image exceed the limit and panics exactly when auxiliary entries clash |
| `StartupEnv.Runtime.StartImpl` | anemone-rs/src/env.rs:60-77 | the scan over the environment terminates and the four globals point at the vectors |
| `StartupEnv.Args.Next` | anemone-rs/src/env.rs:91-106 | yields the next argument and then nothing for ever; panics exactly on text that is not UTF-8 |
| `StartupEnv.Envs.Next` | anemone-rs/src/env.rs:116-137 | yields the next variable split at its first equals sign and then nothing for ever |
| `StartupEnv.AuxV.Next` | anemone-rs/src/env.rs:147-161 | yields the next auxiliary entry and then nothing for ever |
| `StartupEnv.SplitJoins` | anemone-rs/src/env.rs:128-134 | key, first equals sign and value make up the text, and the key has no equals sign |
| `StartupEnv.CollectArgs` | anemone-rs/src/env.rs:91-110 | the iterator yields exactly the strings the argument pointers stand for |
| `StartupEnv.CollectEnvs` | anemone-rs/src/env.rs:116-141 | the iterator yields exactly the split environment strings |
| `StartupEnv.CollectAux` | anemone-rs/src/env.rs:147-167 | the iterator yields exactly the auxiliary entries before the null one |
| `StartupEnv.AddedOnce` | anemone-kernel/src/task/api/execve/binfmt/elf/auxv.rs:163-171 | an entry whose type must be unique occurs once in a list that did not panic |
| `StartupEnv.AuxIsRead` | anemone-kernel/src/task/api/execve/binfmt/elf/init_stack.rs:168-186 | the auxiliary vector has one entry each of types 31, 25, 15 and 24, leading to the program name, the random bytes and twice the platform name; the rest are the entries of the image in reverse |
| `StartupEnv.ExecAndRead` | anemone-kernel/src/task/api/execve/binfmt/elf/init_stack.rs:61-117 | a program started on the kernel's stack reads exactly the arguments and environment it was given, one auxiliary entry each of types 31, 25, 15 and 24 leading to its name, its random bytes and its platform name, and the other entries in reverse |
| `Bits.MaskBit` | anemone-abi/src/process.rs:235-238 | masking one bit is non-zero exactly when the bit is set |
| `CpuSets.CountIsCardinality` | anemone-abi/src/process.rs:240-245 | the summed popcounts of the words are the number of members |
| `CpuSets.CpuSet.Empty` | anemone-abi/src/process.rs:218-222 | has no member |
| `CpuSets.CpuSet.Full` | anemone-abi/src/process.rs:224-228 | has exactly the CPUs below 1024 |
| `CpuSets.CpuSet.Set` | anemone-abi/src/process.rs:230-233 | adds exactly one member |
| `CpuSets.CpuSet.Contains` | anemone-abi/src/process.rs:235-238 | is membership |
| `CpuSets.CpuSet.Count` | anemone-abi/src/process.rs:240-245 | is the cardinality |
| `CpuSets.CpuSet.IsEmpty` | anemone-abi/src/process.rs:247-249 | holds exactly for the empty set |
| `CpuSets.SetAll` | anemone-abi/src/process.rs:217-250 | any sequence of calls gives exactly the set of CPUs named |
| `RangeAllocators.TryAlignUpExact` | anemone-kernel/crates/range-allocator/src/lib.rs:93-117 | rounding up fails exactly when no multiple at or above the value fits a word |
| `RangeAllocators.FitsExactly` | anemone-kernel/crates/range-allocator/src/lib.rs:93-117 | a range is found to have room exactly when it contains an aligned block of the length |
| `RangeAllocators.NormalIsCanonical` | anemone-kernel/crates/range-allocator/src/lib.rs:38-42 | the free addresses determine the free ranges |
| `RangeAllocators.RangeAllocator.constructor` | anemone-kernel/crates/range-allocator/src/lib.rs:45-50 | a new allocator has nothing free |
| `RangeAllocators.RangeAllocator.InsertFreeRange` | anemone-kernel/crates/range-allocator/src/lib.rs:119-125 | adds to both indexes and keeps them in step |
| `RangeAllocators.RangeAllocator.RemoveFreeRange` | anemone-kernel/crates/range-allocator/src/lib.rs:127-140 | removes from both indexes and keeps them in step |
| `RangeAllocators.RangeAllocator.Select` | anemone-kernel/crates/range-allocator/src/lib.rs:62-77 | finds a shortest free range with room, or none exists |
| `RangeAllocators.RangeAllocator.AllocateAligned` | anemone-kernel/crates/range-allocator/src/lib.rs:56-91 | hands out an aligned free block of exactly the length whenever one exists anywhere, at the lowest aligned address of a shortest range with room, and removes exactly those addresses from the free ones |
| `RangeAllocators.RangeAllocator.Free` | anemone-kernel/crates/range-allocator/src/lib.rs:142-184 | rejects exactly the ranges that overlap a free one; otherwise adds exactly its addresses and merges neighbours; a rejection leaves the free ranges as they were if and only if none ends where the rejected range starts |
| `RangeAllocators.OverlapsExactly` | anemone-kernel/crates/range-allocator/src/lib.rs:162-180 | a free is rejected exactly when one of its addresses is free already |
| `RangeAllocators.AllocateAndFree` | anemone-kernel/crates/range-allocator/src/lib.rs:56-184 | freeing what was just allocated is never rejected and restores the free ranges exactly |
| `RangeAllocators.RejectionCanLoseARange` | anemone-kernel/crates/range-allocator/src/lib.rs:162-180 | two frees and a rejected third, after which only one of the two freed blocks can be allocated |
| `RangeAllocators.Session` | anemone-kernel/crates/range-allocator/src/lib.rs:56-184 | over any sequence of allocations and frees every block has the length and alignment asked for, the blocks held are disjoint from each other and from the free addresses, all together are exactly what was free at first, and with nothing held the free ranges are those of the start |

## Left out

- The scheduler, the virtual filesystem, sockets, timers and memory management: not modelled.
- Handlers and plan steps that never return, and fairness between flows: completion is stated for a flow that gets its own steps.
- Registrations from inside a plan step or a handler: drivers register while they are probed.
- `PerCpu::with_remote`: it bypasses the borrow bookkeeping by design.
- Overflow of the borrow counter and of the preemption counter: both are unbounded here.
- The second address-range allocator of the same crate, for addresses that only increase: not modelled.
- Strings with an embedded zero byte on the initial stack: they would read back cut short.
