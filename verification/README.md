# A verified model of containerd/cgroups

This project models the parts of the cgroups library in which something can go wrong over several steps, and proves
what those parts promise. `dafny verify dfyconfig.toml` checks everything.

* **The device filter** (`Ebpf`, `DeviceRules`, `FilterCompiler`, `FilterMeaning`, `FilterCorrect`). A list of OCI
  device rules is compiled, from the last rule to the first, into an eBPF program. `Ebpf` is the machine: registers that
  hold numbers or the context pointer, 32-bit arithmetic, 64-bit conditional jumps to symbols (RFC 9669, sections 4.1,
  4.3 and 5.1). `FilterCompiler.Program` is the builder with its three fields, patched in place. The main results are
  that the finished program decides every request as the last matching rule does, within as many steps as it has
  instructions and without ever using a clobbered register, and that every call of the builder keeps the invariant
  from which this follows. The machine is little-endian.
* **Controllers** (`KernelTree`, `Controllers`). Enabling or disabling controllers writes the control file of every
  ancestor and reports only the last error. The kernel is a tree under the top-down constraint of the Control Group v2
  document. When enabling, a nil error is shown to be enough; for both, what is written where, what it leaves enabled
  and exactly when the error is nil are stated in terms of the tree before the call.
* **cpuset** (`Cpuset`). Creating a v1 cpuset cgroup populates every directory below the hierarchy's root with
  inherited values; the model is a file system in which any operation may be refused and the files of a new directory
  may come with values.
* **v1 cgroups** (`Hierarchies`, `Deletion`, `Runs`, `CgroupV1`). Adding, moving, deleting and reporting the state of a
  cgroup that lives in several hierarchies, while processes die (during moves) or do anything (during deletion). The
  kernel keeps a ghost log of the directories that were read and the removals that were tried, so that Delete can be
  held to it. `Runs` draws the consequences for any calls in any order.
* **Text and paths** (`Strings`, `Strconv`, `Paths`, `CpuMax`, `Rdma`, `ProcCgroup`, `Slices`). The printers and
  parsers of cpu.max and RDMA limits, the quota that is handed to systemd, the two readers of /proc/PID/cgroup, and
  the expansion of slice names, all on strings.

Classes with fields are used where the source changes fields; each method is proved against a function of the old
state, and the properties are lemmas about that function.

Where the code does less than a reader may expect, that is stated as a result, with the exact condition where there is
one: explicit device numbers of 2^31 or more never match (`RuleBehavesAsIntendedIff`); `-0` is refused and overflowing
negative text is accepted with anything after it (`ParseClampedExact`, `MinusZeroIsRefused`, `OverflowHidesJunk`); the
default `max` quota wraps to a finite number (`QuotaExactIff`, `InfinityIff`, `MaxBecomesFinite`); and State can
report a cgroup as deleted while processes are still inside it, exactly when one of its directories is missing and
another is there, after which Delete refuses for good (`StrandsIff`, `StrandedForGood`). A mountpoint of `/` is never
written (`RootMountpointIsSkipped`). Disabling controllers reaches every ancestor exactly when no cgroup between the
mountpoint and the managed one has any of them and the mountpoint can give them up, but returns nil whenever the
parent of the managed cgroup can (`DisableReachesAllIff`, `DisableNilIff`, `DisableMisleadsIff`).

## Model

| member | source | states |
|---|---|---|
| FilterCorrect.DeviceFilter | cgroup2/devicefilter.go:45-55 | For every rule list: the result is the compiled program or the first error met from the end; an accepted program is well formed, and on every request it returns 1 exactly when the last matching rule allows, else 0 |
| FilterCorrect.FilterDecides | cgroup2/devicefilter.go:45-200 | Semantic preservation: every request is decided within as many steps as there are instructions, never faulting: 1 when the last matching rule allows, 0 when it denies or none matches |
| FilterCorrect.FilterDecidesAsIntended | cgroup2/devicefilter.go:112-119 | When the rules that are looked at use numbers below 2^31 (or name no access), the program decides what the rules say without the 2^31 limit |
| FilterCorrect.AppendKeepsInvariant | cgroup2/devicefilter.go:89-173 | Each appendDevice call keeps the builder invariant: the unfinished program returns the verdict of the rules so far or leaves for the one open block with the request still decoded; labels are unique, jumps go forward, nothing is loaded after the prologue, and the wildcard flag says whether a wildcard was compiled |
| FilterCorrect.AppendKeepsRuns | cgroup2/devicefilter.go:136-171 | The run part of the invariant: with the new block appended and labelled in place, the program returns the verdict of the longer list or leaves for the next open block |
| FilterCorrect.AddBlockLabels | cgroup2/devicefilter.go:136-171 | The label part: each block's label is carried once and by nothing else |
| FilterCorrect.AddBlockJumps | cgroup2/devicefilter.go:137-164 | The jump part: jumps to the block that was open now go forward to its start, and only the new block may jump to the next open label |
| FilterCorrect.BuiltInvariant | cgroup2/devicefilter.go:45-52 | The invariant holds after any number of calls, over every list that is accepted so far |
| FilterCorrect.InitKeepsInvariant | cgroup2/devicefilter.go:63-87 | The prologue establishes the invariant for the empty list |
| FilterCorrect.FilterIsWellFormed | cgroup2/devicefilter.go:136-188 | In every finished program each jump's symbol is carried by exactly one instruction, strictly later than the jump, and no load follows the prologue |
| FilterCorrect.WildcardPrunes | cgroup2/devicefilter.go:94-97 | Rules before a wildcard leave no trace: same instructions, same error |
| FilterCorrect.RefusedIff | cgroup2/devicefilter.go:99-132 | A list is refused exactly when a rule with no wildcard after it has a problem |
| FilterCorrect.RefusedWith | cgroup2/devicefilter.go:48-52 | The error reported is the first problem of the last faulty rule |
| FilterCorrect.FirstProblemIff | cgroup2/devicefilter.go:99-132 | A rule is acceptable exactly when its type is a, b or c, both numbers are given and at most 2^32 - 1, and its letters are r, w, m |
| FilterCorrect.FirstProblemExact | cgroup2/devicefilter.go:99-132 | Which problem is reported: type, then major (nil or too large), then minor (whose message names the major), then the first unknown letter |
| FilterCorrect.WildcardIff | cgroup2/devicefilter.go:165-167 | The builder sees a wildcard exactly in a rule that names type a, negative numbers and all of r, w, m; such a rule matches every request |
| FilterCorrect.BlockDecides | cgroup2/devicefilter.go:136-171 | One block, alone: it returns the rule's decision when the rule matches, otherwise it leaves for the next block with R2 to R5 intact |
| FilterCorrect.SkippableRejects | cgroup2/ebpf.go:89-96 | When canSkipEBPFError holds and the list compiles, the program rejects every request |
| FilterMeaning.PrologueDecodes | cgroup2/devicefilter.go:63-87 | The prologue leaves type, access, major and minor of any request in R2 to R5 |
| FilterMeaning.RequestLayout | cgroup2/devicefilter.go:66-86 | The context that the prologue reads, byte by byte |
| FilterMeaning.MaskAsks | cgroup2/devicefilter.go:120-151 | The masked access is zero exactly when the request asks for nothing that the letters name |
| FilterMeaning.MaskBits | cgroup2/ebpf.go:70-86 | The mask is full exactly for the access strings that isRWM accepts, and each bit stands for its letter |
| FilterMeaning.AccessCheckChecks | cgroup2/devicefilter.go:145-152 | The access check falls through exactly when the access is rwm or intersects the request; R1 is scratch |
| FilterMeaning.NumberCheckChecks | cgroup2/devicefilter.go:153-164 | A number check falls through exactly when the number is negative, or equal and below 2^31 |
| FilterCompiler.Program.Init | cgroup2/devicefilter.go:63-87 | Appends the five prologue instructions |
| FilterCompiler.Program.AppendDevice | cgroup2/devicefilter.go:90-173 | On an error nothing changes; otherwise the new state is the specified one, and earlier instructions are a prefix of the new ones although one instruction is patched in place |
| FilterCompiler.Program.Finalize | cgroup2/devicefilter.go:175-188 | Adds the rejecting block unless a wildcard was compiled |
| FilterCorrect.FinalizedIsFinal | cgroup2/devicefilter.go:91-97 | After finalize a further rule is refused, or ignored when a wildcard was compiled |
| FilterCompiler.ParseAccess | cgroup2/devicefilter.go:120-132 | The loop computes the mask of the letters that occur, or reports the first unknown letter |
| DeviceRules.VerdictIsLastMatch | cgroup2/devicefilter.go:45-52 | The specification of the compiler: the verdict is that of the last match in list order, and there is none without a match |
| DeviceRules.MatchesInNumbers | cgroup2/devicefilter.go:99-164 | When a rule matches, in the kernel's numbers: block is 1 and character 2; bits 0, 1, 2 of the access are mknod, read, write |
| DeviceRules.NarrowListsMeanWhatTheySay | cgroup2/devicefilter.go:118-119 | Without live numbers of 2^31 or more the verdict is the intended one |
| DeviceRules.RuleBehavesAsIntendedIff | cgroup2/devicefilter.go:153-164 | A valid rule behaves as intended at the end of every list exactly when both numbers are below 2^31 or it names no access |
| DeviceRules.WideNumberIsNotAllowed | cgroup2/devicefilter.go:156 | The concrete failure: allowing 2147483648:0 does not allow it |
| DeviceRules.IsRWM | cgroup2/ebpf.go:70-86 | True exactly when r, w and m all occur |
| DeviceRules.CanSkipEbpfError | cgroup2/ebpf.go:89-96 | True exactly when every rule denies with full access |
| Ebpf.RunLabelled | cgroup2/devicefilter.go:169-170 | Labelling an instruction in place changes no run of code that does not jump to the label |
| Controllers.VerifyGroupPathIff | cgroup2/paths.go:49-60 | A group is accepted exactly when it spells a clean absolute path and does not start with /sys/fs/cgroup |
| Controllers.ManagedPath | cgroup2/manager.go:190-204 | The managed path is the mountpoint's components followed by the group's |
| Controllers.Manager.ToggleControllers | cgroup2/manager.go:333-357 | For any mountpoint and path, the files opened, the final tree and the returned error are those of the specified rounds |
| Controllers.Manager.WriteSubtreeControl | cgroup2/manager.go:359-373 | One write of the signed controllers, joined by spaces |
| Controllers.ToggleFunc | cgroup2/manager.go:325-331 | Every controller gets the prefix, in order |
| Controllers.TargetsExact | cgroup2/manager.go:339-345 | Exactly the ancestors from the mountpoint to the parent are written, each once, shortest first, and never the managed path |
| Controllers.FilesWritten | cgroup2/manager.go:339-346 | The files opened are exactly those ancestors' cgroup.subtree_control, in that order |
| Controllers.RootMountpointIsSkipped | cgroup2/manager.go:342-345 | With mountpoint / the root directory is never written |
| Controllers.ContentTokens | cgroup2/manager.go:366-371 | The kernel reads back exactly the requested controllers |
| Controllers.NilMeansEnabled | cgroup2/manager.go:346-356 | A nil error implies that every ancestor has all requested controllers, whichever earlier writes failed |
| Controllers.NilIff | cgroup2/manager.go:346-356 | The error is nil exactly when, from some level on, every directory exists and is writable and that level was offered the controllers before the call |
| Controllers.LastErrorIsParents | cgroup2/manager.go:346-356 | A failed call, enabling or disabling, names the control file of the parent of the managed cgroup |
| Controllers.NothingRefused | cgroup2/manager.go:334-354 | With nothing refused and everything available at the root, every single write succeeds |
| Controllers.OnlyAncestorsChange | cgroup2/manager.go:334-345 | Only proper ancestors change, only by the requested controllers, and nothing is removed |
| Controllers.ToggledKeepsTopDown | cgroup2/manager.go:339-373 | Whatever is written where, enabling or disabling, the hierarchy stays top-down |
| Controllers.DisabledExact | cgroup2/manager.go:334-373 | What disabling leaves enabled everywhere: an ancestor loses the controllers exactly when it can be written and no child has any of them before the call |
| Controllers.DisableNilIff | cgroup2/manager.go:346-356 | Disabling returns nil exactly when the parent of the managed cgroup gives the controllers up |
| Controllers.DisableReachesAllIff | cgroup2/manager.go:334-357 | Disabling clears every ancestor exactly when only the mountpoint has any of the controllers to begin with, and can give them up |
| Controllers.DisableMisleadsIff | cgroup2/manager.go:346-356 | Exactly when the error is nil although an ancestor keeps a controller |
| Controllers.DisableLeavesAncestors | cgroup2/manager.go:366-370 | The ordinary case of that: a chain of two cgroups that both use cpu |
| KernelTree.RoundsExact | cgroup2/manager.go:341-355 | What each directory has enabled after the first n rounds of enabling |
| KernelTree.DisableRoundsExact | cgroup2/manager.go:341-355 | The same for disabling, where each round sees the children as they were before the call |
| KernelTree.AllDisabledIff | cgroup2/manager.go:341-355 | After n rounds no level has any of the names exactly when only the root had them and gives them up |
| Cpuset.CpusetController.CreateCgroup | cgroup1/cpuset.go:46-82 | The file system and error after Create are the specified ones, step by step |
| Cpuset.CpusetController.Ensure | cgroup1/cpuset.go:103-121 | ensureParent terminates on every path and does what is specified |
| Cpuset.CpusetController.Copy | cgroup1/cpuset.go:125-156 | copyIfNeeded does what is specified, including its order of errors |
| Cpuset.CreatePopulates | cgroup1/cpuset.go:46-55 | After success every level strictly below the root exists, keeps its non-empty values and otherwise has the nearest non-empty value above; nothing else changes |
| Cpuset.InheritedIsNearest | cgroup1/cpuset.go:123-156 | The inherited value is that of the nearest directory, up to the root, that is not empty |
| Cpuset.NothingStaysEmpty | cgroup1/cpuset.go:100-121 | If the root's value is set, no value on the way stays empty |
| Cpuset.CreateAgain | cgroup1/cpuset.go:46-55 | A second Create succeeds and changes nothing |
| Cpuset.CreateIff | cgroup1/cpuset.go:46-82 | With or without explicit values, Create succeeds exactly when the target is strictly below the root, the missing directories can be made, each level can be read and its empty values written, and the files with explicit values can be written |
| Cpuset.ExplicitValues | cgroup1/cpuset.go:56-80 | Explicit values are written to the new cgroup only, over the inherited ones, cpus first; when one is refused the error names it and what was written before stays; a call that fails without them fails in the same way with them |
| Cpuset.CreateStops | cgroup1/cpuset.go:46-156 | What a failure leaves: the levels above the one that stopped the call are populated, that level is as the error says, nothing else was touched |
| Cpuset.OutsideIsRefused | cgroup1/cpuset.go:103-121 | For a path not strictly below the root, the root included, Create fails and touches nothing |
| Cpuset.TargetIsJoin | cgroup1/cpuset.go:42-44 | The target is the clean join of root and path |
| Paths.JoinSteps | cgroup1/cpuset.go:42-44 | What joining does step by step: "" and "." stay, ".." goes up and stays at the top, a name goes down |
| Cpuset.IsEmptyIff | cgroup1/cpuset.go:158-160 | A value is empty exactly when it consists of line breaks |
| CgroupV1.Cgroup.Add | cgroup1/cgroup.go:224-248 | The process is put into the wanted hierarchies in order, to the cgroup's own paths, and nobody else moves; the call stops at the first hierarchy that cannot be written, with its error, or when the process has died; an improper id and a set error field change nothing |
| CgroupV1.Cgroup.SubsystemsFilter | cgroup1/cgroup.go:156-172 | All subsystems, or exactly those that are named, in the cgroup's order |
| CgroupV1.NamedConcat | cgroup1/cgroup.go:161-170 | Filtering keeps the order: two lists together are filtered as one after the other |
| CgroupV1.Cgroup.Processes | cgroup1/cgroup.go:395-428 | The walk reads every directory at and below the cgroup's own once, in some order, and returns what it read in that order; it fails exactly when the path is unknown, the directory missing or some directory below refuses. When processes only die meanwhile, everybody listed was inside and everybody still inside is listed |
| CgroupV1.Cgroup.MoveTo | cgroup1/cgroup.go:530-551 | At any outcome nobody outside the source is touched, everybody is where they were or at the destination, and nobody moves in a hierarchy that the destination lacks. Success puts everybody who was in a source subtree and lives at the destination in each of its hierarchies, whatever the destination, and leaves nobody behind when it covers the source and lies outside it. A failure stops in the first hierarchy that cannot be listed or in which the destination declines a process, with that error; the hierarchies before are done |
| CgroupV1.Cgroup.DeleteIn | cgroup1/cgroup.go:259-292 | In one hierarchy: skipped when missing, stopped by an obstacle, busy when a reading came upon a process; otherwise everything was read and found empty and a removal was tried |
| CgroupV1.Cgroup.Delete | cgroup1/cgroup.go:251-299 | At any outcome every attempt at removal follows readings that found each directory in its reach empty of processes, and a hierarchy in which a process was found stays as it is. Up to the first obstacle every subsystem is dealt with: missing, or read completely and then found occupied or tried; without one, the error lists exactly those found occupied and those still there, in order, and nil means that nothing is left. A set error field is returned unchanged |
| Deletion.RemovedWasVacant | cgroup1/cgroup.go:260-270 | Of every directory that Delete removed there was a moment during the call at which no live process was in it |
| Deletion.AttemptsFollowChecks | cgroup1/cgroup.go:260-291 | Before each attempt there was such a moment for every directory that the attempt may remove, and nothing was found in the hierarchy since |
| CgroupV1.Remove | cgroup1/utils.go:70-82 | One to five attempts, each further one because something was left, all five before it gives up; success exactly when nothing is left below the directory |
| CgroupV1.Cgroup.State | cgroup1/cgroup.go:506-526 | Deleted exactly when the error field says so after looking for missing directories |
| CgroupV1.Cgroup.CheckExists | cgroup1/cgroup.go:562-575 | The error field becomes deleted exactly when some directory is missing before any path error |
| Deletion.SomeMissingIff | cgroup1/cgroup.go:562-575 | What that search finds, without recursion |
| Runs.DeletedIsFinal | cgroup1/cgroup.go:224-256 | In every run: once deleted, always deleted; every later Add, MoveTo and Delete fails with that error, State answers Deleted, and nothing changes |
| Runs.SetIffMarked | cgroup1/cgroup.go:297-575 | In every run the error field is set exactly when some Delete returned nil or some State saw a directory missing, and it then says deleted |
| Runs.StrandsIff | cgroup1/cgroup.go:506-575 | State can mark a cgroup that still holds a process exactly when one of its directories is missing, before any path error, and another one exists |
| Runs.StrandedForGood | cgroup1/cgroup.go:251-256 | After such a State every later Delete is refused and removes nothing, in every run |
| Runs.StateCanStrandACgroup | cgroup1/cgroup.go:562-575 | One such world: State reports Deleted, Delete refuses, the process is still inside |
| Strconv.ParseClampedExact | cgroup2/utils.go:107-123 | Exactly which texts parseUint accepts and what it returns for them |
| Strconv.ParseClampedOfFormat | cgroup2/utils.go:107-123 | Every in-range number is read back from its decimal form |
| Strconv.ParseIntExact | cgroup2/cpu.go:70-74 | Which texts a signed parse accepts, and their values |
| Strconv.FormatIntCanonical | cgroup2/cpu.go:39-45 | Integers are printed as their digits, without leading zeros, after a minus sign when negative |
| Strconv.MinusZeroIsRefused | cgroup2/utils.go:107-123 | "-0" is refused for every width |
| Strconv.OverflowHidesJunk | cgroup2/utils.go:113-119 | A minus sign, digits that overflow and any text after them are read as 0 |
| CpuMax.RoundTrip | cgroup2/cpu.go:36-84 | For every optional quota and period, reading the printed cpu.max returns them, or the defaults |
| CpuMax.ExtractExact | cgroup2/cpu.go:56-84 | Exactly which texts are accepted and what they give: one or two words; "max" in any letter case is 2^63 - 1, else an optionally signed decimal within int64; the second word a decimal below 2^64, without it 100000; more words are a format error |
| CpuMax.RefusalExact | cgroup2/cpu.go:64-81 | Why a text of one or two words is refused: the quota is looked at first; a number out of range or a syntax error |
| CpuMax.PrintedText | cgroup2/cpu.go:36-47 | What is printed: the two values with one space between them, max and 100000 for what is absent |
| CpuMax.AcceptedValuesRoundTrip | cgroup2/cpu.go:56-84 | Whatever is accepted survives printing and reading |
| CpuMax.ComputeQuotaPerSec | cgroup2/manager.go:1014-1024 | The computation with its wrap-around, including the panic on a zero period |
| CpuMax.QuotaExact | cgroup2/manager.go:1014-1024 | What every positive quota and period give, wrapped or not: the product's remainder modulo 2^64, divided, rounded up to a multiple of 10000, and wrapped once more |
| CpuMax.QuotaBounds | cgroup2/manager.go:1015-1024 | While the product fits 64 bits: the least multiple of 10000 not below the floored ratio, strictly between x - 1 and x + 10000 |
| CpuMax.QuotaMonotone | cgroup2/manager.go:1020-1023 | Monotone in the quota and antitone in the period |
| CpuMax.QuotaExactIff | cgroup2/manager.go:1020 | For every period the kernel accepts the result is the rounded ratio exactly when the product fits 64 bits |
| CpuMax.InfinityIff | cgroup2/manager.go:1014-1020 | systemd is given infinity exactly for a quota of zero or less, whatever the period; the call panics exactly for a positive quota and a zero period |
| CpuMax.MaxBecomesFinite | cgroup2/manager.go:1014-1024 | For every accepted text with quota "max": the exact finite value, never infinity, and the panic on a zero period |
| Rdma.RoundTripIff | cgroup2/utils.go:378-429 | Printing, joining, splitting and reading a list returns it exactly when every device name is non-empty and free of white space |
| Rdma.FieldsOfEntry | cgroup2/rdma.go:33-35 | A printed entry has exactly the three expected fields, with one space between them |
| Rdma.ParseRdmaKV | cgroup2/utils.go:386-410 | The entry after one field is the specified one, whose meaning FieldExact gives |
| Rdma.FieldExact | cgroup2/utils.go:386-410 | Exactly what one field does: "max" is 4294967295, a decimal below 2^32 its value, a negative decimal 0; malformed fields and unknown keys do nothing |
| Rdma.LineExact | cgroup2/utils.go:412-424 | A device and its two limits, in either order, are read as the numbers they stand for |
| Rdma.UnlimitedLine | cgroup2/utils.go:395-396 | A device of rdma.max without limits has 4294967295 for both |
| Rdma.EntriesConcat | cgroup2/utils.go:412-428 | Lines are read one by one, in order |
| Rdma.OneLine | cgroup2/utils.go:415-426 | A line without exactly three words leaves no trace |
| Strings.FieldsConcat | cgroup2/utils.go:415 | Any white space between two texts separates their words |
| Rdma.ToRdmaEntry | cgroup2/utils.go:412-429 | New entries, one for each line with three fields, in order |
| ProcCgroup.ParseCgroupFromReaderUnified | utils.go:98-124 | The loop returns what the specification reads from the lines |
| ProcCgroup.ParseCgroupFromReader | cgroup2/utils.go:135-147 | The loop returns the first unified path, or the error |
| ProcCgroup.ReadersFind | utils.go:98-124 | On a file of valid entries: each legacy controller has the path of the last entry naming it, one reader takes the last unified entry, the other the first |
| ProcCgroup.ReadersAgree | cgroup2/utils.go:135-147 | With exactly one unified entry both readers return its path, whatever it contains |
| ProcCgroup.AgreeIff | cgroup2/utils.go:135-147 | With several, they agree exactly when the first and the last have the same path |
| ProcCgroup.RefusedIff | utils.go:105-121 | Any text: it is refused exactly when some line is 65536 characters or longer or has fewer than two colons, and the first such line is reported |
| ProcCgroup.LastLineDecides | utils.go:105-118 | Any accepted text: each controller, and the unified hierarchy, has the path of the last line naming it; carriage returns at line ends do not count |
| ProcCgroup.FirstLineDecides | cgroup2/utils.go:135-147 | Any text: the first line that starts with 0:: decides, or the first that is too long; otherwise nothing is found |
| ProcCgroup.RawLinesExact | utils.go:105 | The lines of a text, with or without a final line break |
| Slices.DashesToPath | cgroup2/manager.go:931-946 | The loop builds the specified expansion |
| Slices.DashedExpansion | cgroup2/manager.go:930-946 | One directory per dash-separated part, the i-th the join of the first parts completed with .slice, the last the name itself |
| Slices.FullPathExact | cgroup2/manager.go:926-946 | The full path, component by component: sys, fs, cgroup, the slice's directories (none for an empty slice), the group's directories; those of a dashed slice are the completed joins of its first parts |
| Slices.UnitIsRecovered | cgroup2/utils.go:441-444 | For every slice and every unit name that can be a file name, the unit is recovered from the full path |
| Slices.UnitExact | cgroup2/utils.go:441-444 | The unit of any path is what follows its last slash |
| Paths.CleanIff | cgroup2/paths.go:53 | A rooted string is clean exactly when it spells a sequence of names |

## Left out

- Loading and attaching the eBPF program, its kernel size limits and the constant license string: foreign calls.
- NewManager's removal of the directory after a failure, and the resource values it writes: plumbing around the modelled calls.
- systemd and D-Bus, inotify, eventfd, event channels, freezer polling, sleeps and retries on EINVAL: no visible semantics.
- Statistics readers and resource structures that only copy fields; `ConvertCPUSharesToCgroupV2Value` (floating point).
- Big-endian machines: the context memory is modelled as the kernel lays it out on a little-endian one.
- Locks: each method is one critical section; moving a cgroup to itself, which blocks in the source, is not excluded.
- Forks, and moves by others, during MoveTo: a process that enters the source while it is being moved can be missed.
- Directories that others make or remove while a call runs; in the source, one that vanishes during Delete's walk makes the whole hierarchy count as missing.
- Subsystems with their own Delete (the systemd one) and co-mounted hierarchies behind symbolic links.
- Relative roots of the cpuset controller: the paths are absolute, so `filepath.Rel` never fails.
- cpuset files: a directory's two files are always present, and a missing file reads as empty; the kernel does not rewrite what is stored.
- Why the kernel refuses a write (permissions, processes inside, threaded cgroups): it is a set of refused places.
- DeviceRules.NarrowListsMeanWhatTheySay: one direction for whole lists, because a wide number can be harmless in a list that decides the same without it; the exact condition is given per rule.
- CpuMax.QuotaExactIff: periods above 2^64 / 10000 are excluded, because two quotas can then round to the same value.
- Error texts: errors are kinds; the source's search for the words "no such process" is the kind NoProcess.
- Strings are sequences of characters; invalid UTF-8 and non-ASCII case folding do not occur.
