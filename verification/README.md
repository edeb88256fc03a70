# Verified models of the DLPAR, persistent-memory, call-trace and CPU tests

This project models the algorithms inside eight avocado tests and proves what they keep.
Everything is checked by the Dafny verifier: `dafny verify dfyconfig.toml`.

- **Partition runs** (`Partition`, `CpuPlans`, `CpuRuns`, `CpuRunProperties`, `CpuCommands`,
  `CpuFileRuns`, `MemoryPlans`, `MemoryRuns`). The DLPAR tests plan how many processors,
  processing units or memory blocks to add and remove, write processor plans to `config.txt`, and
  issue the plans as console commands. `Partition.Lpar` is the partition; its console accepts or
  refuses each command (an arbitrary function of the command's number), and a test stops at the
  first refusal. `Partition.Followed` says which commands were carried out, so every statement
  about `StateAt` of a command list is a statement about every moment of every run, refused or
  not. Python floats are exact reals.
- **Persistent memory** (`Namespaces`, `XfsDevices`, `LinearTable`). Alignment by least common
  multiple, equal shares of a region, the four namespaces of an xfs run (two regions or one
  region under two names), and the device-mapper table that joins the resulting disks.
- **Call traces** (`CallTraces`). A scan with one cursor shared by two loops, proved equal to
  "cut into blocks, then keep the first clean block of each header".
- **CPU topology and hotplug** (`Sorting`, `DieTopology`, `Shuffling`, `Hotplug`, `SerialHotplug`,
  `CoreHotplug`). Grouping by die and choice of CPU sets; the on/off runs for any number of CPUs,
  any shuffle and any pattern of failing calls.

Results where the code does less than it seems to promise, each with its exact condition:

- `test_mem_mix` rounds every removal up to a whole block. With a capacity that is not whole
  blocks the run can end below where it started; `MemMixAboveStartIff` says exactly when not.
- The shared-mode add run gives units before processors, so units can exceed processors in the
  middle of a pair. `SharedAddUnitsWithinProcsIff` gives the head start that prevents it: 0.75,
  1.25 or 1.5 units for one, two or more pairs (0.75 with steps of two processors).
  `SharedAddUnitsCanExceedProcs` is a partition where it happens.
- The add test appends its whole plan to `config.txt` before its first command, only a mixed run
  that passes removes the file, and the removal reads the first lines it finds. After an add that
  carried out any k of its commands, the removal restores the partition if and only if the entries
  it reads amount to what those k commands added (`RemovalRestoresIff`); with no old lines that is
  exactly when the add ran to its end (`NewFileRestoresIff`). In `RemovalAfterStoppedAdd` the
  partition ends seven processors below its start, in `StaleFileAfterStoppedAdd` one.
- The mixed test also uses whatever first lines the file has, so it can pass the maxima. It stays
  below them if and only if the whole total of the line fits (`DedicatedMixBelowMaxIff`), in shared
  mode if and only if every single pair fits (`SharedMixBelowMaximaIff`); for units within
  processors see `SharedMixUnitsWithinProcsIff`. In `MixAfterStoppedAdd` every random split leaves
  three processors more than the maximum.
- `check_namespace_align` reads the mapping alignment of the region it checks, but sizes are
  computed with that of region 0. `OtherRegionPassesIff` says when the check is sure to pass,
  `OtherRegionCanFail` is a region where it fails.
- A header gets a trace of its own only if some line that is not a continuation separates it from
  every earlier header (`StartsBlockIff`, `HeadsTraceIff`). Lines with a bracketed time stamp all
  count as continuations, so in such a log everything after the first header is one trace
  (`StampedLogGivesOneTrace`, `StampedTracesMerge`).
- `cpu_serial_off_on` takes CPU 0 itself offline exactly when the highest CPU number is even, and leaves
  the highest CPU offline at the end; its comment "offline 0 -> 99" is not what the loop does.
- The comment in the split of pmem regions speaks of sizes less than a page; the code also skips
  a size equal to one alignment. A `test_loop` of n gives n - 1 iterations.

## Model

| member | source | states |
|---|---|---|
| Partition.MirrorReversesStates | dlpar/dlpar_main.py:302-377 | Undoing a command list from its end visits the states of the list backwards |
| Partition.FollowedStep | dlpar/dlpar_main.py:257-265 | One more accepted command extends the executed prefix by exactly that command, a refused one leaves it as it is |
| Partition.StoppedInRound | dlpar/dlpar_main.py:257-320 | A refusal inside a loop ends the whole test: no later command of the list is issued |
| Partition.Lpar.IssueNext | dlpar/dlpar_main.py:257-267 | A console command is carried out or refused, and the run so far stays a prefix of the list |
| CpuPlans.CpuPayloadData | dlpar/dlpar_main.py:140-159 | The planning loop terminates with the longest ramp that fits in the free capacity, without its leading zero |
| CpuPlans.CpuPlanIsLongest | dlpar/dlpar_main.py:140-159 | Entry i of the plan is (i+1)*step, and a ramp of n entries fits, that is step*n*(n+1)/2 is at most the room, iff n is at most the plan's length |
| CpuPlans.RampTotalIsTriangular | dlpar/dlpar_main.py:146-157 | n elements of a ramp add up to the step times the n-th triangular number |
| CpuPlans.RampTotalClosed | dlpar/dlpar_main.py:146-157 | Twice that total is step*n*(n+1) |
| CpuPlans.MixPayloadData | dlpar/dlpar_main.py:161-180 | For every random generator the splitting loop terminates with the split defined by its draws |
| CpuPlans.MixPlansAreCompositions | dlpar/dlpar_main.py:161-180 | The possible mixed plans are exactly the ordered sums of positive parts of the integer total, none for a negative one |
| CpuRuns.PlanShared | dlpar/dlpar_main.py:278-298 | After cutting the longer list and filtering by ratio both lists are full ramps of the shorter length: the filter drops nothing |
| CpuRuns.FilterByRatio | dlpar/dlpar_main.py:292-298 | For any two lists without zero processors the loop keeps exactly the pairs with a ratio in [0.05, 1], in order |
| CpuRuns.FilterKeepsEveryPair | dlpar/dlpar_main.py:292-298 | On planned lists of either step the filter keeps every pair |
| CpuRuns.RatioAlwaysAllowed | dlpar/dlpar_main.py:294-298 | For both step choices no divisor is zero and every pair's ratio is in [0.05, 1] |
| CpuRuns.TestCpuAdd | dlpar/dlpar_main.py:247-320 | The plan lines are appended to the file before any command; the commands follow the plan up to the first refusal |
| CpuRuns.TestCpuRm | dlpar/dlpar_main.py:322-377 | Without the needed lines nothing happens; otherwise the removal list of those lines is followed up to the first refusal |
| CpuRuns.TestMixCpu | dlpar/dlpar_main.py:379-463 | The mixed list is followed up to the first refusal, and the file is removed only if there was none |
| CpuCommands.DedicatedLineIsLongest | dlpar/dlpar_main.py:247-257 | The dedicated line is 1, 2, 3, ... and has n entries iff n*(n+1) is at most twice the free processors |
| CpuCommands.SharedLinesAreLongest | dlpar/dlpar_main.py:278-301 | Both shared lines are equally long, with entries (1 or 2)*(i+1) and 0.75*(i+1), and have n entries iff n entries of both kinds fit |
| CpuCommands.DedicatedAddCommands | dlpar/dlpar_main.py:247-267 | Command i of the dedicated add run adds i+1 processors and exists iff (i+1)*(i+2) is at most twice the free processors |
| CpuCommands.SharedAddCommands | dlpar/dlpar_main.py:278-320 | Pair i adds 0.75*(i+1) units, then (1 or 2)*(i+1) processors, and exists iff both still fit below their maxima |
| CpuCommands.AddCommands | dlpar/dlpar_main.py:247-320 | For any lines the number of commands and the command at each position, in both modes |
| CpuCommands.RemoveCommands | dlpar/dlpar_main.py:322-377 | The same for the removal, which in shared mode walks both lines from their ends, processors first |
| CpuCommands.MixCommands | dlpar/dlpar_main.py:379-461 | In dedicated mode every part of the split is added and removed, in order, then the whole total; in shared mode each pair is added and taken back in four commands |
| CpuCommands.FilterKeeps | dlpar/dlpar_main.py:292-298 | For any two lists the filter keeps, in order, exactly the positions where a twentieth of the processors <= units <= processors (reversed for negative ones) |
| CpuRunProperties.DedicatedAddFillsToMax | dlpar/dlpar_main.py:247-267 | At every command the count is the start plus a triangular number and not above the maximum; one larger addition would pass it |
| CpuRunProperties.DedicatedRemoveReturns | dlpar/dlpar_main.py:322-344 | The removal run stays between start and top and ends at the start |
| CpuRunProperties.DedicatedMixStaysInRange | dlpar/dlpar_main.py:379-413 | On the plan of the partition's present state, for every random split, each addition, the final whole sum included, stays below the maximum, and each pair ends at the start |
| CpuRunProperties.DedicatedMixBelowMaxIff | dlpar/dlpar_main.py:379-413 | On any first line and for every random split, no command passes the maximum iff the line's whole total fits on top of the start |
| CpuRunProperties.SharedRemoveIsMirror | dlpar/dlpar_main.py:351-377 | The shared removal list is the add list inverted and reversed |
| CpuRunProperties.SharedRemoveRetracesAdd | dlpar/dlpar_main.py:302-377 | The removal run passes through the add run's states in reverse and ends at its start |
| CpuRunProperties.SharedAddBelowMaxima | dlpar/dlpar_main.py:278-320 | No state of the add run is above the processor or the unit maximum, or below the start |
| CpuRunProperties.RatioKeptByPairs | dlpar/dlpar_main.py:302-320 | A units-to-processors ratio in [0.05, 1] holds again after every completed pair |
| CpuRunProperties.SharedAddUnitsWithinProcsIff | dlpar/dlpar_main.py:302-320 | Units never exceed processors at any command of the add run iff the processors start far enough ahead |
| CpuRunProperties.SharedAddUnitsCanExceedProcs | dlpar/dlpar_main.py:302-312 | With 2 of 10 processors and 2.0 of 10.0 units the first command leaves 2.75 units for 2 processors |
| CpuRunProperties.SharedMixWithinBounds | dlpar/dlpar_main.py:414-461 | On the plan of the partition's present state, at every command units stay within processors, both within their maxima, and each round of four returns to the start |
| CpuRunProperties.SharedMixBelowMaximaIff | dlpar/dlpar_main.py:414-461 | On any two lines, of any lengths, no command passes a maximum iff the start is below both and every single pair fits on top of it |
| CpuRunProperties.SharedMixUnitsWithinProcsIff | dlpar/dlpar_main.py:414-461 | On any two lines units stay within processors at every command iff they do at the start and for every pair with its processors, both without and with its units |
| CpuRunProperties.RemoveUndoesAdd | dlpar/dlpar_main.py:247-377 | In both modes a completed removal of a plan undoes its addition |
| CpuRunProperties.MixIsNeutral | dlpar/dlpar_main.py:379-461 | A completed mixed run changes nothing, whatever lines it reads |
| CpuRunProperties.StoppedAddLeavesPrefix | dlpar/dlpar_main.py:257-267 | A dedicated add run stopped after k commands has added 1 + ... + k processors and nothing else |
| CpuRunProperties.StoppedSharedAddLeavesPrefix | dlpar/dlpar_main.py:302-320 | A shared add run stopped after k commands has added the units of (k+1)/2 and the processors of k/2 pairs |
| CpuRunProperties.StoppedRemoveLeavesPrefix | dlpar/dlpar_main.py:331-344 | A dedicated removal run stopped after k commands is 1 + ... + k processors below its start |
| CpuRunProperties.StoppedSharedRemoveLeavesPrefix | dlpar/dlpar_main.py:351-377 | A shared removal run stopped after k commands is in the state the add run had k commands before its end |
| CpuRunProperties.StoppedMixLeavesPrefix | dlpar/dlpar_main.py:392-413 | A dedicated mixed run stopped at any command is at its start or exactly one part above it |
| CpuRunProperties.StoppedSharedMixLeavesPrefix | dlpar/dlpar_main.py:414-461 | A shared mixed run stopped at any command is at its start, one pair above it, or ahead by the processors of one pair |
| CpuRunProperties.RunRounds | dlpar/dlpar_main.py:247-463 | Any number of rounds of add, remove and mix from no file, each with its own random draws, all accepted, ends in the starting resources without a file |
| CpuFileRuns.RemovalRestoresIff | dlpar/dlpar_main.py:247-377 | For either mode, any old lines of the file and an add stopped after any k commands, the removal restores the partition iff the entries it reads amount to what the k commands added |
| CpuFileRuns.NewFileRestoresIff | dlpar/dlpar_main.py:247-377 | With no old lines the removal restores the partition iff the add ran to its end |
| CpuFileRuns.AddThenRemove | dlpar/dlpar_main.py:247-377 | The add test, refused at any command or not, and a removal test that passes end in the starting resources exactly under that condition on the file found |
| CpuFileRuns.RemovalAfterStoppedAdd | dlpar/dlpar_main.py:254-344 | With room for ten more, an add refused after two commands and then the removal end seven processors below the start |
| CpuFileRuns.StaleFileAfterStoppedAdd | dlpar/dlpar_main.py:254-344 | The add refused after two commands, repeated and then removed, ends one processor below the start |
| CpuFileRuns.MixAfterStoppedAdd | dlpar/dlpar_main.py:254-413 | The mixed run after that refused add goes three processors above the maximum for every random split |
| CpuFileRuns.PlannedProcsAreWhole | dlpar/dlpar_main.py:247-300 | The processor line of every plan, of either mode, holds whole numbers |
| MemoryPlans.MemPayloadData | dlpar/dlpar_main.py:182-217 | The planning loop terminates with the doubling plan, up to the maximum or up to the rounded share of current memory |
| MemoryPlans.MemPlanFillsExactly | dlpar/dlpar_main.py:202-217 | With under a block free the plan is empty; otherwise a list is the plan iff it doubles from one block, ends with 0 < r <= the next doubling, and sums to the capacity exactly |
| MemoryPlans.MemPlanEntry | dlpar/dlpar_main.py:202-217 | Entry i exists iff the 2^i - 1 blocks before it leave something, and is 2^i blocks or what is left if less |
| MemoryPlans.MemPlanPowers | dlpar/dlpar_main.py:202-217 | Elements are powers of two times the block; the plan has n elements iff the capacity is in the n-th range |
| MemoryPlans.MemPlanAligned | dlpar/dlpar_main.py:202-217 | With a capacity of whole blocks every element is whole blocks, at least one |
| MemoryPlans.TargetIsExact | dlpar/dlpar_main.py:186-198 | The float arithmetic with the factors 0.8 and 0.4 yields a whole number of blocks, the first above the share |
| MemoryRuns.TestMemAdd | dlpar/dlpar_main.py:465-483 | The plan without its last element is added, up to the first refusal |
| MemoryRuns.TestMemRem | dlpar/dlpar_main.py:485-501 | The removal plan without its last element is removed, up to the first refusal |
| MemoryRuns.TestMemMix | dlpar/dlpar_main.py:503-537 | Each addition is followed by its rounded 80% removal, up to the first refusal |
| MemoryRuns.MemAddCommands | dlpar/dlpar_main.py:465-483 | Command i adds 2^i blocks and exists iff the 2^(i+1) - 1 blocks up to it are less than the free capacity |
| MemoryRuns.MemRemoveCommands | dlpar/dlpar_main.py:485-501 | Command i removes 2^i blocks and exists iff the blocks up to it are at most 80% (40% when HTX runs) of the memory |
| MemoryRuns.MemMixCommands | dlpar/dlpar_main.py:503-537 | Pair i adds 2^i blocks or the rest, and removes the one number of whole blocks within one block above 80% of that |
| MemoryRuns.MemAddStaysBelowMax | dlpar/dlpar_main.py:465-483 | Memory grows at every command and ends one plan element below the maximum, at least one block when aligned |
| MemoryRuns.MemRemoveWithinShare | dlpar/dlpar_main.py:186-198 | The whole plan would exceed the 80% (40%) share; without its last element no state of the run does, and at least a block is given back |
| MemoryRuns.PairedRemovalBounds | dlpar/dlpar_main.py:513-517 | A removal is whole blocks and above 80% of its addition, and not above it iff a block boundary lies in between; always for whole blocks |
| MemoryRuns.MemMixBelowMax | dlpar/dlpar_main.py:510-537 | At every command memory is at most the maximum, and what is left behind is below a fifth of the capacity |
| MemoryRuns.MemMixAboveStartWhenAligned | dlpar/dlpar_main.py:510-537 | With a capacity of whole blocks no command leaves memory below the start |
| MemoryRuns.MemMixAboveStartIff | dlpar/dlpar_main.py:510-537 | Every command leaves memory at or above the start iff the capacity is under one or over fifteen blocks, or four times its part beyond whole blocks is less than the whole blocks left for the last element |
| MemoryRuns.MemMixCanEndBelowStart | dlpar/dlpar_main.py:510-537 | With 256 MiB blocks and a capacity of 257 the run ends 255 below the start |
| LinearTable.BuildTable | memory/pmem_dm.py:170-182 | The loop emits one row per device, each starting where the devices before it end, and the total of all sizes |
| LinearTable.TableIsContiguous | memory/pmem_dm.py:170-183 | A table is the one built iff it has a row per device, in order, of its size and name, from offset 0, each starting where the one before ends |
| LinearTable.SectorsArePositions | memory/pmem_dm.py:170-183 | A logical sector resolves iff it is below the total, and then to a position whose sector it is |
| LinearTable.PositionsAreSectors | memory/pmem_dm.py:170-183 | Every position of every device has its own sector below the total, and resolving it gives the position back |
| LinearTable.RowsAreDisjoint | memory/pmem_dm.py:178-180 | No two rows cover the same sector |
| LinearTable.OneToOneIff | memory/pmem_dm.py:173-183 | No two sectors share a place on a disk iff no two devices with sectors have the same name |
| Namespaces.LcmCommonMultiples | memory/ndctl.py:69-71 | The common multiples of two numbers are exactly the multiples of `lcm` |
| Namespaces.LcmIsExact | memory/ndctl.py:69-71 | The division by the gcd is exact and the result is a multiple of both numbers |
| Namespaces.Bezout | memory/ndctl.py:69-71 | The gcd is an integer combination of the two numbers |
| Namespaces.SizeAlignvalMultiples | memory/ndctl.py:96-109 | A size suits the sizing alignment iff it is a multiple of the mapping alignment and of the region's, where there is one |
| Namespaces.AutoSizeIsLargest | memory/ndctl.py:475-477 | An aligned size fits once per slot iff it is at most the automatic size |
| Namespaces.AutoSizeFillsRegion | memory/ndctl.py:553-564 | One namespace per slot fits and less than one alignment per slot is left |
| Namespaces.MultipleNamespacesRegion | memory/ndctl.py:458-489 | The region is cancelled, skipped or filled as planned, up to the first failing creation |
| Namespaces.TestMultipleNamespacesRegion | memory/ndctl.py:491-500 | After filling, the test passes iff every namespace suits the region's own mapping alignment, and it does when the region was sized with it |
| Namespaces.FillPlanIff | memory/ndctl.py:467-489 | Exactly when a region is refused or skipped, and otherwise the size and how many of it |
| Namespaces.FillFitsRegion | memory/ndctl.py:472-489 | Given and automatic sizes are aligned, fit the region, and leave less than one more namespace or alignment per slot |
| Namespaces.NslotNamespace | memory/ndctl.py:551-563 | As many namespaces of the automatic size as slots, up to the first failing creation |
| Namespaces.TestNslotNamespace | memory/ndctl.py:541-564 | Cancelled without a mapping alignment, failed by a failing creation, otherwise decided by the check, which passes when sized with the region's own alignment |
| Namespaces.CheckNamespaceAlign | memory/ndctl.py:73-94 | The check passes iff every namespace has the mapping alignment and a size divisible by it |
| Namespaces.AlignedSizePasses | memory/ndctl.py:73-109 | A size aligned to the lcm of both alignments passes the check and suits the region |
| Namespaces.OtherRegionPassesIff | memory/ndctl.py:81-109 | The check of another region passes for every region size and slot count iff the tool reports its mapping alignment and that divides the one used for sizing |
| Namespaces.OtherRegionCanFail | memory/ndctl.py:81-109 | A 6 MiB namespace sized with 2 MiB fails the check of a region mapped with 16 MiB |
| Namespaces.SplitRegions | memory/pmem_dm.py:148-163 | Each region gets its slots' namespaces, or none when its share is not above one alignment |
| Namespaces.SplitUsesRegion | memory/pmem_dm.py:152-163 | A split fits its region, is aligned, wastes less than one alignment per slot, and is empty iff the region is below two alignments per slot |
| XfsDevices.SetupNvdimm | fs/xfstests.py:90-136 | Two log and two data namespaces of the planned sizes, in one region or two, up to the first failing creation |
| XfsDevices.SharedSizesAreLargest | fs/xfstests.py:39-115 | With the 16 or 2 MiB alignment, an aligned size is at most the data (log) size iff two fit in nine tenths (a tenth) of the region and, for logs, it is at most 2130706432 |
| XfsDevices.SharedSizesFit | fs/xfstests.py:92-115 | In one region all four sizes are aligned and fit, waste less than four alignments unless capped, and logs are non-empty iff the region has twenty alignments |
| XfsDevices.SeparateSizesAreLargest | fs/xfstests.py:49-115 | The same for the halves of two regions |
| XfsDevices.SeparateSizesFit | fs/xfstests.py:103-115 | In two regions both pairs are aligned and fit, wasting less than two alignments up to the cap |
| XfsDevices.CapKeepsAlignment | fs/xfstests.py:112-115 | Capping the log size keeps it a multiple of either platform alignment and within the xfs limit |
| XfsDevices.SharedSetupFits | fs/xfstests.py:116-136 | Whatever exists after setup of a single region fits in it and is aligned, also when a creation failed |
| CallTraces.ExtractCallTraces | memory/stressng_mem.py:49-123 | The shared-cursor scan terminates with the blocks of the recursive segmentation: one trace, the whole run of lines, for every line that is the first of its text to start a clean block, in order |
| CallTraces.CollectTrace | memory/stressng_mem.py:72-109 | The inner loop stops behind the block, reports whether it has an ignored line, and otherwise has collected it whole |
| CallTraces.ReturnedHeads | memory/stressng_mem.py:63-119 | The number, order and exact lines of the traces: the i-th is the slice from the i-th heading line to the next line that does not continue it |
| CallTraces.LooksLikeTraceIff | memory/stressng_mem.py:85-93 | The six tests of a continuation line come down to its first visible character, "0x" anywhere, or an indent with a bracket or plus |
| CallTraces.TracesAreCleanAndDistinct | memory/stressng_mem.py:63-119 | Returned traces are maximal slices in log order without ignored lines, with pairwise distinct headers |
| CallTraces.BlockIsReturnedIff | memory/stressng_mem.py:111-118 | A scanned block is returned iff it is clean and no earlier clean block has its header |
| CallTraces.HeaderInExactlyOneBlock | memory/stressng_mem.py:63-109 | Every header line that is not ignored lies in exactly one scanned block |
| CallTraces.StartsBlockIff | memory/stressng_mem.py:63-109 | A header that is not ignored starts a block of its own iff a line that is not a continuation separates it from every earlier such header |
| CallTraces.HeadsTraceIff | memory/stressng_mem.py:63-119 | A line heads a returned trace iff it starts its own clean block and no earlier line of the same text does |
| CallTraces.ReturnedSeparatelyIff | memory/stressng_mem.py:63-119 | Two headers are returned as two traces iff both start their own clean blocks and their texts differ from each other and from earlier ones |
| CallTraces.StampedLogGivesOneTrace | memory/stressng_mem.py:85-93 | When every line after the first header starts with a bracket at most one trace is returned, and none if one of them is ignored |
| CallTraces.StampedTracesMerge | memory/stressng_mem.py:85-93 | Two stamped headers with different texts come out as one trace |
| Sorting.SortIsStable | cpu/cpu_die_topology.py:457-460 | Sorting keeps the order of elements with equal keys |
| DieTopology.GroupByDie | cpu/cpu_die_topology.py:437-450 | The loop builds the groups in order of first appearance, skipping unreadable and negative dies |
| DieTopology.GroupsAreDies | cpu/cpu_die_topology.py:437-450 | Each non-negative die with a CPU has one group with all its online CPUs, and there are no other groups |
| DieTopology.MembersAreListed | cpu/cpu_die_topology.py:437-450 | The CPUs of a die are those at the list positions with its id, in order |
| DieTopology.SelectTestCpuSets | cpu/cpu_die_topology.py:430-489 | The method returns the selection defined by sorting and slicing |
| DieTopology.SelectionExistsIff | cpu/cpu_die_topology.py:452-467 | Sets are returned iff two different non-negative dies have at least 8 CPUs each |
| DieTopology.SelectionIsLowestOfLargestDies | cpu/cpu_die_topology.py:469-489 | Same-die: the min(16, size) lowest CPUs of a largest die; cross-die: 16 distinct, ascending, the 8 lowest of each of two largest dies; they meet in exactly the first die's 8 lowest |
| DieTopology.TiesGoToDieSeenFirst | cpu/cpu_die_topology.py:437-470 | Of equally large dies the one whose first CPU is listed first comes first |
| DieTopology.DiePackageRelationship | cpu/cpu_die_topology.py:247-273 | The one-pass map reports exactly the CPUs whose package differs from the first of their die |
| DieTopology.ViolationsAreListed | cpu/cpu_die_topology.py:247-273 | The report lists, in order, exactly the checked CPUs whose package differs from that of the first of their die, each with CPU, die, package and expected package |
| DieTopology.NoViolationIff | cpu/cpu_die_topology.py:247-281 | No violation is reported iff any two checked CPUs of a die have the same package |
| DieTopology.CheckIgnoresOrder | cpu/cpu_die_topology.py:250-281 | Whether the check passes does not depend on the order of the CPUs |
| SerialHotplug.CpuSerialOffOn | cpu/cpuhotplug.py:143-169 | The calls made are those of the four passes, once per iteration, in order |
| SerialHotplug.SerialCallAt | cpu/cpuhotplug.py:143-169 | Call j of iteration i: 1..n-1 offline, n..0 online, n, n-2, ... offline, 0..n-1 online |
| SerialHotplug.SerialStages | cpu/cpuhotplug.py:143-169 | In every iteration all CPUs 1..n-1 are offline together, then all CPUs online, then exactly those an odd number below n, then exactly 0..n-1 |
| SerialHotplug.TestSerial | cpu/cpuhotplug.py:117-169 | From any start, after the driver and at least one iteration exactly the CPUs 0..n-1 are online |
| SerialHotplug.SomeCpuStaysOnline | cpu/cpuhotplug.py:143-169 | At every call some CPU is online, for odd and even n, and each iteration ends with exactly 0..n-1 online |
| SerialHotplug.BootCpuGoesOfflineIff | cpu/cpuhotplug.py:143-169 | In a run of any number of iterations CPU 0 is offline at some call iff n is even and there is an iteration |
| CoreHotplug.HotplugTest.Test | cpu/em_cpuhotplug.py:67-94 | The calls are those of the loop - 1 iterations its generators choose, every failed call is counted, and the test passes iff none failed |
| Hotplug.FailuresAreCounted | cpu/em_cpuhotplug.py:114-130 | The count is the number of calls on a missing CPU or not accepted |
| Shuffling.Shuffle | cpu/em_cpuhotplug.py:96-112 | The in-place shuffle gives the order defined by its draws |
| Shuffling.ShufflesArePermutations | cpu/em_cpuhotplug.py:96-112 | The possible outcomes of a shuffle are exactly the permutations |
| CoreHotplug.DrawnTestsAreValid | cpu/em_cpuhotplug.py:67-112 | The tests the generators can choose are exactly those over all cores in some order, with each core's threads in some orders |
| CoreHotplug.ThreadsTileCpus | cpu/em_cpuhotplug.py:105-110 | Each CPU is a thread of exactly one core |
| CoreHotplug.CoreCallsListed | cpu/em_cpuhotplug.py:73-90 | A core's threads but CPU 0 go offline in the first shuffled order, and after all of them online in the second |
| CoreHotplug.WholeCoreGoesOffline | cpu/em_cpuhotplug.py:73-90 | In every iteration, for every core, at some call exactly its threads but CPU 0 are offline |
| CoreHotplug.EveryThreadIsSwitched | cpu/em_cpuhotplug.py:73-90 | Every CPU but CPU 0 is switched off and on exactly once an iteration, CPU 0 never |
| CoreHotplug.TestKeepsToOneCore | cpu/em_cpuhotplug.py:76-90 | When calls succeed only threads of one core are ever offline, CPU 0 never, and all CPUs are online in the end |
| CoreHotplug.BootCpuStaysOnline | cpu/em_cpuhotplug.py:80-90 | CPU 0 stays online at every call even when calls fail |
| CoreHotplug.TestPassesIff | cpu/em_cpuhotplug.py:91-130 | When every call is accepted, no failure is counted iff there is no iteration or no thread but CPU 0 is missing |

## Left out

- Console, ndctl and hotplug commands are steps that succeed or fail; what they do inside, their messages and their logging are not modelled.
- Floating-point rounding: quantities are exact reals.
- `config.txt` holds lists of numbers; writing them as text and evaluating the text is not modelled. Modes other than `dedicated` and `shared`, in which the tests do nothing, are not modelled.
- A block size or ramp step of zero, and a slot count of zero where it divides the region, for which the loops do not end or a division fails, is excluded by preconditions.
- The HTX query is a boolean parameter; random generators are arbitrary functions from positions to numbers.
- The LPAR move, SMT and offline tests of the DLPAR suite: no algorithm.
- CpuRuns.RemoveShared: truncates each processor entry, while dlpar/dlpar_main.py:358 passes it on unchanged; on planned lines the two agree (`CpuFileRuns.PlannedProcsAreWhole`), on an old line of fractions, which the add test never writes first, they would differ.
- CallTraces.ExtractCallTraces: works on the lines after the final newline is dropped and returns each trace as a list of lines; joining them with newlines is not modelled.
- CallTraces.StampedLogGivesOneTrace: white space is the ASCII white space only.
- Namespaces.SplitRegions: after a failing creation it is stated that each region has a first part of its namespaces, not which region failed.
- The overhead of namespace metadata: the sizes of the disks joined by the linear table are inputs.
- The legacy-region and loop-device branches of the xfs setup, and the other ndctl tests: sequences of tool calls without arithmetic.
- The die mask checks, hackbench and the other CPU hotplug tests (toggle, pinned stress, SMT, dlpar).
- CoreHotplug.HotplugTest.Test: the reading of the kernel log after the test is not modelled.
- Stress-ng worker counts and time limits: simple arithmetic.
