# Verified models of vLLM's self-contained algorithms

This project models eight pieces of vLLM in Dafny and proves what they are for:

- **Graph partitions** (`GraphPartition`, `GraphLiveness`, `GraphMeaning`, `GraphExamples`). A backward liveness pass
  decides what each compiled partition of a scheduled graph takes in, frees and hands back. Nodes are
  uninterpreted kernels over named storages, with in-place mutation through a one-step map of real
  names; which names have storage is read off the tables, not asked of the pass, and a node may free any
  storage that nobody uses later, whether or not it reads or writes it. For every well-formed
  schedule and every cut, running the partitions one after another, each with its signature's inputs
  only and leaving its signature's outputs only, never misses a name, never frees twice, and ends with
  the values of the flat run, exactly when the pass's two guards do their work in every partition: what
  is freed and not defined has storage, and what the none-layout test lets through or keeps out is let
  through or kept out rightly.
- **Build-time sweep** (`StepFunctions`, `BuildShares`, `NinjaSweep`, `NinjaLog`). A scan over sorted
  start and stop events gives each build step the integral, over its own interval, of one over the
  number of steps running. The integral is defined without the sweep; that it does not depend on order
  or ties, its bounds, and conservation are proved about it, and the loops are proved to compute it.
  The log reader is proved to return the grouping of the last build.
- **Module tree printer** (`IndexRanges`, `ModuleSignature`, `ModuleTree`, `ModulePrinter`,
  `ModuleLayout`, `ModuleReader`). Equal signatures mean equal modules, so collapsing layers loses nothing; printed index
  ranges can be read back and are as few as possible; and so can the whole printed text be read back.
- **Chunked GPU memory** (`CumemChunks`, `CumemDriver`, `CumemAllocator`, `CumemMalloc`; the ROCm
  path). Chunk tables in 64-bit arithmetic, and create, map, unmap and release against a driver whose
  calls may fail at any time, with the global error code and the roll-back.
- **Bad words** (`BadWords`), **flat log probabilities** (`FlatLogprobs`), **stream merging**
  (`CompletionMerge`, `RequestOutputs`) and **chunked data-parallel forwards** (`DataParallel`).

`Options`, `Numbers` and `Sorting` are helpers. `dafny verify dfyconfig.toml` checks everything.

## Findings

- The none-layout test finds out what has no storage on exactly the tables whose aliases are in order
  (`GraphLiveness.LayoutTestExactIff`). Out of order is, for instance, an in-place kernel whose own
  buffer has no layout and is no mutation output: the test takes it for a buffer without storage, the
  partition that reads the new version is not passed the storage, and the run ends there
  (`GraphExamples.LostAliasSchedule`).
- Buffers without storage are kept out of a partition's inputs only when they are accessed. One that a
  partition is told to free and does not define is taken as an input
  (`GraphLiveness.NoneLayoutInputIff`), and a run whose scope holds storages only ends there
  (`GraphExamples.StrayFreeSchedule`). Where the aliases are in order this is the only way in which the
  meaning is lost (`GraphMeaning.MeaningPreservedIffFreesOwn`).
- `create_and_map` cleans up only when the error code is clear on entry: otherwise its first handle is
  created, not mapped and not released, unless that creation fails too
  (`CumemAllocator.CreateAndMap`). `my_malloc` and `my_free` never clear the code, so that after one
  failure every later `my_malloc` fails (`CumemMalloc.ErrorSticks`) and the next wake-up leaks a handle
  (`CumemMalloc.WakeAfterFailedMalloc`).
- The overflow guard on the configured chunk size does not cover the rounding that follows it
  (`CumemChunks.GuardDoesNotCoverRounding`): `my_malloc` divides by zero exactly when that rounding
  wraps, and maps nothing when counting the chunks wraps (`CumemMalloc.MyMalloc`), which a configured
  size that rounds to itself can bring about as well (`CumemChunks.CountCanWrap`).
- Freeing an allocation that sleeps leaves an error code behind although the driver is not at fault:
  there is nothing left to unmap or release (`CumemMalloc.MyFree`). Every later `my_malloc` then fails,
  and the next wake-up leaks a handle (`CumemMalloc.FreeWhileAsleep`). `sleep` itself collects garbage
  and empties the cache once everything is unmapped (vllm/vllm/device_allocator/cumem.py:225-226).
- Failures of the callback in `my_malloc` leave the address range reserved, and a `my_free` whose size
  is not the aligned one leaves it reserved too (`CumemMalloc.MyMalloc`, `CumemMalloc.MyFree`).
- The sweep raises a KeyError exactly when some step ends before it starts, and an IndexError exactly
  when there is no step (`NinjaSweep.SummarizeEntries`).
- Merging streamed outputs is associative only when no index repeats within one output
  (`CompletionMerge.RepeatedIndexBreaksAssociativity`).

## Model

| member | source | states |
|---|---|---|
| GraphPartition.GetGraphPartitionSignature | vllm/vllm/env_override.py:184-322 | The backward loop over partitions, zipped with the cudagraph flags from the back, returns one signature per pair: it carries the flag that is paired with its partition, says of exactly its inputs whether they are deallocated, and depends only on that partition and on the names wanted after it. |
| GraphPartition.PartitionSignature | vllm/vllm/env_override.py:224-320 | One turn of the loop, as the code builds it step by step: the signature of the partition, with its flag, and the names wanted before it. |
| GraphPartition.SignatureAt | vllm/vllm/env_override.py:221-322 | The k-th signature carries the k-th flag and is a function of it, the k-th partition and the unmet names of the partitions after it. |
| GraphLiveness.LayoutTestExactIff | vllm/vllm/env_override.py:201-219 | The none-layout test, with its step through the mutated buffer, holds of exactly the names whose storage the tables do not have, if and only if every alias is in order: its own buffer without layout is a mutation output of a named storage, or it stands for nothing, and any other alias stands for storage. |
| GraphLiveness.InputsRightIffGuards | vllm/vllm/env_override.py:239-266 | Name by name when the inputs of a partition are right: every name freed and not defined there has storage, every access to a name without storage is kept out, and a storage kept out by mistake is defined there or reached by another name. |
| GraphLiveness.InputsRightIff | vllm/vllm/env_override.py:239-266 | Where the aliases are in order, the inputs are right exactly when the partition frees no buffer without storage but its own. |
| GraphLiveness.InputsAreUses | vllm/vllm/env_override.py:231-266 | Where the guards do their work, the input names of a partition are exactly the storages it reads, writes or frees and does not define itself; they are known before it, resolved, and have storage. |
| GraphLiveness.UnmetExact | vllm/vllm/env_override.py:198-231 | Before a partition, the set of unmet names holds a storage exactly when nothing from there on defines it and some later node reads, writes or frees it or the graph returns it; mutation outputs stay exactly when the graph returns them. |
| GraphLiveness.FreedOnce | vllm/vllm/env_override.py:254-277 | What one partition frees is neither an input of a later partition nor freed by one: no use after free, no double free. |
| GraphLiveness.FreedOrHandedBack | vllm/vllm/env_override.py:268-299 | Each input of a partition is deallocated there or handed back, never both, never neither. |
| GraphLiveness.ConstantsAreUses | vllm/vllm/env_override.py:300-320 | The constants of a partition are exactly those that it uses. |
| GraphLiveness.ReturnedIffWantedLater | vllm/vllm/env_override.py:283-320 | A storage that a partition defines is among its outputs exactly when a later partition takes it as input or the graph returns it, under its own name or a mutation's. |
| GraphLiveness.NoneLayoutInputIff | vllm/vllm/env_override.py:201-266 | Exactly when the promise that buffers without storage are no inputs fails: the partition is told to free such a buffer, or accesses it by an alias that the test lets through. |
| GraphExamples.StrayFreeSchedule | vllm/vllm/env_override.py:239-266 | A well-formed schedule, with aliases in order, in which a later partition frees a buffer without storage: it is taken as an input, and the run stops there for every kernel and input. |
| GraphExamples.LostAliasSchedule | vllm/vllm/env_override.py:201-253 | A well-formed schedule in which no partition frees anything: the test takes an alias of a storage for a buffer without storage, the reading partition has no inputs, and the run stops there for every kernel and input. |
| GraphExamples.MutatingSchedule | vllm/vllm/env_override.py:250-293 | The hypotheses on schedules are met by one that mutates its input in place and frees it in a later partition. |
| GraphExamples.ViewSchedule | vllm/vllm/env_override.py:254-266 | They are met by one in which the last user of a view frees the viewed buffer of an earlier partition, which it never mentions: that buffer is an input because it is freed, and the run ends. |
| GraphExamples.OwnBufferSchedule | vllm/vllm/env_override.py:254-263 | They are met by a node that is the last user of its own buffer without storage. |
| GraphLiveness.OwnFreesFitAnyCut | vllm/vllm/env_override.py:254-266 | Where every node frees at most its own buffers without storage, so does every partition of every cut. |
| GraphMeaning.PartitionsPreserveMeaning | vllm/vllm/env_override.py:198-322 | For every kernel, well-formed schedule and cut with right inputs: running the partitions on what their signatures let through succeeds, and every storage that the graph returns has the value of the flat run. |
| GraphMeaning.MeaningPreservedIff | vllm/vllm/env_override.py:198-322 | The same as an equivalence, on allocated inputs and whatever the tables of layouts and aliases: the run ends, and the meaning is preserved, exactly when the guards do their work in every partition. |
| GraphMeaning.MeaningPreservedIffFreesOwn | vllm/vllm/env_override.py:198-322 | Where the aliases are in order: exactly when no partition has to free a buffer without storage that another one defined. |
| GraphMeaning.FinalScopeIsFaithful | vllm/vllm/env_override.py:279-299 | Returned or not, every storage left in scope has the flat run's value, and every input that is never freed is still there, with its updates in place. |
| GraphMeaning.PartitionAgrees | vllm/vllm/env_override.py:221-320 | One partition turns agreement on the storages needed before it into agreement on those needed after it. |
| GraphMeaning.LocalRunAgrees | vllm/vllm/env_override.py:231-299 | Inside one partition no read, free or hand-back misses a name, and what is handed back has the flat run's value. |
| StepFunctions.GridIndependent | vllm/tools/report_build_time_ninja.py:218-254 | The sum over any sorted points from first to last event that include every step of the integrand is the same. |
| StepFunctions.ClippedSum | vllm/tools/report_build_time_ninja.py:239-251 | The difference of two running totals is the integral over the interval in between. |
| BuildShares.IntegralOnAnyGrid | vllm/tools/report_build_time_ninja.py:74-83 | The weighted duration is the same on any layout of the events, whatever the ties and repetitions. |
| BuildShares.OrderDoesNotMatter | vllm/tools/report_build_time_ninja.py:209-256 | Shuffling the entries changes no entry's weighted duration. |
| BuildShares.EqualShares | vllm/tools/report_build_time_ninja.py:239-243 | At each moment every running step is credited with one over the number of steps that run, and no other step with anything. |
| BuildShares.WeightedDurationBounds | vllm/tools/report_build_time_ninja.py:74-89 | A weighted duration lies between zero and the duration of the step. |
| BuildShares.Conservation | vllm/tools/report_build_time_ninja.py:218-256 | The weighted durations add up to the time during which at least one step ran. |
| BuildShares.AtMostBuildLength | vllm/tools/report_build_time_ninja.py:220-262 | Their sum is at most the time from the first to the last event, and equal to it exactly when there is no idle gap. |
| BuildShares.AtMostCpuTime | vllm/tools/report_build_time_ninja.py:216-251 | Their sum is at most the sum of the elapsed times. |
| NinjaSweep.SortEvents | vllm/tools/report_build_time_ninja.py:223-228 | Sorting by time and kind gives a timeline: every start and stop once, starts before stops at the same time. |
| NinjaSweep.CollectEvents | vllm/tools/report_build_time_ninja.py:209-220 | The event list, the total of the elapsed times and, for proper times, the earliest start and latest end. |
| NinjaSweep.OpenAreRunning | vllm/tools/report_build_time_ninja.py:231-243 | Between two events at different times the table of running tasks holds as many tasks as have an interval around that time. |
| NinjaSweep.Elapse | vllm/tools/report_build_time_ninja.py:239-243 | The accumulated time after an event is the integral, up to that event, of one over the number of running tasks. |
| NinjaSweep.StopTask | vllm/tools/report_build_time_ninja.py:247-253 | A stop gives its task exactly the weighted duration and changes no other settled task. |
| NinjaSweep.ProcessEvent | vllm/tools/report_build_time_ninja.py:237-254 | One event keeps the state of the scan: table, accumulated time, settled tasks and their total; it fails only if some task ends before it starts. |
| NinjaSweep.Scan | vllm/tools/report_build_time_ninja.py:229-256 | Over all events no stop misses its start, no task is left running and every task gets its weighted duration, exactly when no task ends before it starts. |
| NinjaSweep.SummarizeEntries | vllm/tools/report_build_time_ninja.py:198-256 | IndexError exactly for no entries, KeyError exactly when some task ends before it starts; otherwise every weighted duration, their total, the length of the build with the idle-gap equivalence, and the total of the elapsed times. |
| NinjaLog.Continues | vllm/tools/report_build_time_ninja.py:124-142 | The two tests on a line fire exactly when the line cannot belong to the build read so far. |
| NinjaLog.StillSameBuild | vllm/tools/report_build_time_ninja.py:124-142 | The same for the look-up in the dictionary of targets. |
| NinjaLog.AddRecord | vllm/tools/report_build_time_ninja.py:132-146 | A line joins the group of its hash, in place, or opens a new one at the end; all other groups stay. |
| NinjaLog.ReadTargets | vllm/tools/report_build_time_ninja.py:104-148 | Fails exactly for another header. Otherwise, said of the lines themselves: one target per hash among the lines read, all well-formed ones or those of the last build, by the first line of each hash; each has the times of that line in seconds and the names of all lines of its hash in order. Builds are cut off from the first line on, each as long as end times do not decrease and equal hashes have equal times. |
| NinjaLog.LastBuildIsUnique | vllm/tools/report_build_time_ninja.py:124-142 | A log has one last build: where it begins is determined by the lines. |
| NinjaLog.FirstSeen | vllm/tools/report_build_time_ninja.py:116-148 | The hashes of the lines, each once. |
| IndexRanges.FormatSorted | vllm/vllm/model_inspection.py:47-57 | The loop over start and end prints the maximal runs of consecutive numbers: a lone number as its digits, a longer run as its first and last number with a dash. |
| IndexRanges.FormatIndexRanges | vllm/vllm/model_inspection.py:44-58 | The printed text is that of the runs of the sorted indices. |
| IndexRanges.JoinSplits | vllm/vllm/model_inspection.py:58-58 | Joining puts the separator between any two neighbouring parts and adds nothing else. |
| IndexRanges.RunsExpand | vllm/vllm/model_inspection.py:47-57 | Expanding the runs gives the numbers back. |
| IndexRanges.FewestRanges | vllm/vllm/model_inspection.py:44-58 | For distinct indices, no list of ranges, in any order and overlapping or not, covers exactly these indices and is shorter than the printed one. |
| IndexRanges.FewestInOrder | vllm/vllm/model_inspection.py:47-57 | For any numbers, repeated ones included, no list of ranges that expands to them in the same order is shorter. |
| IndexRanges.IndexTextReadsBack | vllm/vllm/model_inspection.py:44-58 | Parsing the printed text and expanding it gives the sorted indices back. |
| ModuleSignature.SignatureIsInjective | vllm/vllm/model_inspection.py:36-41 | Equal signatures mean equal modules: same infos, names and nesting. |
| ModuleTree.GroupsAreOk | vllm/vllm/model_inspection.py:103-107 | Groups are never empty, and all members of one carry its signature. |
| ModuleTree.OneGroupPerSignature | vllm/vllm/model_inspection.py:103-110 | Every numbered child is in exactly one group, with all children of its signature and no others. |
| ModuleTree.GroupsInOrder | vllm/vllm/model_inspection.py:109-110 | Groups are printed in the order of the indices of their first members. |
| ModuleTree.GroupsCountAll | vllm/vllm/model_inspection.py:103-107 | Grouping neither loses nor duplicates a numbered child. |
| ModuleTree.CollapseIsLossless | vllm/vllm/model_inspection.py:101-128 | Expanding every group of the printout gives the module back: each info stands at each path as often as in the module. |
| ModuleLayout.Layout | vllm/vllm/model_inspection.py:86-128 | Said of the positions of the children: first the groups, each with all numbered children of one signature under their indices in order, each such child in one group, by the index of the first member; then the named children in the order of the module, each under its own name. |
| ModulePrinter.FormatModuleTree | vllm/vllm/model_inspection.py:61-131 | The recursion with its in-place lists produces exactly the lines of the collapsed tree: two blanks per level, one line for a leaf, otherwise an opening line with name and info, lines further in, and a closing bracket. |
| ModulePrinter.FormatGroup | vllm/vllm/model_inspection.py:111-124 | Stripping and re-prefixing the first line of the representative puts the indices of the group in front and changes nothing else. |
| ModulePrinter.EveryMemberPrintsAlike | vllm/vllm/model_inspection.py:109-124 | Printing any member of a group on its own gives the group's lines with the member's index in front. |
| ModuleReader.ReadRendered | vllm/vllm/model_inspection.py:61-131 | The lines of a block, whatever follows them, are read back as that block, with the indices of each group in order. |
| ModuleReader.HeadReadBack | vllm/vllm/model_inspection.py:116-124 | The name, index or ranges and count in front of an info are read back. |
| ModuleReader.TextIsLossless | vllm/vllm/model_inspection.py:61-131 | Reading the whole text back leaves no line over, and expanding what was read gives each info at each path as often as in the module. |
| ModuleReader.SameTextSameModule | vllm/vllm/model_inspection.py:61-131 | Modules that print alike have the same infos at the same paths, equally often. |
| CumemChunks.MemcreateChunkSize | vllm/csrc/cumem_allocator.cpp:21-42 | A positive whole number of megabytes: the configured one if it fits 64 bits, the default otherwise; the conversion never wraps. |
| CumemChunks.AlignUpExactIffFits | vllm/csrc/cumem_allocator.cpp:317-317 | Rounding up to the granularity is exact precisely when the sum fits 64 bits, and zero otherwise. |
| CumemChunks.TableTilesIffFits | vllm/csrc/cumem_allocator.cpp:345-367 | The chunk table tiles the aligned size precisely when counting the chunks does not wrap: sizes sum to it, are positive multiples of the granularity, and all but the last are full. |
| CumemChunks.AllocationTiles | vllm/csrc/cumem_allocator.cpp:317-367 | Whatever is asked for and configured: a table that gets built tiles its aligned size exactly when counting the chunks does not wrap, and is empty otherwise. |
| CumemChunks.FillChunkSizes | vllm/csrc/cumem_allocator.cpp:352-367 | The loop fills the array with that table. |
| CumemChunks.GuardDoesNotCoverRounding | vllm/csrc/cumem_allocator.cpp:36-344 | A configured size that passes the guard and is rounded to zero. |
| CumemChunks.CountCanWrap | vllm/csrc/cumem_allocator.cpp:36-346 | A configured size that passes the guard and is rounded to itself, with which the table of a two-megabyte allocation is empty. |
| CumemDriver.NoGapNoOverlap | vllm/csrc/cumem_allocator.cpp:158-178 | Every address of the range lies in exactly one mapped chunk. |
| CumemAllocator.CreateHandles | vllm/csrc/cumem_allocator.cpp:148-157 | With a clear error code all handles are created or, with a clean-up that works, none; with an old error exactly the first one is created and left behind, unless the driver fails to create it. The code left is that of the first call that failed, or the old one. |
| CumemAllocator.MapChunks | vllm/csrc/cumem_allocator.cpp:158-178 | All chunks are mapped one after another, or everything is undone; on a free range only a fault of the driver can fail. |
| CumemAllocator.CreateAndMap | vllm/csrc/cumem_allocator.cpp:95-191 | Started with a clear error code: all chunks mapped, or handles and mappings unchanged after a failed creation or mapping, or everything left mapped after a failed access call. Started with an old one: it fails, and leaks its first handle exactly when the driver creates it. After a failure, and with a clean-up that works, the driver is unchanged exactly when the creation or the mapping failed or the table was empty. The code left is that of the first call that failed, not of a failing clean-up. |
| CumemAllocator.UnmapAndRelease | vllm/csrc/cumem_allocator.cpp:193-237 | Goes through the whole table whatever fails; the error left behind is what the first failing call returned, or the old one if none failed. With calls that work, what is there of the table goes, and an error is left exactly when there was one or something of the table was missing; of a table of which nothing is there nothing changes. |
| CumemAllocator.PutToSleep | vllm/csrc/cumem_allocator.cpp:158-231 | Unmapping undoes mapping: handles and mappings are as before create_and_map. Doing it again changes nothing and leaves an error code, unless the table is empty. |
| CumemAllocator.PythonCreateAndMap | vllm/csrc/cumem_allocator.cpp:662-727 | The entry point raises exactly when create_and_map failed, with the code of the first failing call, clears the error code, and has the same exact conditions for what is left behind. |
| CumemAllocator.PythonUnmapAndRelease | vllm/csrc/cumem_allocator.cpp:564-660 | The entry point takes an allocation off the driver, or leaves the driver as it is if the allocation sleeps already; it raises the code of the first failing call, or else the old one, and clears it. With a clean-up that works it raises exactly when there was a code before or a non-empty table was asleep. |
| CumemAllocator.SleepAndWake | vllm/csrc/cumem_allocator.cpp:564-727 | Any number of sleep and wake rounds keeps chunk table, addresses and everything else on the driver; a round fails only by a fault of the driver. |
| CumemMalloc.MapReserved | vllm/csrc/cumem_allocator.cpp:402-423 | The reserved range is mapped, or given back after a failed creation or mapping; if giving it back fails, too, that is the error left behind. |
| CumemMalloc.MyMalloc | vllm/csrc/cumem_allocator.cpp:297-425 | For every request, configuration, and outcome of the host and the callback: every way my_malloc can end and when, what it leaves on the driver, which error it leaves behind, and the exact conditions for the division by zero and for the table. It succeeds whenever nothing fails and nothing wraps, with a range of the aligned size, tiled and mapped unless counting the chunks wraps. |
| CumemMalloc.ErrorSticks | vllm/csrc/cumem_allocator.cpp:311-316 | An error code left behind makes every later my_malloc fail without touching the driver, whatever is asked for. |
| CumemMalloc.WakeAfterFailedMalloc | vllm/csrc/cumem_allocator.cpp:311-727 | A wake-up after a failed my_malloc raises, maps nothing and leaks the first handle of its table unless the driver is at fault. |
| CumemMalloc.MyFree | vllm/csrc/cumem_allocator.cpp:428-536 | Of an allocation that is awake or asleep. With a clean-up that works the chunks go in any case, the range goes exactly when the caller's size is the aligned one, and the error code is clear afterwards exactly when it was before, the size is right, and the allocation was awake or its table empty. The error left behind is that of giving back the range if it fails, and otherwise the first one. |
| CumemMalloc.FreeWhileAsleep | vllm/csrc/cumem_allocator.cpp:428-727 | Sleeping, then freeing with the right size, with a clean-up that never fails: nothing is raised by the sleep and everything is given back, but every later my_malloc fails and the next wake-up raises, maps nothing and leaks its first handle unless the driver is at fault. |
| CumemMalloc.MallocThenFree | vllm/csrc/cumem_allocator.cpp:297-536 | my_malloc, of anything, and then my_free with the aligned size is the identity on the driver. |
| BadWords.NoBadWordsLogitsProcessor.InvalidTokenIds | vllm/vllm/logits_process.py:106-121 | The list holds exactly the ids of bad words that are outside the vocabulary. |
| BadWords.NoBadWordsLogitsProcessor.InitWordBias | vllm/vllm/logits_process.py:89-104 | ValueError exactly for a word outside the vocabulary; otherwise the cached bias bans exactly the one-token words. |
| BadWords.NoBadWordsLogitsProcessor.LastTokenBias | vllm/vllm/logits_process.py:64-83 | The loop bans exactly the last tokens of longer words whose prefix ends the past. |
| BadWords.NoBadWordsLogitsProcessor.Call | vllm/vllm/logits_process.py:56-87 | A token is set to minus infinity exactly when past and token end with a bad word; every other logit is unchanged. |
| BadWords.BansAreBlocks | vllm/vllm/logits_process.py:66-104 | The two kinds of bans together are exactly the tokens that would complete a bad word. |
| BadWords.NoBadWordIsGenerated | vllm/vllm/logits_process.py:48-87 | A sequence contains no bad word as a contiguous block exactly when no token of it was blocked at its step. |
| BadWords.Generate | vllm/vllm/logits_process.py:56-104 | A whole generation with the processor in the loop contains no bad word, whatever the model and the sampler. |
| FlatLogprobs.DictLastWins | vllm/vllm/logprobs.py:113-120 | What is read back for a token id is its last row. |
| FlatLogprobs.SampledTokenAgain | vllm/vllm/logprobs.py:186-188 | A sampled token that is also among the top ones may be inserted twice. |
| FlatLogprobs.FlatLogprobs.Append | vllm/vllm/logprobs.py:63-72 | The view grows by the dictionary, empty for None, and the index columns stay well formed. |
| FlatLogprobs.FlatLogprobs.AppendFast | vllm/vllm/logprobs.py:74-93 | The same from columns, as far as the shortest goes. |
| FlatLogprobs.FlatLogprobs.Extend | vllm/vllm/logprobs.py:95-98 | The view grows by all positions in order. |
| FlatLogprobs.FlatLogprobs.GetItem | vllm/vllm/logprobs.py:110-120 | The position of the view, also for negative indices; IndexError exactly out of range. |
| FlatLogprobs.FlatLogprobs.GetSlice | vllm/vllm/logprobs.py:121-133 | A non-empty slice with positive step commutes with the view; IndexError exactly for an empty one. |
| FlatLogprobs.SliceSelects | vllm/vllm/logprobs.py:121-133 | The positions of a slice go up from its lower bound in steps of its step as long as they are below the upper one; bounds count from the end when negative and are moved to the nearer end when outside. |
| FlatLogprobs.FlatLogprobs.Iterate | vllm/vllm/logprobs.py:146-152 | Iteration yields the view. |
| FlatLogprobs.ViewPicked | vllm/vllm/logprobs.py:122-133 | Cutting rows and shifting ranges picks exactly the selected positions. |
| FlatLogprobs.Run | vllm/vllm/logprobs.py:63-133 | Every run of appends, fast appends, extends and slices shows what the same run on a plain list shows, where the plain list is given the exception that the container raises on an empty slice. |
| FlatLogprobs.AppendToFlat | vllm/vllm/logprobs.py:175-193 | The flat branch appends one position: the sampled token with its own rank, the top ones with ranks 1, 2, ... as many as asked for and there, the last row of a token id counting. |
| FlatLogprobs.AppendToList | vllm/vllm/logprobs.py:184-206 | The list branch appends the same position. |
| CompletionMerge.AddFailsIff | vllm/vllm/outputs.py:151-173 | Adding a whole output fails exactly when one of its completions has log probabilities while the completion of its index, which is the one that is there or else the first one added, has none. |
| CompletionMerge.ReplacingNeverFails | vllm/vllm/outputs.py:168-173 | Without aggregation nothing can fail. |
| CompletionMerge.ReplacingKeepsTheLast | vllm/vllm/outputs.py:151-173 | Without aggregation, for unique indices: the completion of each added index becomes the last one added with it, every other completion stays what and where it was, and no index occurs twice. |
| CompletionMerge.AddingIsMerging | vllm/vllm/outputs.py:151-173 | With log probabilities uniformly present or absent, adding never fails and is merging. |
| CompletionMerge.MergeAssociates | vllm/vllm/outputs.py:145-173 | Merging is associative: it does not matter how a stream is cut. |
| CompletionMerge.RepeatedIndexBreaksAssociativity | vllm/vllm/outputs.py:151-173 | Without unique indices in the middle operand there always are operands for which it is not. |
| CompletionMerge.StreamAddsUp | vllm/vllm/outputs.py:151-173 | Folding any stream gives one completion per index, with the concatenation of its texts, token ids and log probabilities and the closing fields of its last delta. |
| RequestOutputs.CompletionOutput.Absorb | vllm/vllm/outputs.py:154-167 | The in-place merge of one completion, field by field, with what is left when the assertion fails. |
| RequestOutputs.RequestOutput.AddCompletion | vllm/vllm/outputs.py:151-173 | The inner loop with break and else: the first completion of that index is merged in place or replaced by the new object, or the new one is appended; no other completion changes. |
| RequestOutputs.RequestOutput.Add | vllm/vllm/outputs.py:145-173 | The whole method, in place, is the fold of adding one completion; without aggregation the last completion of each index is what remains. |
| RequestOutputs.FailureEnds | vllm/vllm/outputs.py:151-173 | Nothing more is added once the assertion has failed. |
| DataParallel.ChunkedLocalNumTokens | vllm/vllm/forward_context.py:74-87 | The loop gives every shard its part of the chunk, at least one token. |
| DataParallel.ShardsSideBySide | vllm/vllm/forward_context.py:61-70 | Each rank has its shards side by side, each the tokens of the rank divided by the number of shards, rounded up. |
| DataParallel.LockstepConserves | vllm/vllm/forward_context.py:74-87 | Over the chunks that the largest shard needs, each shard processes between one token and the maximum per chunk, and altogether its tokens plus one per idle chunk. |
| DataParallel.SomeRankIsBusy | vllm/vllm/forward_context.py:74-87 | In each of these chunks some shard still has tokens, so that no smaller number of chunks would do. |
| DataParallel.CuTokensArePrefixSums | vllm/vllm/forward_context.py:174-184 | Each running total, with its own ceiling formula, is the one before it and the size of one more shard; the last lies between the total and the total plus one shard's rounding per rank. |
| DataParallel.DPMetadata.EnterChunk | vllm/vllm/forward_context.py:118-155 | Entering the context sets the local sizes of the chunk. |
| DataParallel.DPMetadata.ForwardInChunks | vllm/vllm/forward_context.py:72-155 | A whole chunked forward gives each shard its tokens plus one per idle chunk and leaves no local sizes set. |

## Left out

Graph partitions:
- The order inside the OrderedSets: names are sets, so the order of input and output nodes is not modelled.
- Symbol inputs: `get_graph_partition_symbol_inputs` is not part of this model.
- Reads and writes are sets of names; the kinds of dependencies (WeakDep, StarDep) are not told apart. The comment at vllm/vllm/env_override.py:237-238 sets WeakDep apart, the code after it does not.
- Maps of real names that need more than one step: the code resolves one step, and resolved maps are a hypothesis.
- `memory_plan_reuse_patched`, `should_partition_patched`, `_update_scheduler_patched` and the patching itself.

Build times:
- Floating point: times are exact reals, so the tolerance of the assertion in `WeightedDuration` is not needed and left out.
- Printing, extra step types, and the divisions by the length of the build that only serve printing.
- Splitting lines into fields and parsing integers: a line is malformed or has its fields; a field that is not an integer raises and is not modelled.
- The length of the build for negative start times: -1 stands for "none yet" in the code, which takes times to be non-negative.

Module printer:
- What `_get_module_info` puts into an info string; it is given, without newlines, and starts with a visible character.
- ModuleReader.TextIsLossless: for infos that neither start nor end with an opening parenthesis, non-negative indices and names that are no list of ranges and have no closing parenthesis, as other ones cannot be told apart in the text.
- `int()` on child names: a name is a canonical numeral or not a numeral; child names have no '.', ':' or newline.
- Modules that occur twice in one tree (`named_modules` lists them once): modules are trees.
- IndexRanges.IndexTextReadsBack: for non-negative indices, as a minus sign cannot be told from a dash.

Memory allocator:
- The CUDA path, the GIL and reference counts; `ensure_context` succeeds.
- Addresses are unbounded and loop counters do not overflow.
- The host's `malloc` and the Python callbacks are single outcomes; argument errors of the Python entry points.
- A negative size: it reaches the arithmetic as the unsigned number that it converts to, which is what the model takes.
- That a driver call succeeds is never promised; calls that fail although they are in order are counted as faults of the driver.

Serving data structures:
- `get_bad_words_logits_processors` and the tokenizer; words are non-empty, the logits are one row over a fixed vocabulary.
- Slices of `FlatLogprobs` with a negative step, and the order of keys in the dictionaries.
- Sharing of token and log probability lists between outputs, `routed_experts`, and the fields that `add` does not touch.
- `sp_local_sizes`, `DPMetadata.make` and `set_forward_context`.
- Log probabilities as a `FlatLogprobs` inside a completion: they are a plain list of positions there.
