# PMFuzz in Dafny

PMFuzz fuzzes programs that keep their data in persistent memory (PM). Stage 1 fuzzes without an input image; every
iteration of stage 2 runs the testcases and crash images that earlier runs produced. This project models the four
parts of PMFuzz that hold state, arithmetic or a protocol, and proves what they keep and what they compute, for all
inputs and all runs.

| part | modules |
|---|---|
| PM runtime in C: the access map, the shift-register array, failure injection | `Words`, `ShiftRegister`, `CoverageMap`, `FailurePoints` |
| names of testcases, maps and images, on actual strings | `Text`, `Names`, `Lineage`, `StoreNames`, `Selection`, `CpMap` |
| the stage 2 scheduler, its persistent timers and pid files, and the loop that drives the stages | `Timers`, `Instances`, `Scheduler`, `Stages`, `Driver` |
| the corpus store and the coverage it keeps | `Listing`, `Files`, `Grouping`, `Cmin`, `DedupEngine`, `Minimisation`, `StoreStates`, `StoreEffects`, `StoreLoops`, `StoreRuns`, `Corpus`, `Losses`, `Coverage` |

`dafny verify dfyconfig.toml` checks everything.

## How the model is set up

- C code works on byte arrays (`bv8`), its words are bounded integers with the wrap-around written out
  (`FailurePoints.Increment`, `Words.GetNextPow2` on `bv32`). Map locations are naturals with a bitwise `Xor` whose
  digits are characterised in `Words.XorDigits`.
- Python objects whose methods update them are classes (`PTimer`, `Stage2`, `State`, `Fuzzer`, `Store`), with the
  directories they change as fields. Loops of the source are loops here, each proved against a function of the state
  before it.
- Names are strings, and `in`, `replace` and `split` are defined on characters. Once the grammar is proved on strings
  (`Names`, `Lineage`, `StoreNames`), directories are maps from files to contents, where a file is a well-formed name
  and a kind; `Names.FilesDistinct` says that different files have different names on disk.
- `os.listdir` returns the entries in any order (`Listing.ListDir`), so everything holds for every order.
- Time is read from a clock that never goes back and may advance between any two reads. What the environment decides
  (whether a process died, whether collecting aborts, whether a stage 1 timer expired) is arbitrary.
- An abort or an uncaught exception ends a run; it is the result `ok == false`, after which no operation follows.
- Digests (md5, sha256) are an arbitrary function. Where a result needs the digest to tell different contents apart,
  it says so: `Grouping.TellsApart`, injective on the contents present.
- All maps of one kind have the same size (`Coverage.Sized`): they are copies of one shared-memory area.

## Main results

- **Access map.** From a zeroed map, any run of access hints leaves in every cell the capped number of times its edge
  was taken: as a byte in path mode, as the position of the single set bit in baseline mode (`CoverageMap.RunProgram`).
  All indices stay in bounds, the assertion of `sra_push_back` never fails, and in path mode reads touch only the lower
  half of the map and writes only the upper half, in spite of the exclusive or with the previous location. Which locations
  an access reports, and in what order, is stated by quotient and rest and leaves no choice (`CoverageMap.AddsUnique`).
- **Scheduler.** After every `resume` the live testcases and crash sites fit in their slots, although expired slots are
  not credited back within the loop. A log of starts, terminations and counts tells what was live and what was found
  running at every moment (`Instances.LogTells`): within a `resume` a kind never has more live than twice its slots, less
  the instances its last `get_run_count` found running (`Instances.PassBound`), and no core is idle while a selected
  testcase was never started; with failure injection at most one is while names of both kinds wait
  (`Scheduler.Stage2.Resume`). An iteration that keeps every testcase and in which more than
  `tc_timeout` passes between two turns ends within one turn more than it takes to start them all; one that drops a
  testcase never ends (`Scheduler.Stage2.RunIteration`). Each instance is started once and terminated once, after its
  time ran out (`Instances.OrderlyMeans`), and when an iteration ends no testcase is live.
- **Store.** In every reachable state each testcase of the global store has its image there and so has its parent, so
  the aborts for a missing image cannot happen; archives are never lost; a deleted name never has a testcase, map or
  pm_map again; each iteration runs only testcases of its own generation, and crash sites of no later one
  (`Corpus.Store.Run` and the operations it is made of). What an operation does is stated file by file, apart from the
  functions that compute it (`StoreEffects`).
- **Coverage.** Global minimisation keeps the set of pm_map contents with exactly one testcase for each, hence the union
  of the pm_maps and its count, in whatever order directories are listed (`Minimisation.GlobalCoverage`,
  `Coverage.CoverageKept`). Local minimisation and the deduplication of execution maps do not always:
  `Minimisation.LosesIff` and `DedupEngine.LosesPmIff` say exactly when some order of the listing loses contents, and
  `StoreRuns.EndKeepsIff` what the end of an iteration keeps. Along every run, contents that are gone were at risk at the
  step that lost them (`StoreRuns.RunCoverage`), and `Losses` has a run from an empty store for each way to lose them.
- **Names.** `get_metadata_files` is canonical for every string it accepts, names of different files differ,
  `get_testcase_parent` drops exactly the last id, and lineage, parent and iteration count agree.

## Where the code and its documentation differ

The model follows the code.

- `include/libpmfuzz.c:7-13` describes an access as a left shift of the register. That is right exactly when the
  register has at most one set bit and its last bit is clear (`ShiftRegister.PushIsShift`).
- `include/shiftregarr.h:46` admits elements of up to INT32_MAX bytes, but the scan counts bits in an `int32_t`. The
  whole register is pushed exactly when it has fewer than 2^31 bits (`ShiftRegister.PushedWholeIff`).
- `include/libpmfuzz.c:394-395` prints the unsigned id of a crash image as signed. The name is recognised as a crash
  site exactly for ids below 2^31 (`Lineage.CrashFileIff`).
- `include/libpmfuzz.c:256-257` says the first failure injection always dumps an image. The first hint has id 0, which
  is selected only under one of the two overrides (`FailurePoints.FirstHint`).
- `src/pmfuzz/stages/stage2.py:647-652` shares the cores between testcases and crash sites. With failure injection on
  fewer than two cores the slots exceed the cores (`Instances.SlotsFit`).
- `src/pmfuzz/core/pmfuzz.py:158-160` leaves `fdedup` and `min_tc` at their defaults, and `min_tc` aborts: the step from
  iteration 2.k to 2.(k+1) never succeeds, whatever the configuration (`Driver.AlwaysAbortsIff`). The key that `fdedup`
  reads, `pmfuzz.dedup.global.fdedup`, is in no configuration file either. The model takes both flags as parameters.
- With `src/pmfuzz/configs/base.yml:85` alone (`local.minimize_tc: Yes`) a run does not even get there: `collect_stage1`
  aborts when stage 1 is first observed (`src/pmfuzz/stages/dedup.py:669-670`, `Driver.Fuzzer.Run`). The files in
  `run_configs` turn that off.
- `src/pmfuzz/core/pmfuzz.py:161` removes the directory of an iteration before the next one exists. A run killed in
  between observes stage 1 and starts again at 2.1 (`Driver.InterruptedClear`); uninterrupted runs skip nothing.
- `src/pmfuzz/stages/dedup.py:444-585` removes duplicates from the global store and the results but not from the local
  store, so a later local minimisation may keep a testcase that only the local store still has and lose its coverage
  (`Losses.SecondCanLose`). The first one of an iteration can lose coverage too: crash sites are run in every iteration
  (`src/pmfuzz/stages/dedup.py:1086-1095`), and a testcase collected again with another pm_map is judged by the new one
  (`Losses.FirstCanLose`). `Minimisation.FirstAtRiskIff` says exactly when.
- `src/pmfuzz/stages/dedup.py:918-930` copies no testcase whose name was deleted, so what a crash site that is run again
  collects under a deleted name is gone when the iteration ends (`StoreRuns.EndKeepsIff`, `Losses.EndCanLose`).
- `src/pmfuzz/stages/stage2.py:1014-1029` looks at every local testcase, but only those that `select_ids` keeps are ever
  started. An iteration with a testcase that is dropped never ends (`Scheduler.Stage2.EndIteration`).
- `src/pmfuzz/core/whatsup.py:72-83` is documented to ignore missing maps, but a missing first map followed by one that
  exists fails (`Coverage.CombineMaps`).
- `src/pmfuzz/stages/dedup.py:144,166` comments on ids missing from the lineage but computes the lineage without the ids
  (`Selection.ShouldUse`).
- `src/pmfuzz/stages/stage2.py:430-438` deduplicates the results of a crash site run by their execution maps, which can
  lose the only testcase with some pm_map (`DedupEngine.LosesPmIff`, `Losses.DedupCanLose`).
- For a minimised testcase `get_testcase_parent` returns the testcase itself (`Lineage.ParentOfMin`).

## Model

| member | source | states |
|---|---|---|
| Words.GetNextPow2 | include/libpmfuzz.c:101-111 | on 32-bit words: the least power of two not below the argument for 1 to 2^31, 0 for 0 and above 2^31 by wrap-around; 32 for the runtime's 31 |
| Words.XorDigits | include/libpmfuzz.c:122-122 | the exclusive or on naturals is the bitwise one: digits differ exactly where the result has a 1 |
| Words.XorAbove | include/libpmfuzz.c:136-137 | exclusive or with a smaller word keeps the leading digit, so the upper half of the map is never left |
| ShiftRegister.PushBack | include/shiftregarr.h:46-81 | the part of the register that the int32_t counter reaches becomes its push (topmost marked bit moves up one, or bit 0 is set, or nothing at the last bit), every other byte is unchanged, and no access is out of bounds |
| ShiftRegister.PushedWholeIff | include/shiftregarr.h:46-56 | that part is the whole register, for whatever it holds, if and only if the register has fewer than 2^31 bits |
| ShiftRegister.Int32Is | include/shiftregarr.h:56-56 | the counter of the scan is the number of bits modulo 2^32, as a signed 32-bit integer |
| ShiftRegister.PushBackAt | include/shiftregarr.h:53-80 | the countdown scan finds the topmost marked bit in both polarities and writes only the two bits concerned |
| ShiftRegister.Write | include/shiftregarr.h:19-23 | BITSET and BITCLEAR change one bit of a byte slice and no other |
| ShiftRegister.InBounds | include/shiftregarr.h:50-53 | an element below size/elem_sz lies inside the array |
| ShiftRegister.PushComplement | include/shiftregarr.h:57-79 | the two polarities are bitwise complements of each other |
| ShiftRegister.PushCounts | include/libpmfuzz.c:7-13 | a one-hot register counts pushes and sticks at its last bit |
| ShiftRegister.OneHotBytes | include/shiftregarr.h:19-23 | which byte of a one-hot register is which power of two |
| ShiftRegister.PushIsShift | include/libpmfuzz.c:7-13 | a push is the documented left shift if and only if at most one bit is set and the last is not |
| CoverageMap.HitsCount | include/libpmfuzz.c:122-127 | the recursive histogram is the number of positions of the trace whose edge is the cell |
| CoverageMap.Runtime.constructor | vendor/AFLplusplus-2.63c/include/config.h:349-356 | a zeroed map of a power-of-two size records the empty trace |
| CoverageMap.Runtime.UpdateLoc | include/libpmfuzz.c:118-141 | any location inside the map keeps the map the histogram of the trace, and in path mode leaves the other half alone |
| CoverageMap.Runtime.UpdatePath | include/libpmfuzz.c:119-127 | path mode: the capped byte counter of the edge, in bounds, in its half |
| CoverageMap.Runtime.InitElemSize | include/libpmfuzz.c:129-132 | the element size becomes 32 bytes on first use and stays |
| CoverageMap.Runtime.UpdateBaseline | include/libpmfuzz.c:128-140 | baseline mode: the one-hot counter of the reduced edge; the assertion of sra_push_back holds |
| CoverageMap.Runtime.ReadHint | include/libpmfuzz.c:150-157 | a read adds one entry: in path mode what is left of the random number divided by half the map size, so a location of the lower half, and the upper half is untouched; in baseline mode that location reduced to an element number |
| CoverageMap.Runtime.WriteHint | include/libpmfuzz.c:166-176 | a write adds one entry: in path mode half the map size and what is left of the random number divided by that half less 97, and the lower half is untouched; in baseline mode that location reduced |
| CoverageMap.Runtime.ReadWriteHint | include/libpmfuzz.c:185-198 | a read-write adds two entries, in this order: in path mode a location of the lower half and the one exactly half a map above it; in baseline mode these two reduced |
| CoverageMap.PathBounds | include/libpmfuzz.c:122-123 | an edge is inside the map and in the half of its location |
| CoverageMap.PushRecords | include/libpmfuzz.c:136-139 | one push keeps every element of the array the one-hot count of its edge |
| CoverageMap.RunProgram | include/libpmfuzz.c:118-198 | for every run of accesses from a zeroed map of any size 2^12 to 2^31, in both modes, the entries are those the accesses add in order, and the final map is the capped histogram of the edges between consecutive ones |
| CoverageMap.TraceAdded | include/libpmfuzz.c:150-198 | the entries of a run, stated access by access through quotients and rests |
| CoverageMap.AddsUnique | include/libpmfuzz.c:150-198 | that statement leaves no choice: a run adds no other entries |
| CoverageMap.LeavesIff | include/libpmfuzz.c:151-186 | taking the divisor away as often as it goes is the rest of the division with the quotient given |
| CoverageMap.EdgeDigits | include/libpmfuzz.c:122-123 | an edge is the location before shifted right by one and the new location, digit against digit, so its direction matters |
| CoverageMap.BaselineBytes | include/libpmfuzz.c:127-140 | baseline mode byte by byte: after n hits an element has exactly bit min(n, 256) - 1 set, counted from the lowest bit of its first byte |
| CoverageMap.RecordsUnique | include/libpmfuzz.c:118-141 | a trace determines the whole map |
| FailurePoints.SaveImg | include/libpmfuzz.c:319-347 | which draws select an id: all of them under IMG_CREAT_FINJ, all for the twenty multiples of 5 below 100 under GEN_ALL_CS, otherwise those below 10000/id, and none for id 0 |
| FailurePoints.DrawsCount | include/libpmfuzz.c:319-347 | with neither override the draws that select id i from 1 to 10000 are exactly the 10000/i lowest, and none selects 0 or an id above 10000; under an override all 10000 draws or none |
| FailurePoints.EligibleIds | include/libpmfuzz.c:319-347 | an id can be selected by some draw exactly when it is in the range documented for the setting |
| FailurePoints.FirstHint | include/libpmfuzz.c:256-257 | the first hint is selected only under an override, against the documentation |
| FailurePoints.Injector.Init | include/libpmfuzz.c:462-503 | initialisation is what enables dumps |
| FailurePoints.Injector.CountHint | include/libpmfuzz.c:274-275 | every hint takes the next id of a 32-bit counter, whether or not it can dump |
| FailurePoints.Injector.InjectFailure | include/libpmfuzz.c:271-366 | a hint dumps if and only if initialised, in IMG_GEN, its draw is one of those of its id (counted in DrawsCount), and the map changed since the last dump; then the saved map is the current one, otherwise nothing changes |
| FailurePoints.IdWraps | include/libpmfuzz.c:274-275 | ids are hint numbers modulo 2^32 |
| FailurePoints.IdsIncrease | include/libpmfuzz.c:274-366 | in runs of up to 2^32 hints dumped ids strictly increase and each dump's map differs from the one before |
| FailurePoints.IdsRepeat | include/libpmfuzz.c:274-275 | beyond that ids repeat, so the bound is needed |
| FailurePoints.DefaultIds | include/libpmfuzz.c:319-332 | without overrides every dumped id is in 1..10000 |
| FailurePoints.GenAllDumps | include/libpmfuzz.c:334-341 | with GEN_ALL_CS alone at most 20 dumps occur, at multiples of 5 below 100 |
| Names.ParsePrint | src/pmfuzz/handlers/name_handler.py:36-44 | parsing undoes printing for every well-formed name |
| Names.PrintParse | src/pmfuzz/handlers/name_handler.py:36-44 | every string the grammar accepts is the print of a well-formed name |
| Names.CanonicalFile | src/pmfuzz/handlers/name_handler.py:548-587 | each of the eight files of a name leads back to the one dictionary of that name |
| Names.Canonical | src/pmfuzz/handlers/name_handler.py:548-587 | for every string accepted at all, applying get_metadata_files to any file it names gives the same dictionary |
| Names.PlaceholderAborts | src/pmfuzz/handlers/name_handler.py:566-567 | the placeholder of a deleted testcase is not accepted |
| Names.FilesDistinct | src/pmfuzz/handlers/name_handler.py:571-582 | different testcases share no file and the nine files of a testcase are distinct |
| Names.Recognised | src/pmfuzz/handlers/name_handler.py:324-425 | is_tc, is_min_tc, is_map, is_pm_map, is_img and is_crash_site tell the kind of every generated file |
| Names.RecognisedArchive | src/pmfuzz/handlers/name_handler.py:377-443 | is_cmpr_img and is_cmpr_crash_site too, although their dots are not escaped |
| StoreNames.FromTestcase | src/pmfuzz/stages/dedup.py:883-950 | the prefixes and the extension change of the store lead to the map, pm_map and image of the same testcase |
| StoreNames.HasPmMap | src/pmfuzz/tools/pmfuzz-cmin:149-150 | 'pm_map' in name holds of pm_maps only |
| StoreNames.BackToTestcase | src/pmfuzz/tools/pmfuzz-cmin:172-177 | the two replacements lead from a pm_map to its testcase |
| Text.ContainsIff | src/pmfuzz/handlers/name_handler.py:201-225 | the substring test finds a pattern exactly when it occurs at some place |
| Lineage.GetExtension | src/pmfuzz/handlers/name_handler.py:201-225 | the first extension of the list that occurs in the name |
| Lineage.WhichExt | src/pmfuzz/handlers/name_handler.py:201-225 | which extension that is: it occurs and none before it in the list does; none when there is no such one |
| Lineage.GetTestcaseParent | src/pmfuzz/handlers/name_handler.py:227-282 | the loops rebuild all tokens but the last, with their own delimiters |
| Lineage.ParentOfFile | src/pmfuzz/handlers/name_handler.py:227-282 | on printed names exactly the last id is dropped; delimiters, prefix and extension stay; one id gives the empty string |
| Lineage.ParentOfMin | src/pmfuzz/handlers/name_handler.py:227-282 | for a minimised testcase the result is the testcase itself |
| Lineage.AncestorChain | src/pmfuzz/handlers/name_handler.py:227-282 | from n ids, iterating reaches the empty string in exactly n steps |
| Lineage.GetLineage | src/pmfuzz/handlers/name_handler.py:84-116 | aborts exactly when get_metadata_files does, otherwise the first id of every comma-separated group |
| Lineage.CommaGroups | src/pmfuzz/handlers/name_handler.py:101-114 | splitting a printed name at commas gives its groups |
| Lineage.IterCntIsLineage | src/pmfuzz/handlers/name_handler.py:445-484 | the iteration count of any file of a name is the length of its lineage |
| Lineage.LineagePrefix | src/pmfuzz/handlers/name_handler.py:84-116 | a parent's lineage is a prefix of the child's, shorter by one for a collected testcase and equal for a crash site |
| Lineage.ChildFile | src/pmfuzz/stages/stage2.py:263-266 | the name given to a collected testcase is that of a child: its parent is the run's name, its lineage one longer |
| Lineage.CrashFile | include/libpmfuzz.c:379-396 | the name given to a crash image with a decimal id is well-formed, ends in a dot id and has the lineage of the image it was made from |
| Lineage.CrashFileIff | include/libpmfuzz.c:394-395 | of all 32-bit ids exactly those below 2^31 give a name that is recognised as a crash site |
| Lineage.PrintedValue | include/libpmfuzz.c:394-395 | the id in the name has at least six characters and reads back as the id, or after a minus sign as 2^32 less the id |
| Lineage.PrintedDistinct | include/libpmfuzz.c:394-395 | so different ids have different names |
| Selection.ShouldUseIff | src/pmfuzz/stages/dedup.py:126-171 | a name is kept exactly when no ids are configured or every value of its lineage is one of them |
| Selection.AncestorsUsed | src/pmfuzz/stages/dedup.py:151-171 | what select_ids keeps is closed under ancestors |
| Selection.CrashUsed | src/pmfuzz/stages/dedup.py:126-149 | a crash site is kept exactly when the testcase it came from is |
| Selection.LocalDedupListSt2 | src/pmfuzz/stages/dedup.py:722-747 | deleting the collected indices from the end leaves exactly the names to use, in order |
| Selection.SelectedAreUsed | src/pmfuzz/stages/stage2.py:657-660 | as names without extension these are the ones the scheduler goes over |
| CpMap.WriteTuples | src/pmfuzz/tools/cp-map:56-66 | the loop writes one line for each non-zero byte, in order |
| CpMap.RoundTrip | src/pmfuzz/tools/cp-map:56-66 | for every map the undelimited lines parse back to exactly the non-zero indices with their levels |
| CpMap.TuplesMeaning | src/pmfuzz/tools/cp-map:62-64 | an index is listed exactly when its byte is not zero |
| CpMap.TuplesOrdered | src/pmfuzz/tools/cp-map:61-65 | indices are listed in increasing order, each once |
| CpMap.LevelUnique | src/pmfuzz/tools/cp-map:64-64 | the level is one plus the floor of the binary logarithm |
| CpMap.TwoDigitLevelsClash | src/pmfuzz/tools/cp-map:65-65 | with levels above 9 two different tuples would give the same line |
| Stages.GetStageInf | src/pmfuzz/handlers/name_handler.py:60-82 | the token loop computes the stage information, and aborts on anything else |
| Stages.ScanAborts | src/pmfuzz/handlers/name_handler.py:71-77 | the loop aborts exactly on a token that names neither the stage nor the iteration, or has no number |
| Stages.ScanStage | src/pmfuzz/handlers/name_handler.py:71-73 | the stage is the number of the last token that names it |
| Stages.ScanIter | src/pmfuzz/handlers/name_handler.py:74-75 | the iteration is the number of the last token that does not name the stage |
| Stages.OutdirRoundTrip | src/pmfuzz/handlers/name_handler.py:46-82 | get_stage_inf inverts get_outdir_name |
| Stages.OutdirInverse | src/pmfuzz/handlers/name_handler.py:46-82 | get_outdir_name aborts exactly below 1, and what it returns otherwise reads back as its arguments |
| Stages.YoungestUnique | src/pmfuzz/stages/state.py:43-77 | the lexicographic maximum of a set of directories is unique |
| Stages.State.Sync | src/pmfuzz/stages/state.py:43-77 | the lexicographic maximum (stage, iter) over the entries in any order; aborts exactly when an entry cannot be read |
| Driver.AlwaysAbortsIff | src/pmfuzz/stages/dedup.py:630-660 | the flags with which the step to the next iteration can never succeed; those of run_stage2 are among them |
| Driver.Fuzzer.Turn | src/pmfuzz/core/pmfuzz.py:285-325 | position by position: from (0,0) a turn moves to (1,1) unless some step fails; from (1,1) to (2,1) exactly when the timer has expired, stage 2 is enabled and nothing aborts; from (2,k) to (2,k+1) exactly when the iteration is completed, stage 2 is enabled and nothing aborts; when it aborts, flag by flag |
| Driver.Fuzzer.RunStage2 | src/pmfuzz/core/pmfuzz.py:116-171 | moves on when stage 1 is over or the iteration is completed and deduplication does not abort |
| Driver.Fuzzer.Run | src/pmfuzz/core/pmfuzz.py:257-325 | every uninterrupted run from an empty directory observes (0,0), (1,1), (2,1), (2,2), ... in order, none skipped, each turn moving on exactly when the timer or the completed iteration it finds lets it; never beyond 2.1 where the step between iterations always aborts, never beyond stage 1 with local.minimize_tc |
| Driver.FirstIteration | src/pmfuzz/core/pmfuzz.py:307-315 | stage 2 is first observed right after a turn in stage 1 that found the timer expired, and as 2.1 |
| Driver.InterruptedClear | src/pmfuzz/stages/stage2.py:123-134 | killed between clear and the next iteration, a run falls back to stage 1 |
| Timers.PTimer.constructor | src/pmfuzz/helper/ptimer.py:34-57 | a new timer takes its state from disk, or zeros, and writes it back |
| Timers.PTimer.StartNew | src/pmfuzz/helper/ptimer.py:93-101 | afterwards the file holds the current time and the new length, and other timers are as before |
| Timers.PTimer.Expired | src/pmfuzz/helper/ptimer.py:76-83 | true exactly when more than the length has passed since the start |
| Instances.SlotsFit | src/pmfuzz/stages/stage2.py:643-652 | without failure injection testcases have all the cores and crash sites none; with it both kinds have the same number of slots, 1 on fewer than two cores, and otherwise together all cores or all but one; the slots fit in the cores if and only if failure injection is off or there are two cores |
| Instances.OrderlyMeans | src/pmfuzz/stages/stage2.py:657-721 | two events of one instance are its start and then its termination, so neither happens twice |
| Instances.StopAfterExpiry | src/pmfuzz/stages/stage2.py:667-672 | every termination follows a start of the same instance by more than its time |
| Instances.Later | src/pmfuzz/helper/ptimer.py:76-83 | time passing keeps the scheduler's invariant and only takes instances out of the running ones |
| Instances.LogTells | src/pmfuzz/stages/stage2.py:657-721 | the log of starts and terminations alone tells which instances are live, and which are running at any time |
| Instances.PassBound | src/pmfuzz/stages/stage2.py:621-723 | at every moment of a resume the live instances of a kind are at most twice its slots less those its last count found running, a count logged within the resume; within the slots when the kind was not scheduled |
| Instances.IterationBound | src/pmfuzz/core/pmfuzz.py:141-171 | at no moment of an iteration is more than twice the slots of a kind live |
| Scheduler.Stage2.StartInstance | src/pmfuzz/stages/stage2.py:682-684 | with a free slot, a start keeps the running instances within the slots and is logged once |
| Scheduler.Stage2.StopInstance | src/pmfuzz/stages/stage2.py:203-215 | acts exactly when the pid file exists; removes it and nothing else |
| Scheduler.Stage2.GetRunCount | src/pmfuzz/stages/stage2.py:540-589 | counts running instances while time passes, and logs whom it counted, from when to when; every live one not counted has expired; the pid file it opens is always there |
| Scheduler.Stage2.Schedule | src/pmfuzz/stages/stage2.py:657-686 | one loop ends with the live instances within their slots; at every moment on the way at most as many are live as before and the slots not counted as running, and the other kind is left alone; as many are started as there were slots, or every selected name has been |
| Scheduler.Stage2.ResumeKind | src/pmfuzz/stages/stage2.py:688-721 | the count of the kind is the next event of the log, only instances that were running are in it, and the kind is scheduled within the slots it leaves; the other kind is left alone |
| Scheduler.Stage2.Resume | src/pmfuzz/stages/stage2.py:621-723 | both kinds end within their slots, and together within the cores unless there are fewer than two of them, although expired slots are not credited back; at every moment at most as many are live as before and the slots that the last logged count of the kind left; without failure injection no core is idle while a testcase waits, with it each kind that has names waiting uses its half, so at most one core is idle while both have |
| Scheduler.Stage2.Completed | src/pmfuzz/stages/stage2.py:1003-1031 | true only if every local testcase was started and has expired; false only if some was not done at the start |
| Scheduler.Stage2.KillAll | src/pmfuzz/stages/stage2.py:94-113 | no testcase that was done keeps its pid file; on the way no more testcases are live than before, and crash sites are not touched |
| Scheduler.Stage2.EndIteration | src/pmfuzz/core/pmfuzz.py:148-161 | when completed holds, terminate leaves no live testcase instance; it never holds when the filter drops a testcase, and must hold when every testcase was started and none is running |
| Scheduler.Stage2.RunIteration | src/pmfuzz/core/pmfuzz.py:141-171 | over a whole iteration: both kinds within their slots after each resume, the log is made of one part for each resume, in the order of time, with its counts and the bounds they give, and of what kill_all does; no testcase is live at the end; it ends within a stated number of turns when the filter keeps every testcase and time passes, never when it drops one |
| Files.OneImage | src/pmfuzz/handlers/name_handler.py:650-655 | no name has both a pool and a crash site archive, so the abort for two images cannot happen |
| Files.GlobalAfterOk | src/pmfuzz/stages/dedup.py:900-987 | update_global keeps lineage closure, tombstones, maps with their testcases and the shape of archive names |
| Files.GlobalAfterHas | src/pmfuzz/stages/dedup.py:900-987 | where every file of the updated global store comes from |
| Files.LocalAfterHas | src/pmfuzz/stages/dedup.py:989-1095 | where every file of the updated local store comes from |
| Files.LocalAfterOk | src/pmfuzz/stages/dedup.py:989-1095 | update_local brings only testcases of the iteration's own generation, with images in the global store |
| Files.BuryOk | src/pmfuzz/stages/dedup.py:410-431 | removing testcases under placeholders keeps all that holds of the global store, every archive and every placeholder |
| Files.WithoutStageOk | src/pmfuzz/stages/dedup.py:535-548 | removing collected testcases keeps what holds of a stage's results |
| StoreLoops.LocalTestcases | src/pmfuzz/stages/dedup.py:867-898 | aborts exactly when a testcase has no image |
| StoreLoops.UpdateGlobal | src/pmfuzz/stages/dedup.py:900-987 | file by file: the testcases the global store neither has nor has deleted come with their maps and images, new crash sites come, everything else is unchanged, in any listing order |
| StoreLoops.UpdateLocal | src/pmfuzz/stages/dedup.py:989-1095 | file by file: the testcases of the global store of generation iter that are there neither under their name nor minimised come with image, map and pm_map, new crash sites come, everything else is unchanged; fails exactly when such a testcase lacks its image or its map |
| StoreEffects.GlobalAfterIs | src/pmfuzz/stages/dedup.py:900-987 | update_global file by file |
| StoreEffects.LocalAfterIs | src/pmfuzz/stages/dedup.py:989-1095 | update_local file by file, for every local store |
| StoreEffects.LocalTestcasesAfter | src/pmfuzz/stages/dedup.py:1001-1027 | after update_local a name has a testcase exactly when it had one, or the global store has one of generation iter and no minimised one was there; new ones come with image, map and pm_map as in the global store; the files of all other names are unchanged |
| StoreEffects.GlobalMinimisedIs | src/pmfuzz/stages/dedup.py:410-431 | global minimisation file by file |
| StoreEffects.PrunedIs | src/pmfuzz/stages/dedup.py:535-572 | local minimisation file by file, in the global store and the results |
| StoreEffects.MapsCompared | src/pmfuzz/stages/dedup.py:460-499 | whose pm_maps the minimisations compare: those of the testcases of the global store; the local ones, where a pm_map among the results takes precedence |
| StoreEffects.DedupedIs | src/pmfuzz/core/dedupengine.py:40-88 | deduplication file by file: losers leave a placeholder and nothing else |
| StoreEffects.AddFoundIs | src/pmfuzz/stages/stage2.py:863-917 | collecting file by file: the testcase and each map that was found come under their own names |
| StoreLoops.DedupCrashSites | src/pmfuzz/stages/dedup.py:587-628 | keeps exactly one crash site for each hash; aborts exactly when a hash is missing |
| Grouping.CollectGroups | src/pmfuzz/core/dedupengine.py:70-78 | the dictionary groups the files by digest in listing order |
| Grouping.GroupBefore | src/pmfuzz/core/dedupengine.py:70-78 | of two files of a group the one listed first comes first |
| Cmin.Minimize | src/pmfuzz/tools/pmfuzz-cmin:143-191 | copies exactly the testcases whose pm_map has no equal listed earlier |
| Cmin.GroupTail | src/pmfuzz/tools/pmfuzz-cmin:163-166 | the members of a group but its first are the duplicates |
| Cmin.MinimizeMeans | src/pmfuzz/tools/pmfuzz-cmin:143-191 | for every listing order exactly one testcase is kept for each digest, and all without a pm_map |
| Cmin.SelectionArises | src/pmfuzz/tools/pmfuzz-cmin:143-191 | conversely every such selection is the outcome for some order |
| DedupEngine.MinIndex | src/pmfuzz/core/dedupengine.py:83-84 | the first of the entries with the fewest ancestors |
| DedupEngine.AncestorsOfFile | src/pmfuzz/core/dedupengine.py:83-83 | the number of ancestors compared is one less than the iteration count of the name of any file of the testcase |
| DedupEngine.DeleteTcs | src/pmfuzz/core/dedupengine.py:40-60 | all files of the listed testcases go, a placeholder for each stays, nothing else changes |
| DedupEngine.Run | src/pmfuzz/core/dedupengine.py:62-88 | for some order of the listing: of the files with one digest the first listed of those with the fewest ancestors stays; every other name loses all its files and gets a placeholder, and nothing else changes |
| DedupEngine.OrderLosers | src/pmfuzz/core/dedupengine.py:80-88 | whatever the order, exactly one file stays for each digest and it has the fewest ancestors |
| DedupEngine.LosersArise | src/pmfuzz/core/dedupengine.py:80-88 | conversely every such choice is the outcome for some order |
| DedupEngine.FewestAncestors | src/pmfuzz/core/dedupengine.py:80-88 | the one that stays has the fewest ancestors of its group |
| DedupEngine.LosesNothing | src/pmfuzz/core/dedupengine.py:62-88 | no map contents are lost and no file of a name that stays is removed |
| DedupEngine.LosesPmIff | src/pmfuzz/stages/stage2.py:430-438 | deduplicating by execution maps loses the contents of a pm_map for some order of the listing exactly when each testcase holding them shares its execution map with one that does not and has the fewest ancestors |
| Minimisation.GlobalCoverage | src/pmfuzz/stages/dedup.py:329-442 | global minimisation keeps the set of pm_map contents, one testcase for each, and drops no testcase without a pm_map |
| Minimisation.SafeSurvives | src/pmfuzz/stages/dedup.py:444-585 | contents not at risk survive every local minimisation |
| Minimisation.LosesIff | src/pmfuzz/stages/dedup.py:444-585 | a local minimisation can lose contents exactly when every testcase holding them equals a candidate that does not hold them outside the local store |
| Minimisation.FirstAtRiskIff | src/pmfuzz/stages/dedup.py:444-585 | while the local pm_maps mirror the global store, contents are at risk exactly when every testcase holding them was collected again with a pm_map that another candidate not holding them has |
| Minimisation.FirstIsSafe | src/pmfuzz/stages/dedup.py:444-585 | so nothing is at risk then if no name of the global store was collected again with another pm_map |
| Minimisation.UpdateMirrors | src/pmfuzz/stages/dedup.py:1005-1084 | after update_local on an empty local store the local pm_maps mirror the global store |
| Coverage.GetCumulativeMap | src/pmfuzz/core/whatsup.py:44-70 | the union of the maps of a directory, nothing exactly when there is none |
| Coverage.UnionUnique | src/pmfuzz/core/whatsup.py:44-70 | the union depends only on the set of map contents |
| Coverage.CombineMaps | src/pmfuzz/core/whatsup.py:72-83 | the union of the maps present; fails exactly for no argument, or a missing first map followed by one that exists |
| Coverage.CountTuples | src/pmfuzz/core/whatsup.py:85-97 | the number of non-zero bytes, 0 for a missing map |
| Coverage.CountIsHits | src/pmfuzz/core/whatsup.py:85-97 | counting the union counts the cells hit by any map |
| Coverage.PmCoverage | src/pmfuzz/core/whatsup.py:44-97 | the composition: the union of the pm_maps and the number of cells hit |
| Coverage.CoverageKept | src/pmfuzz/stages/dedup.py:329-442 | union and count are the same after global minimisation as before |
| StoreStates.NamesApart | src/pmfuzz/stages/stage2.py:657-700 | a testcase and a crash site of one iteration never have the same name, so their timers and pid files never meet |
| StoreStates.CollectOk | src/pmfuzz/stages/stage2.py:863-917 | a collected testcase whose parent's image is in the global store keeps what holds of a stage |
| StoreStates.ChildOf | src/pmfuzz/stages/stage2.py:263-266 | the name of a collected testcase: its parent is the run, its generation one more |
| StoreStates.CrashBy | src/pmfuzz/stages/stage2.py:746-789 | the name of a crash site: its generation is that of the run |
| StoreStates.CollectedNames | src/pmfuzz/stages/stage2.py:263-266 | both names as strings |
| StoreStates.FirstNames | src/pmfuzz/stages/stage1.py:304-318 | the names of stage 1 as strings |
| StoreStates.GetParentImgIff | src/pmfuzz/handlers/name_handler.py:634-660 | the image is found exactly when the name has one of the two archives and not both, and is that archive |
| StoreStates.RunOnce | src/pmfuzz/stages/dedup.py:1020-1028 | no testcase is run in two iterations |
| StoreRuns.StepCoverage | src/pmfuzz/stages/dedup.py:444-585 | one operation loses pm_map contents from the global store and the results only where they are at risk: a local minimisation or a deduplication of execution maps that can lose them, a name collected again with another pm_map, or results not yet in the global store when an iteration ends |
| StoreRuns.RunCoverage | src/pmfuzz/core/pmfuzz.py:285-325 | along every run, contents that are gone at the end were lost by a step at which they were at risk |
| StoreRuns.EndKeepsIff | src/pmfuzz/core/pmfuzz.py:152-161 | the end of an iteration keeps exactly the pm_map contents of the global store, of stage 1, and of results whose names the global store neither has nor has deleted |
| StoreRuns.TransitionOk | src/pmfuzz/stages/dedup.py:329-1095 | each operation that does not abort keeps what holds of a reachable store, its archives and its placeholders |
| StoreRuns.StepSeen | src/pmfuzz/stages/stage2.py:863-917 | pm_map contents come into a store only with collected testcases |
| Losses.FirstCanLose | src/pmfuzz/stages/dedup.py:1086-1095 | a run from an empty store whose last step, its first local minimisation, loses contents for good while the local pm_maps mirror the global store |
| Losses.SecondCanLose | src/pmfuzz/stages/dedup.py:550-572 | a run from an empty store in which the second of two local minimisations loses contents for good |
| Losses.DedupCanLose | src/pmfuzz/stages/stage2.py:430-438 | a run from an empty store in which the deduplication of execution maps loses contents for good |
| Losses.EndCanLose | src/pmfuzz/stages/dedup.py:918-930 | a run from an empty store in which the end of an iteration loses what was collected under a deleted name |
| Corpus.Store.CollectFirst | src/pmfuzz/stages/stage1.py:331-393 | stage 1 results get testcase, maps and image, once; aborts exactly when a new one has no map |
| Corpus.Store.CollectFirstCrash | src/pmfuzz/stages/stage1.py:290-329 | a stage 1 crash site is stored under its own name |
| Corpus.Store.UpdateGlobalFirst | src/pmfuzz/stages/dedup.py:867-987 | for stage 1: the abort for a missing image is unreachable, the global store changes file by file as stated, no archive or placeholder is lost |
| Corpus.Store.UpdateGlobal | src/pmfuzz/stages/dedup.py:867-987 | the same for the current iteration |
| Corpus.Store.UpdateLocal | src/pmfuzz/stages/dedup.py:989-1095 | its image abort is unreachable: it fails exactly when a testcase of this generation that is not there yet has no map; otherwise the local store changes file by file as stated, whatever it held before |
| Corpus.Store.Collect | src/pmfuzz/stages/stage2.py:251-266 | the sanity check on the image never fails; the testcase and the maps found are stored under the name of a child, which is of generation k+1 for a testcase run and at most k+1 for a crash site run |
| Corpus.Store.CollectCrash | src/pmfuzz/stages/stage2.py:791-840 | the parent's image is found and is the only one |
| Corpus.Store.DedupMaps | src/pmfuzz/stages/stage2.py:430-438 | deduplicates the results by execution maps as the engine does, for some order of the listing: losers leave a placeholder and nothing else, other names are unchanged; keeps what holds of the results |
| Corpus.Store.DedupCrashes | src/pmfuzz/stages/dedup.py:587-628 | one crash site stays for each hash; aborts exactly when a hash is missing |
| Corpus.Store.MinimizeGlobal | src/pmfuzz/stages/dedup.py:329-442 | fails exactly when a testcase has no map; otherwise one testcase per digest stays, and every other one leaves its archives and a placeholder and no other file |
| Corpus.Store.MinimizeLocal | src/pmfuzz/stages/dedup.py:444-585 | the dropped candidates lose all files among the results, and their testcases and maps in the global store, where a placeholder is left if any was there; nothing else changes |
| Corpus.Store.NextIteration | src/pmfuzz/stages/stage2.py:123-134 | a new iteration starts with empty local stores and keeps the invariant |
| Corpus.Store.Run | src/pmfuzz/core/pmfuzz.py:285-325 | for every run of the operations in any order: until something aborts the invariant holds, and the states passed through are a trace of the operations that ends exactly where the first aborting one begins; no archive is lost, and a deleted name never has a testcase, map or pm_map again |

## Left out

- AFL, tar, gdb, signals and the processes themselves: only their effect on pid files, timers and directories is here.
- IMG_REP mode and the failure list file: ids are stored by position in bytes there, and its documentation says "todo".
- The testcase minimisers `minimize_testcase` and `minimize_testcases`, and the global `fdedup`: behind an abort, or with configuration keys that do not exist.
- `get_total_paths` and `get_total_pm_paths`: compositions of the functions in `Coverage` over directories; the second reads execution maps under a pm_map filter, so coverage is stated on the pm_map files.
- PushBack: for element sizes whose number of bits is negative as an `int32_t` the scan leaves the register, which is undefined in C and not modelled.
- RunProgram: AFL's map sizes from 2^12 to 2^31; smaller maps would make the constant 97 exceed the number of elements.
- CollectCrash: crash images have decimal ids; those of 2^31 and above have names that are not recognised (`Lineage.CrashFileIff`) and are not collected here.
- EndIteration: crash-site instances are not stopped by `kill_all`, and nothing is claimed about those left over.
- StartInstance: starting the timer and running the instance are one step; a crash of PMFuzz between the two is not modelled.
- Run: operations of the store are single steps; a crash of PMFuzz inside one is not modelled, and neither is the disk becoming full.
- Collect: `collect_results` for orphaned runs is the same step and not a separate one; images are not modelled beyond being there.
- Recognised: names are base names; directory parts, a trailing newline before `$` and digits outside `0` to `9` are not modelled.
- GetStageInf: `int()` accepts decimal digits only, without signs, blanks or underscores.
- WriteTuples: the floating-point logarithm is taken to be exact, which it is for a byte.
- The LLVM pass that inserts the hints, configuration merging, argument parsing, reports and plots: plumbing or easy members.
