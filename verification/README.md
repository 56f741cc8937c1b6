# Verified models of the ns-3 tooling and of two TCP examples

This Dafny project models eight programs of the repository and proves what they are meant to do. Each
file is one component; mutable parts of the source are classes and loops that are proved against
specification functions, and the properties are lemmas about those functions.

| file | component |
|---|---|
| `WorkerPool.dfy`, `WorkerPoolProperties.dfy`, `WorkerPoolReports.dfy` | dispatcher, worker threads, queues and SIGINT of `test.py` as a transition system |
| `TestResults.dfy` | collecting loop, name lists, `failed_jobs` and exit status of `test.py` |
| `TestRun.dfy` | the same pool as a mutable object whose threads take steps in any order |
| `Introspection.dfy`, `IntrospectionExact.dfy` | the recursive path search of `StaticInformation::DoGather`, and what it records in which order |
| `IntrospectionRepeats.dfy`, `RegistryRepeats.dfy` | when that search records an entry twice, for the graph and for the registry |
| `StyleFixers.dfy`, `StyleFixersExact.dfy` | tab and trailing-whitespace checks of the style script, and what they accept and write |
| `LoadOrder.dfy` | dependency order of the shared libraries in the Python bindings |
| `BenchScheduler.dfy` | Welford statistics and the event loop of the scheduler benchmark |
| `Timeline.dfy`, `Legend.dfy` | binary searches, windows and legend layout of `grid.py` |
| `LargeTransfer.dfy` | the resumable writer of `tcp-large-transfer.cc` |
| `Fairness.dfy` | Jain's index of `dctcp-example.cc` in 64-bit arithmetic |
| `Sequences.dfy` | what several components say about sequences |

## What the main results say

- **Worker pool.** A state holds both queues, what every worker is doing, the collected reports, the exit
  flag and the launched jobs. For every interleaving, with SIGINT at any moment or never: each dispatched
  job is in exactly one place, a worker stops only when all real jobs have left the input queue, no job is
  launched twice, after SIGINT only those jobs are still launched whose workers had passed the test of the
  flag, every run is finite with an explicit bound, and the threads get stuck before the end only when
  there are jobs but no workers. SIGINT turns exactly the jobs that are not tested yet into interrupted ones,
  those to be skipped among them. Two complete uninterrupted runs give the same
  counts and the same sorted name lists.
- **Introspection.** Starting from empty stacks the recorded entries are, in depth-first order, exactly the
  simple walks of the TypeId graph, one entry per walk, on any finite graph with cycles and parallel edges.
  The searches from all roots leave equal entries exactly when a simple walk of one of them reaches a type
  that is linked twice to one it has not visited, or walks of two of them spell the same way to the same type.
- **Style fixers.** A second tab pass accepts what the first one wrote although the first may have created
  new guards; the two fixers commute on every file, whatever its line ends.
- **Load order.** The ordering ends exactly for closed acyclic dependencies; the step of a library is the
  length of its longest dependency chain.

## Assumptions about what is outside the programs

- Running a job returns; its return code and what its result file says are inputs. A job is launched at most
  once, so its return code is fixed in advance without loss.
- The TypeId registry is a finite list of types with attributes and a child relation. Every TypeId that an
  attribute or an aggregation mentions is registered. Only where the repetitions are characterised are the
  names of types, and of the attributes of a type, taken to be distinct and without a slash.
- A file is a sequence of characters; reading translates CR LF and CR to LF, writing changes nothing.
- Which libraries a library links to is an input, as is the number of stack frames that Python allows. The
  ordering calls itself for ever when it is stuck, so that this limit is what ends it.
- Statistics are over the real numbers. The scheduler may pick any pending event and any delay.
- A socket may refuse, or accept any non-empty part of what it is offered; its room may change at any time.
- The ranges and events of a time line are sorted; the text extents of a legend are not negative and the
  same in `layout` and `draw`.

## Where the code and its comments differ

- `Uniquefy` (utils/print-introspected-doxygen.cc:423-429) says that it modifies its container in place; it
  takes it by value and changes nothing. The recorded output is therefore modelled unsorted and with its
  repetitions. `RootsRecordTwiceIff` says when the searches from a list of roots leave any, and
  `RecordsTwiceIffDoubleLink` when a single search does. The program's own list of aggregations has one pair
  twice (lines 565 and 567), so there are some as soon as a root reaches ns3::Node without having visited the
  ICMP type (`TypicalAggregationsRepeat`). The list of nodes (src/network/model/node-list.cc:115-120), which is a
  root once a node exists, is such a root (`NodeContainerRepeats`).
- The comment on `thread_exit` (test.py:997-1000) says that a worker does no real work once the flag is set.
  The flag is tested before the launch, not with it, so a worker may still launch one job
  (`LaunchCanFollowInterrupt`); `LaunchesAfterInterrupt` says which.
- `failed_jobs` of `test.py` holds a test suite twice when it failed and its result file does not say PASS or
  SKIP, and it holds a suite that returned 0 when its result file does not say so. `FailedJobsExactly`
  states how often it holds a job.
- A negative process limit is taken over as the number of threads. With jobs to run the main thread then
  waits for ever (`StuckWithoutWorkers`).
- `get_ranges` returns nothing when neither end of the window is inside a range, even if ranges lie between
  the ends, and may return ranges before the window when only its end is inside one (`RangeWindowFails`).
  `RangeWindowIffFits` gives the exact condition on disjoint ranges, `RangeWindow` the one on sorted ranges
  that may share end points, where it depends on which of two touching ranges the search meets.
- `get_events` returns one event behind the window unless an event is at its end or none follows, and cuts
  off some of several events at the time of an end (`EventWindowFails`, `NoExtraIff`, `CompleteIffProbes`).
- `PrintFairness` wraps for large counters, even for perfectly equal ones (`EqualCountsCanWrap`);
  `ExactIffFits` says exactly when it does not.

## Model

| member | source | states |
|---|---|---|
| WorkerPool.InvStep | test.py:987-1055 | every step of the dispatcher, a worker or the signal handler keeps the invariant: input queue in dispatch order, each dispatched job in one place, launches matched by reports, one break job per stopped worker |
| WorkerPool.InvRun | test.py:1466-1770 | the invariant holds in every state of every run, interrupted at any moment or never |
| WorkerPool.PlacesStep | test.py:987-1055 | no step loses or duplicates a job; only the dispatcher's put adds one |
| WorkerPool.LaunchesStep | test.py:1019-1040 | a launch is recorded exactly when a job starts to run, and the record stays with that job |
| WorkerPoolProperties.OnePlace | test.py:1744-1770 | in every reachable state each dispatched job is in exactly one of input queue, a worker's hands, output queue or collected |
| WorkerPoolProperties.StopsOnlyWhenDrained | test.py:990-995 | a worker gets its break job only when all real jobs were put and none is left in the input queue |
| WorkerPoolProperties.ReturnsOnlyOnBreak | test.py:990-995 | a worker that returned holds a break job that the dispatcher put, and the input queue is drained of real jobs |
| WorkerPoolProperties.LaunchedOnce | test.py:1010-1042 | no job is launched twice and a job to be skipped never |
| WorkerPoolProperties.LaunchesAfterInterrupt | test.py:1001-1040 | once the exit flag is set only jobs are launched whose worker had passed its test, each once and at most one per worker; no job that is queued, not yet put or not yet tested is |
| WorkerPoolProperties.InterruptedRunLaunches | test.py:1001-1040 | a run completed after SIGINT has launched exactly the jobs launched before it and those whose workers had passed the test |
| WorkerPoolProperties.LaunchCanFollowInterrupt | test.py:1001-1040 | with a worker and a first job not to be skipped there is a run in which that job is launched after the exit flag is set |
| WorkerPoolProperties.ReportsKeepOrder | test.py:1767-1768 | reports are collected in the order in which the workers put them, and none is changed or dropped |
| WorkerPoolReports.UntestedIsInterrupted | test.py:990-1016 | once the exit flag is set every report on a job that is not put, queued or not tested yet says interrupted, also for a job to be skipped |
| WorkerPoolReports.InterruptedIffUntested | test.py:574-1055 | when SIGINT comes the jobs later reported as interrupted are exactly those not tested yet |
| WorkerPoolReports.AnyMoment | test.py:574-576 | SIGINT may come in any reachable state and only sets the flag |
| WorkerPoolReports.ReportsAreFaithful | test.py:1001-1055 | a report has the name, flags and result file of its job, and the job's own return code if it was run |
| WorkerPoolReports.WorkerWaitsForJobs | test.py:987-1055 | a worker is stuck if and only if it has returned or waits at an empty input queue |
| WorkerPoolReports.DispatcherWaits | test.py:1744-1918 | the dispatcher is stuck if and only if all is put and a report is missing with the output queue empty, or the next thread to join has not returned, or none is left |
| WorkerPoolProperties.StepsLeftDecreases | test.py:987-1055 | every step, SIGINT included, lowers a measure of queued, held and uncollected jobs and outstanding breaks |
| WorkerPoolProperties.RunsAreFinite | test.py:1466-1918 | no run has more than 7 steps per job, 4 per worker and one for SIGINT |
| WorkerPoolProperties.NextStep | test.py:1744-1918 | until all is collected and joined some step other than SIGINT is enabled, given a worker or no jobs |
| WorkerPoolProperties.StuckOnlyWithoutWorkers | test.py:1455-1469 | a state in which no thread can move is complete if and only if there is a worker or there are no jobs |
| WorkerPoolProperties.StuckWithoutWorkers | test.py:1455-1469 | with jobs but no workers there is a run after which only SIGINT can happen and nothing was collected |
| WorkerPoolProperties.CanAlwaysFinish | test.py:1744-1918 | from every state of every run the threads can be scheduled to the end without a further interrupt |
| WorkerPoolProperties.DoneMeansCollected | test.py:1767-1918 | at the end both queues are empty, all workers have returned and each job was collected exactly once, as its result or, after SIGINT only, interrupted |
| WorkerPoolProperties.LaunchedMeansRan | test.py:1000-1055 | at the end the launched jobs are those reported neither interrupted nor skipped; without SIGINT all jobs not to be skipped |
| TestResults.Collector.Record | test.py:1767-1904 | one turn of the collecting loop extends counters, name lists and failed_jobs to those of the longer list of reports |
| TestResults.Collector.Classify | test.py:1775-1803 | the verdict of one report: counters, names, and the append and pop on failed_jobs |
| TestResults.Collector.AddSuiteResult | test.py:1892-1904 | a suite enters failed_jobs again unless its result file says PASS or SKIP; the pop removes only that entry |
| TestResults.Collector.ExitStatus | test.py:2011-2014 | the status is 0 if and only if every report is a pass or a skip |
| TestResults.CollectorTallies | test.py:1775-1803 | passed, failed and valgrind counters are the numbers of reports, neither interrupted nor skipped, with return code 0, 1 and 2, crashed those with any other; the lists have their names in order, that of skipped jobs with the reasons |
| TestResults.FailedJobsInOrder | test.py:1783-1904 | failed_jobs keeps the order of the reports |
| TestResults.StringLeMeans | test.py:1936-1948 | the sorting order is lexicographic, a prefix first |
| TestResults.SummaryMeans | test.py:1759-1803 | the counters and lists hold exactly the labels of the reports with the respective verdict, in order |
| TestResults.VerdictsPartition | test.py:1767-1803 | passed, skipped, failed, crashed, valgrind and interrupted add up to the number of reports |
| TestResults.FailedJobsExactly | test.py:1783-1904 | how often a job is in failed_jobs: per report once if it failed, crashed or upset valgrind, and once more if it is a suite whose result file does not say PASS or SKIP or is not looked at |
| TestResults.LabelsPermute | test.py:1767-1803 | permuting the reports permutes the name list of each verdict |
| TestResults.SortIsUnique | test.py:1937-1948 | sorted lists of the same names are the same list |
| TestRuns.CollectsExpected | test.py:1767-1768 | any complete uninterrupted run collects the multiset of expected reports |
| TestRuns.ScheduleIndependence | test.py:1932-1948 | two complete uninterrupted runs give the same count and the same sorted name list for every verdict |
| TestRuns.CompleteAccounting | test.py:1524-1526 | after collection the six verdict counts add up to the number of dispatched jobs, with none interrupted unless SIGINT came |
| TestRuns.InterruptedRunFails | test.py:990-2014 | when SIGINT comes while a job is not tested yet, some report is an interrupted one at the end and passes and skips do not add up to all jobs |
| TestRuns.GoodReports | test.py:2011-2014 | all reports are good if and only if every job was skipped or returned 0 and its undisturbed report was collected |
| TestRuns.TestRun.PutNext | test.py:1524-1747 | the dispatcher puts the real jobs in order and then one break job per worker, as the transition system does |
| TestRuns.TestRun.WorkerGet | test.py:989 | a worker takes the first item of the input queue |
| TestRuns.TestRun.WorkerLaunch | test.py:1019-1040 | the launch of a cleared job is recorded, whatever the exit flag says by then |
| TestRuns.TestRun.WorkerFinish | test.py:1023-1042 | a finished job carries its own return code and stays with its worker |
| TestRuns.TestRun.WorkerPut | test.py:1055 | the job goes to the end of the output queue and the worker is free again |
| TestRuns.TestRun.CollectOne | test.py:1767-1904 | the first report of the output queue is collected and counted |
| TestRuns.TestRun.JoinOne | test.py:1917-1918 | the threads are joined in order, each after it has returned |
| TestRuns.TestRun.Sigint | test.py:574-576 | only the exit flag changes |
| TestRuns.TestRun.WorkerDecide | test.py:994-1016 | a worker stops on a break job, hands a job back when the exit flag is set or the job is to be skipped, and else goes on to launch it |
| TestRuns.TestRun.StepAny | test.py:987-1055 | whatever thread moves, the object takes one step of the transition system |
| TestRuns.TestRun.RunTests | test.py:1466-2014 | all interleavings end with everything collected and joined, the exit status is 0 if and only if every job was skipped or returned 0 uninterrupted, 1 if some job was interrupted, and without SIGINT the collected reports are the expected ones |
| Introspection.StaticInformation.HasAlreadyBeenProcessed | utils/print-introspected-doxygen.cc:379-391 | true exactly for the TypeIds on the ancestor stack |
| Introspection.StaticInformation.Follow | utils/print-introspected-doxygen.cc:476-481 | following an edge adds the entries of the walks that begin with it and restores both stacks |
| Introspection.StaticInformation.DoGather | utils/print-introspected-doxygen.cc:447-531 | appends exactly the entries of the enumerated walks, restores both stacks and ends on cyclic graphs |
| Introspection.StaticInformation.Gather | utils/print-introspected-doxygen.cc:439-445 | the same from empty stacks, with nothing sorted or removed afterwards |
| Introspection.StaticInformation.GatherAll | utils/print-introspected-doxygen.cc:586-590 | the searches from all roots append what each of them records, in order |
| Introspection.StaticInformation.Get | utils/print-introspected-doxygen.cc:393-406 | the recorded paths of one TypeId in the order of recording |
| IntrospectionExact.EdgesInOrder | utils/print-introspected-doxygen.cc:456-530 | the edges of a TypeId are those that the loops over attributes, registered types and aggregations follow, each turn of them once and in order |
| IntrospectionExact.RecordedExactly | utils/print-introspected-doxygen.cc:372-531 | a search records one entry for each simple walk, its end and its path string, in depth-first order |
| IntrospectionExact.WalkEdges | utils/print-introspected-doxygen.cc:472-528 | a walk spells the steps and visits the targets of its edges |
| IntrospectionExact.GetInOrder | utils/print-introspected-doxygen.cc:393-406 | Get returns the paths of the entries for the TypeId, as often and in the order as recorded |
| Introspection.JoinedConcat | utils/print-introspected-doxygen.cc:360-370 | the path strings of two lists of steps are joined as the lists are |
| Introspection.JoinedOne | utils/print-introspected-doxygen.cc:360-370 | the path string of one step is a slash and the step |
| Introspection.WalksExact | utils/print-introspected-doxygen.cc:451-527 | a walk is enumerated if and only if it visits no TypeId twice and no ancestor |
| Introspection.WalksOrdered | utils/print-introspected-doxygen.cc:456-530 | the walks come in depth-first order of the edges |
| Introspection.GathersSimpleWalks | utils/print-introspected-doxygen.cc:439-531 | from a root every simple walk is recorded exactly once, and nothing else |
| Introspection.PathsAreSimpleWalks | utils/print-introspected-doxygen.cc:360-406 | a path is listed for a TypeId if and only if a simple walk from the root ends there and spells it |
| IntrospectionRepeats.RepeatsIffTwoEdges | utils/print-introspected-doxygen.cc:360-531 | with clean names and steps that determine where they lead, a single search records an entry twice if and only if a simple walk reaches a TypeId with two equal edges to one not yet visited |
| IntrospectionRepeats.RootsRepeatIff | utils/print-introspected-doxygen.cc:360-531 | the searches from a list of roots together record an entry twice if and only if one of them reaches such edges or two of them have simple walks that spell the same way to the same TypeId |
| IntrospectionRepeats.CommonEntry | utils/print-introspected-doxygen.cc:360-531 | two searches record a common entry if and only if simple walks of both spell the same way to the same TypeId |
| IntrospectionRepeats.ApartRootsShareNothing | utils/print-introspected-doxygen.cc:439-531 | different roots whose edges have no step in common share no entry |
| IntrospectionRepeats.SharedTargetRepeats | utils/print-introspected-doxygen.cc:586-590 | two roots with equal edges to one TypeId repeat its entry although neither search repeats any |
| IntrospectionRepeats.TwoEdgesRepeat | utils/print-introspected-doxygen.cc:439-531 | such edges repeat an entry whatever the names are |
| IntrospectionRepeats.JoinedInjective | utils/print-introspected-doxygen.cc:360-370 | a path string spells one list of clean steps only |
| IntrospectionRepeats.StepsMustDetermine | utils/print-introspected-doxygen.cc:360-531 | a step that leads to two TypeIds can repeat an entry without equal edges |
| IntrospectionRepeats.NamesMustBeClean | utils/print-introspected-doxygen.cc:360-531 | so can a name with a slash |
| RegistryRepeats.RecordsTwiceIffDoubleLink | utils/print-introspected-doxygen.cc:423-531 | with distinct and clean names a single search records an entry twice if and only if a simple walk reaches a type to which another, not yet visited, is aggregated twice, or once while also being its child type |
| RegistryRepeats.RootsRecordTwiceIff | utils/print-introspected-doxygen.cc:423-590 | with such names the searches from all roots leave an entry twice if and only if one of them reaches such a double link or two of them have simple walks that spell the same way to the same type |
| RegistryRepeats.ResolvedExactly | utils/print-introspected-doxygen.cc:328-348 | recorded are, in order, the pairs of which both names are registered |
| RegistryRepeats.RecordedTwiceLinksTwice | utils/print-introspected-doxygen.cc:328-348 | a pair of registered names recorded twice links its types twice |
| RegistryRepeats.TypicalAggregationsRepeat | utils/print-introspected-doxygen.cc:537-590 | with the program's own aggregations the searches repeat entries whenever a simple walk from some root ends at ns3::Node and has not visited ns3::Icmpv4L4Protocol |
| RegistryRepeats.NodeContainerRepeats | src/network/model/node-list.cc:112-121 | so they do when a root that is neither of the two types has a container of nodes, as the list of nodes has |
| Introspection.EdgesExactly | utils/print-introspected-doxygen.cc:456-530 | the edges are pointer attributes except those to Object, container attributes, child types, and aggregations in both directions |
| StyleFixers.CheckTabsFile | utils/check-style-clang-format.py:610-672 | the check accepts a file if and only if no checked line has a tab, and with fix rewrites its lines as the specified fixer, with LF ends, else leaves it as it is; the early exit does not change the verdict |
| StyleFixers.CheckTrailingWhitespaceFile | utils/check-style-clang-format.py:558-607 | the check accepts a file if and only if every line is trimmed and ended, and with fix rewrites its lines as the specified fixer, with LF ends, else leaves it as it is |
| StyleFixersExact.TabToBlanks | utils/check-style-clang-format.py:128-654 | the first tab becomes one to four blanks that end at a multiple of four, and the text behind it is expanded as if it began a line |
| StyleFixersExact.ColumnBehindTab | utils/check-style-clang-format.py:128-654 | behind any tab of a line the text goes on at a multiple of four |
| StyleFixersExact.WhiteSpace | utils/check-style-clang-format.py:581 | white space is the 29 characters that str.isspace accepts |
| StyleFixersExact.TrimmedMeans | utils/check-style-clang-format.py:581-584 | a line is accepted if and only if it ends with LF behind nothing or behind a character that is no white space |
| StyleFixersExact.TrimMeans | utils/check-style-clang-format.py:581 | what is written is the line up to its trailing white space, and an LF |
| StyleFixersExact.ReadFirstLine | utils/check-style-clang-format.py:576-577 | reading takes off the first line, whether LF, CR or CR LF ends it, and ends it with LF |
| StyleFixersExact.ReadLastLine | utils/check-style-clang-format.py:576-577 | a last line without an end is read as it is |
| StyleFixersExact.WriteConcat | utils/check-style-clang-format.py:603-605 | writing puts the lines one behind the other |
| StyleFixersExact.GuardText | utils/check-style-clang-format.py:636-641 | the two guard comments are guards with any white space around them |
| StyleFixersExact.EnabledMeans | utils/check-style-clang-format.py:633-645 | formatting is disabled exactly between an off guard and the next on guard |
| StyleFixersExact.TabCheckMeans | utils/check-style-clang-format.py:633-655 | a file is accepted if and only if no guard line and no line outside a switched-off region has a tab; with fix exactly those lines are expanded |
| StyleFixers.ReadWritten | utils/check-style-clang-format.py:630-670 | reading back written lines gives the same lines |
| StyleFixers.GuardSurvives | utils/check-style-clang-format.py:636-641 | expanding tabs never undoes a guard line |
| StyleFixers.SecondPassEnabled | utils/check-style-clang-format.py:633-645 | wherever a second tab pass has formatting enabled the first pass had it enabled |
| StyleFixers.FixingMakesGuard | utils/check-style-clang-format.py:636-655 | a tab in place of the blank of an off guard is no guard before the fix and switches formatting off after it |
| StyleFixers.TabsFixedOnce | utils/check-style-clang-format.py:610-672 | after a tab fix a second pass is compliant and changes nothing |
| StyleFixers.OffRegionUntouched | utils/check-style-clang-format.py:643-670 | in the fixed file the lines that are no guards inside a switched-off region read as before |
| StyleFixers.SpaceFixedOnce | utils/check-style-clang-format.py:580-605 | after a whitespace fix a second pass is compliant and changes nothing |
| StyleFixers.FixersCommute | utils/check-style-clang-format.py:558-672 | tab fixer and whitespace fixer give the same file in either order |
| StyleFixers.FixersAgree | utils/check-style-clang-format.py:558-672 | after both fixers both checks accept the file |
| StyleFixers.FixersKeepText | utils/check-style-clang-format.py:580-655 | neither fixer changes anything but white space |
| LoadOrder.RoundsKeepLists | bindings/python/ns__init__.py:407-416 | in every step no library is lost or placed twice and dependencies come first |
| LoadOrder.PlacedIffBounded | bindings/python/ns__init__.py:394-416 | after k layers exactly the libraries are placed whose dependency chains all have at most k elements and stay within the libraries |
| LoadOrder.StepIsLongestChain | bindings/python/ns__init__.py:407-416 | a library is placed in step k if and only if its longest dependency chain has k + 1 elements |
| LoadOrder.StepKeepsOrder | bindings/python/ns__init__.py:394-415 | within a step the libraries keep the order of the dictionary |
| LoadOrder.RoundsLayered | bindings/python/ns__init__.py:407-416 | the placed libraries come by the length of their longest chain, and then in the order of the dictionary |
| LoadOrder.EndsIffAcyclic | bindings/python/ns__init__.py:407-416 | the ordering ends, given enough recursion, if and only if the dependencies are closed and acyclic, and then within as many layers as there are libraries |
| LoadOrder.Loader.ModulesThatCanBeLoaded | bindings/python/ns__init__.py:394-405 | the pending libraries whose dependencies are all placed, in their order |
| LoadOrder.Loader.PlaceLayer | bindings/python/ns__init__.py:410-415 | one layer computed in full, then moved from the pending to the current list and into its step |
| LoadOrder.Loader.DependencyOrder | bindings/python/ns__init__.py:407-416 | the recursion returns the steps of the first layer that leaves nothing pending, or fails at the recursion limit |
| LoadOrder.SortToDependencies | bindings/python/ns__init__.py:418-421 | succeeds if and only if the limit exceeds every chain within the libraries; the result is a duplicate-free permutation with every library behind its dependencies, by the length of the longest chain and then in the order of the dictionary |
| BenchScheduler.Log | utils/bench-scheduler.cc:331-386 | for two or more runs the average of each of the six fields is the mean and the variance is the mean squared deviation from it, not negative |
| BenchScheduler.WelfordStep | utils/bench-scheduler.cc:358-362 | one accumulation takes mean and sum of squared deviations to those of the longer list, the doubled first sample included |
| BenchScheduler.DeviationShift | utils/bench-scheduler.cc:358-362 | how the sum of squared deviations changes with the reference point |
| BenchScheduler.Bench.Schedule | utils/bench-scheduler.cc:143-174 | one event more is pending, at a time not before now |
| BenchScheduler.Bench.TakeNext | utils/bench-scheduler.cc:152 | the event that runs is one of those pending, and is removed |
| BenchScheduler.Bench.Cb | utils/bench-scheduler.cc:163-176 | a callback stops the simulation at the total, and otherwise counts itself and schedules one event not before now |
| BenchScheduler.Bench.Run | utils/bench-scheduler.cc:133-161 | for any choice of the next event a run with a population makes total + 1 callbacks, counts total, and has the full population pending before each; every event scheduled was executed once or is still pending |
| Timeline.FindRangeMeans | utils/grid.py:99-116 | the interval search finds an interval with the key if and only if there is one |
| Timeline.TimelineDataRange.Search | utils/grid.py:99-116 | the loop finds a range with the key, and on sorted ranges gives -1 only if no range has it |
| Timeline.TimelineDataRange.GetRanges | utils/grid.py:130-146 | the window is the slice by the bounds of get_ranges_bounds; on disjoint ranges it is the ranges that meet the interval, in order, if and only if the window fits |
| Timeline.TimelineDataRange.GetRangesBounds | utils/grid.py:147-163 | on sorted ranges the bounds are the ranges with the two ends, as far as there are any, and nothing when there is neither |
| Timeline.RangeFound | utils/grid.py:99-116 | of several touching ranges with the key the bisection finds the one at its first midpoint among them |
| Timeline.RangeWindow | utils/grid.py:130-163 | the window has exactly the ranges that meet the interval if and only if both its ends are right, or, with no end inside a range, no range lies between |
| Timeline.RangeWindowIffFits | utils/grid.py:130-163 | on disjoint ranges the window is the ranges that meet the interval if and only if, with start in a range, end is in one or not before the last start; with only end in one, nothing ends before start; with neither, no range lies between |
| Timeline.RangeWindowFails | utils/grid.py:130-146 | of three ranges the window misses one that lies between its ends, and has one that lies before its start |
| Timeline.DisjointWindow | utils/grid.py:130-163 | on disjoint ranges the window is exact with both ends inside ranges and misses nothing with one end inside |
| Timeline.FindEventMeans | utils/grid.py:194-211 | the event search gives an event at the key or the place where it would be |
| Timeline.EventWindowComplete | utils/grid.py:219-238 | all events of the interval are in the window if and only if no event with the time of an end is cut off |
| Timeline.EventWindowExtra | utils/grid.py:219-238 | at most the last event of the window is behind the interval, and it is not if and only if an event found is at its end or none follows |
| Timeline.NoExtraIff | utils/grid.py:219-238 | the window has nothing behind the interval if and only if some event is at its end or all are before it |
| Timeline.CompleteIffProbes | utils/grid.py:194-238 | no event of the interval is cut off if and only if the bisection meets the events at its start, if any, in the first of them, and those at its end in the last |
| Timeline.CompleteWithoutTies | utils/grid.py:219-238 | no event of the interval is cut off if there is at most one at each end |
| Timeline.EventWindowFails | utils/grid.py:194-228 | two events of which one behind the interval is returned, and three at one time of which two are cut off |
| Timeline.IncreasingWindow | utils/grid.py:219-238 | with distinct times the window is the events of the interval and at most the first one after it |
| Timeline.TimelineEvent.Search | utils/grid.py:194-211 | on sorted events the loop gives an event at the key, or the place between the earlier and the later ones |
| Timeline.WindowIsWithin | utils/grid.py:219-228 | with distinct times the slice is the events of the interval in order, followed by the first one behind it unless an event is at its end or none follows |
| Timeline.TimelineEvent.GetEvents | utils/grid.py:219-228 | with distinct times the window is the events of the interval and perhaps the first one behind it |
| Timeline.TimelineEvent.GetEventsBounds | utils/grid.py:229-238 | the index bounds of the same window |
| Legend.TopLegendRenderer.Layout | utils/grid.py:522-547 | the height is the bottom of the last line |
| Legend.TopLegendRenderer.Draw | utils/grid.py:555-588 | the boxes are placed as layout computed |
| Legend.ItemsApart | utils/grid.py:555-588 | no two item boxes overlap: left on the same line or wholly above |
| Legend.ItemsWithinHeight | utils/grid.py:522-588 | every box ends above the height that layout computed |
| Legend.NextBox | utils/grid.py:562-573 | an item starts a line if and only if it does not fit behind the one before, and the line is as far below as the tallest item so far |
| Legend.FirstBox | utils/grid.py:562-573 | where the first item is |
| Legend.RoomForText | utils/grid.py:563-585 | a box is three paddings wider and one padding higher than its text |
| Legend.HeightBelowLast | utils/grid.py:545-547 | the legend ends below the last line by the tallest item |
| Legend.FitsIffFitsAlone | utils/grid.py:533-540 | an item stays within the width if and only if padding and its own width fit |
| LargeTransfer.Sender.constructor | examples/tcp/tcp-large-transfer.cc:106-110 | the write buffer holds the first 1040 bytes of the pattern |
| LargeTransfer.Sender.WriteUntilBufferFull | examples/tcp/tcp-large-transfer.cc:221-243 | every call keeps the offers equal to the stream and as large as buffer, total and room allow, goes on while they are taken, and ends with no room, a refusal, or everything accepted and a close |
| LargeTransfer.Sender.StartFlow | examples/tcp/tcp-large-transfer.cc:209-219 | after any number of callbacks the bytes accepted are a prefix of the stream |
| LargeTransfer.Sender.NextSlice | examples/tcp/tcp-large-transfer.cc:226-230 | the largest slice that buffer, total and socket allow |
| LargeTransfer.AcceptedIsPrefix | examples/tcp/tcp-large-transfer.cc:47-56 | whatever the socket answers, what it accepted is a prefix of the stream whose byte k is 97 + k mod 26 |
| LargeTransfer.NoSendAfterClose | examples/tcp/tcp-large-transfer.cc:239-242 | the socket is closed only when all bytes are accepted, and nothing is sent afterwards |
| LargeTransfer.StreamIsAlphabet | examples/tcp/tcp-large-transfer.cc:106-110 | bytes 0 to 25 of the stream are 97 to 122, and it repeats after 26 |
| LargeTransfer.PatternFits | examples/tcp/tcp-large-transfer.cc:52-56 | the pattern continues without a seam when the buffer wraps |
| Fairness.JainIndex | examples/tcp/dctcp-example.cc:190-197 | numerator and denominator are the square of the sum and n times the squares, both modulo 2^64; when n times the squares fits, their quotient is between 1/n and 1, and 1 if and only if all counts are equal |
| Fairness.Cauchy | examples/tcp/dctcp-example.cc:184-197 | the square of the sum is at most n times the squares, with equality if and only if all counts are equal |
| Fairness.IndexBounds | examples/tcp/dctcp-example.cc:184-197 | for counts not all zero the index is between 1/n and 1, and 1 if and only if all counts are equal |
| Fairness.ExactIffFits | examples/tcp/dctcp-example.cc:192-197 | no square, no partial sum and neither side of the quotient wraps if and only if n times the squares is below 2^64 |
| Fairness.SmallCountsFit | examples/tcp/dctcp-example.cc:192-197 | it is when n times the largest count is below 2^32 |
| Fairness.EqualCountsCanWrap | examples/tcp/dctcp-example.cc:192-197 | ten equal counts of 2^32 give 0 divided by 0 |

## Left out

- Subprocesses, command lines, XML, HTML and text output, and signal delivery of `test.py`: a job is its return code, its skip flag and what its result file says. A missing result file, which raises an exception, is not modelled.
- Aliasing of `Job` objects between the threads of `test.py`: a job is a value that moves through the queues, which is the same as long as a thread does not touch a job that it has passed on.
- The list of names without TypeId that `RecordAggregationInfo` keeps: appends only.
- `IsChildOf` walks up the parents of a TypeId; here it is any relation on the registered TypeIds.
- The header rewrite of `check_include_prefixes_file` and the clang-format call depend on the file system and on another program. The messages of the verbose mode are not modelled; its effect on the early exit is.
- `extract_linked_libraries` and `search_libraries`: they read files; the dependency dictionary is an input.
- Floating-point rounding and the final square root of the standard deviation; wall-clock times of the benchmark.
- Drawing, mouse handling and file parsing of `grid.py`; sorting by `ranges_cmp` and `events_cmp`, whose result is assumed.
- Connection set-up and the simulator around the writer; the socket is any socket.
- The average throughput lines and the trace counters of `dctcp-example.cc`. Its vectors are reserved but never sized; the model takes them to have their ten or twenty elements.
