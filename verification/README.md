# Verified models of the RSwift test bed and the simulator's tools

The repository holds the RSwift congestion-control work: an RDMA test bed in C++ and a simulator tree with
its Python and C++ tools. This project models the parts of it that carry real algorithms or protocols and
proves what those parts are meant to guarantee.

`dafny verify dfyconfig.toml` checks the whole project.

## What is modelled

**Dependency sorting and cycles** (`Wrappers`, `Sequences`, `Graphs`, `DependencyTables`, `TopSort`, `TopSortLevels`,
`FindCycles`). The dictionaries of remaining parents and children are maps that the methods reassign step by
step. Items are an abstract type with equality; repeated edges and self-loops are allowed. Graph facts (paths,
cycles, chains) are defined independently of the algorithms. The order in which a Python dictionary lists its
keys is left open.

**The RSwift controller** (`CongestionControl`, `CongestionRuns`, `CongestionResponses`). A class with the controller's fields, over real
numbers; the square root is a parameter of which only "not negative, squares back" is used, and clock readings are
parameters. The two constants `cc_base_rtt_simple` and `cc_fs_base_target` are one field, because the constructor
gives both the same value. The constructor requires a positive base RTT, a frequency that is not negative, and a
window in [0.05, 20]. The client builds its controllers at `rc_client.cpp:418`, before it measures the frequency at
`rc_client.cpp:422`, so it passes frequency zero. The conversion to microseconds then divides by zero: it gives an
infinity after any tick, and no number after none, and the model says so.

**The RDMA client** (`RdmaFlow`, `RdmaProtocol`, `RdmaRuns`, `RdmaFairness`, `RdmaClock`,
`RdmaTiming`). One sender thread per flow, the network card and one
shared poller as a transition system whose steps are single accesses to shared variables: read the window, read the
counter, look at a slot, post, write the time stamp, increment, mark busy; poll, see the slot busy, decrement,
compute the RTT, update the window, clamp it, free the slot. Any interleaving is allowed, completions may come in
any order, posts may fail part-way, and polling or a completion may fail. The state also keeps history that the
program does not store (what was posted, the stamp written for each segment, what was credited and freed).
Safety holds in every interleaving. Progress holds in every infinite run in which, in the end, posts succeed, polling
does not fail, the card completes what is posted, every sender runs again and again, and a poller that can go on for
ever goes on at some time. A further module adds a clock that never runs backwards and shows that each flow's windows
are those of a run of its controller.

**Type-graph paths** (`TypeNames`, `TypeGather`, `TypeRoutes`). `StaticInformation` with its two stacks and its output, over a
finite registry of types. The search is proved equal to an explicit list of walks, and that list to the set of all
walks along followed edges that never come back to a type; what the followed edges are, and the entries of all routes
along them, are told again without the loops.

**The test runner's worker pool** (`WorkerPool`, `WorkerRuns`). The main thread, any number of workers and the two
queues as a transition system; the interrupt flag may be set at any moment and the return code of each job's process
is arbitrary.

**The mini shell** (`ShellParser`, `ShellGrammar`, `ShellAccepts`, `ShellRunner`, `ShellPlaces`,
`ShellPrograms`). The token state machine, a printer
for shell lines, and the evaluator with an arbitrary exit status for each process. AND-OR lists nest to the right in
the code. Section 2.9.3 of the POSIX.1-2017 Shell Command Language makes them left-associative; `AgreesUnlessMixed`
says exactly when the difference shows.

**Text tools** (`Strings`, `Patchset`, `PatchRoundTrip`, `PatchLines`, `PatchObjects`, `Tokenizer`, `TokenizerQuotes`,
`BinaryCounter`). The patch parser
and printer, on heap objects that the parser fills in place and on values; the quoting tokenizer; and the binary
counter against the conversion by way of hexadecimal digits.

## Where the results differ from the documentation or from expectation

- `binary_range` promises all binary numbers of a width; for width 0 it returns no string, although there is one.
- Quoting and tokenizing returns the original list unless its last argument is empty; that argument is then lost.
- A patch is read back unchanged exactly when no text contains a newline, no position is negative, no removed line
  starts with `-- ` and no added line starts with `++ `; `RoundTrip` is an equivalence.
- After a new file header the patch parser still adds lines to the last chunk of the previous patch until a chunk
  header comes; the model keeps this.
- The spacing of window decreases needs a positive frequency. With frequency zero, which is what the client passes,
  every acknowledgement above a fixed target lowers the window until it is at its floor, however close together they
  come (`ZeroFrequencyRun`).
- With nothing in flight a sender attempts a post exactly when the slot of its next segment is free; it is busy
  exactly while the poller is between crediting and freeing a segment of that slot (`AttemptsIffSlotFree`,
  `BusyWhileHandled`).
- A rise of the RTT after a level history is answered as a steep one exactly when it is more than 37.5 microseconds.
- A redirection at the end of a shell line that lacks its file name is accepted and does nothing; so is a newline at
  the end of an assignment, which is not part of the value. Otherwise the parser accepts exactly the printed lines.
- With a fixed target, 401 acknowledgements at or below it fill the window; this is the bound proved.
- `is_rotated` on two empty sequences fails on the head lookup; `find_cycles` never asks for it.
- A worker pool without workers and with at least one job waits for ever.

## Model

| member | source | states |
|---|---|---|
| Graphs.BackwardClosedIsReached | simulation-ret/bindings/python/topsort.py:108-111 | if everything left has a parent among what is left, a cycle leads to each of it |
| Graphs.OrderedIsNotReached | simulation-ret/bindings/python/topsort.py:95-112 | nothing in a list with parents first lies on a cycle or after one |
| Graphs.ReachedHasEveryChain | simulation-ret/bindings/python/topsort.py:203-232 | what a cycle reaches has predecessor chains of every length |
| DependencyTables.Build | simulation-ret/bindings/python/topsort.py:77-90 | the two dictionaries hold exactly the in-degrees and the children with their multiplicities |
| DependencyTables.Parentless | simulation-ret/bindings/python/topsort.py:92-93 | lists once each the items whose remaining parent count is zero |
| DependencyTables.InDegreeRetire | simulation-ret/bindings/python/topsort.py:98-106 | removing a parent lowers each count by the number of its edges to that child, repetitions included |
| TopSort.TopSort | simulation-ret/bindings/python/topsort.py:77-112 | returns all items once with every edge forward iff the graph is acyclic; otherwise the error carries exactly the items that no cycle reaches, in order, and tables for the rest |
| TopSort.RetireParent | simulation-ret/bindings/python/topsort.py:97-106 | one round keeps the answer duplicate-free, parents first, and equal to the items without remaining parents |
| TopSort.ReleaseChildren | simulation-ret/bindings/python/topsort.py:100-103 | a child joins the answer exactly when its count reaches zero |
| TopSort.LeftoversAreReached | simulation-ret/bindings/python/topsort.py:108-111 | every item left in the table is reached from a cycle |
| TopSort.AnswerIsCycleFree | simulation-ret/bindings/python/topsort.py:108-112 | at the end the answer is the set of items no cycle reaches, and the table is empty iff the graph is acyclic |
| TopSortLevels.TopSortLevelsCore | simulation-ret/bindings/python/topsort.py:203-232 | level i is exactly the items whose longest predecessor chain has i edges; exhausted iff acyclic, and then every item is in a level; else the error's keys are the items a cycle reaches |
| TopSortLevels.TopSortLevels | simulation-ret/bindings/python/topsort.py:157-172 | the same for a list of pairs |
| TopSortLevels.OneLevel | simulation-ret/bindings/python/topsort.py:203-224 | an item belongs to one level only |
| TopSortLevels.ParentlessMeansDepth | simulation-ret/bindings/python/topsort.py:204-205 | after n levels an item has no remaining parent iff it has no predecessor chain of n + 1 edges |
| TopSortLevels.NextLevel | simulation-ret/bindings/python/topsort.py:204-224 | the next level is the items of depth n, and removing it leaves those with longer chains |
| TopSortLevels.EndOfLevels | simulation-ret/bindings/python/topsort.py:226-232 | what is left at the end is what cycles reach |
| FindCycles.FindCycles | simulation-ret/bindings/python/topsort.py:343-385 | ends on every finite graph; yields elementary cycles only, no two of them rotations of each other, and a rotation of every elementary cycle |
| FindCycles.IsRotated | simulation-ret/bindings/python/rad_util.py:761-775 | true iff one sequence is a rotation of the other; fails iff both are empty |
| FindCycles.RotationSymmetric | simulation-ret/bindings/python/rad_util.py:761-775 | being a rotation is symmetric |
| FindCycles.RotationTransitive | simulation-ret/bindings/python/rad_util.py:761-775 | being a rotation is transitive |
| FindCycles.IsDup | simulation-ret/bindings/python/topsort.py:371-375 | detects exactly the cycles of which a rotation has been found |
| FindCycles.SearchFrom | simulation-ret/bindings/python/topsort.py:351-385 | after the search from one node every cycle closed by a simple path from it has been found, and only nodes reached from a start are marked visited |
| FindCycles.ExpandPath | simulation-ret/bindings/python/topsort.py:353-385 | popping a path finds every cycle it closes and pushes every simple extension; the size of the search tree falls by one |
| FindCycles.StillExplored | simulation-ret/bindings/python/topsort.py:353-383 | no simple path is lost when a path is replaced by its extensions |
| FindCycles.CycleIsFound | simulation-ret/bindings/python/topsort.py:346-349 | skipping visited start nodes loses no cycle |
| CongestionControl.Rdmacc.constructor | test-bed-rswift/cpps/rdmacc.cpp:15-55 | the initial state, and curve parameters that are well defined, for any frequency that is not negative |
| CongestionControl.Rdmacc.ReceiveAck | test-bed-rswift/cpps/rdmacc.cpp:58-99 | keeps the window in [0.05, 20] and computes the specified average, update, clamp and decrease mark |
| CongestionControl.Rdmacc.UpdateWindow | test-bed-rswift/cpps/rdmacc.cpp:102-176 | the new window is that of the specified branch, and the old window and target are recorded |
| CongestionControl.Rdmacc.Average | test-bed-rswift/cpps/rdmacc.cpp:63-77 | the running averages of RTT and RTT difference |
| CongestionControl.Rdmacc.GetTargetDelay | test-bed-rswift/cpps/rdmacc.cpp:178-193 | the specified target curve, or the fixed target |
| CongestionControl.CurveJoins | test-bed-rswift/cpps/rdmacc.cpp:26-40 | the middle formula equals the full range at window 0.1 and zero at window 14 |
| CongestionControl.MinMaxAreIdle | test-bed-rswift/cpps/rdmacc.cpp:191-191 | between 0.1 and 14 the inner minimum and maximum never change the value |
| CongestionControl.TargetFalls | test-bed-rswift/cpps/rdmacc.cpp:178-193 | the target never rises with the window and stays in [base, base + 25] |
| CongestionControl.UpdateMoves | test-bed-rswift/cpps/rdmacc.cpp:127-174 | an update adds at most 0.5, lowers exactly when the time gate is passed above target, and keeps more than 0.2 of the window (0.6 in the standard branch) |
| CongestionControl.WindowInRange | test-bed-rswift/cpps/rdmacc.cpp:79-88 | between update and clamp the window is in (0.01, 20.5], and in [0.05, 20] otherwise |
| CongestionControl.DecreaseIsMarked | test-bed-rswift/cpps/rdmacc.cpp:89-93 | the decrease time moves exactly when the window strictly falls, which needs the time gate since the last fall to be passed |
| CongestionControl.WhenLate | test-bed-rswift/cpps/rdmacc.cpp:130-132 | the time gate of a decrease: with a positive frequency the elapsed time is longer; with frequency zero any tick has passed |
| CongestionControl.StandardStep | test-bed-rswift/cpps/rdmacc.cpp:156-157 | one standard increase adds between 1 and 1.25 to the square of the window |
| CongestionRuns.SmoothedWithin | test-bed-rswift/cpps/rdmacc.cpp:60-77 | over any run the smoothed RTT stays between the least and the greatest clamped sample |
| CongestionRuns.DecreasesTakeTime | test-bed-rswift/cpps/rdmacc.cpp:58-99 | with a positive frequency, k strict decreases take more than k times the least clamped sample |
| CongestionRuns.KDecreasesTakeKBaseRtts | test-bed-rswift/cpps/rdmacc.cpp:58-99 | with a positive frequency, k strict decreases take more than k base RTTs |
| CongestionRuns.ZeroFrequencyNeverWaits | test-bed-rswift/cpps/rdmacc.cpp:127-174 | with frequency zero an acknowledgement above target lowers the window iff a tick has passed and the window is not at its floor |
| CongestionRuns.ZeroFrequencyRun | test-bed-rswift/cpps/rc_client.cpp:418-422 | so over a run above a fixed target every acknowledgement is a decrease until the floor is reached |
| CongestionRuns.DecreaseKeeps | test-bed-rswift/cpps/rdmacc.cpp:127-174 | a decrease keeps more than 0.2 of the window, at least 0.6 outside the steep branch |
| CongestionRuns.GrowthSoFar | test-bed-rswift/cpps/rdmacc.cpp:142-160 | from any window, the square of the window after n acknowledgements at or below a fixed target is at least n - 0.9, or the window is full |
| CongestionRuns.WindowFills | test-bed-rswift/cpps/rdmacc.cpp:142-160 | 401 or more acknowledgements at or below a fixed target leave the window at exactly 20 |
| CongestionRuns.SquareGrowth | test-bed-rswift/cpps/rdmacc.cpp:151-160 | along n unclamped standard increases the square of the window grows by at least n and at most 1.25 n |
| CongestionResponses.TargetIsInverseSqrt | test-bed-rswift/cpps/rdmacc.cpp:39-40 | target differences are to 25 as differences of one over the root of the window are to that between 0.1 and 14 |
| CongestionResponses.AckAverages | test-bed-rswift/cpps/rdmacc.cpp:60-77 | a sample moves the smoothed RTT by a fifth of its distance, and the difference average is a fifth of the old and four fifths of the new difference |
| CongestionResponses.LevelHistory | test-bed-rswift/cpps/rdmacc.cpp:63-77 | after equal samples the averages are that sample and zero |
| CongestionResponses.DifferenceFades | test-bed-rswift/cpps/rdmacc.cpp:75-75 | each further equal sample leaves a fifth of the difference |
| CongestionResponses.JumpShows | test-bed-rswift/cpps/rdmacc.cpp:63-77 | over a run, a jump after a level history shows as eight tenths of it and fades by fifths |
| CongestionResponses.RiseIsAnswered | test-bed-rswift/cpps/rdmacc.cpp:127-173 | above target a rise from level is steep iff it is more than 37.5, and the share of the window kept is stated in terms of the rise |
| CongestionResponses.RiseAfterLevel | test-bed-rswift/cpps/rdmacc.cpp:58-99 | the same at the end of a run of equal samples |
| CongestionResponses.FallIsAnswered | test-bed-rswift/cpps/rdmacc.cpp:142-160 | at or below target a fall of more than 37.5 adds a full half segment, otherwise the standard increase |
| CongestionResponses.ClampIsNearest | test-bed-rswift/cpps/rdmacc.cpp:83-88 | the clamp keeps windows in [0.05, 20] and takes others to the nearer bound |
| CongestionResponses.KDecreasesInTicks | test-bed-rswift/cpps/rdmacc.cpp:130-132 | k decreases take more than k base RTTs counted in clock ticks |
| RdmaFlow.PackFacts | test-bed-rswift/headers/rc_pingpong.hpp:724-737 | packing and unpacking an id is lossless below 2^56, fits 64 bits and keeps the ring slot |
| RdmaFlow.PackTooLarge | test-bed-rswift/headers/rc_pingpong.hpp:726-730 | a sequence number that does not fit is reduced to its ring slot |
| RdmaFlow.SenderKeepsInv | test-bed-rswift/cpps/rc_client.cpp:36-104 | every micro-step of the sender keeps slots distinct, stamps intact and the window bound |
| RdmaFlow.SenderPosts | test-bed-rswift/headers/rc_pingpong.hpp:767-775 | posting a segment whose slot is free cannot clash with an outstanding one |
| RdmaFlow.InflightNonNegative | test-bed-rswift/headers/rc_pingpong.hpp:781-781 | the in-flight counter stays between 0 and 20 |
| RdmaFlow.SeeBusy | test-bed-rswift/cpps/rc_client.cpp:174-175 | a busy slot seen by the poller is that of the completed segment, whose stamp and count are already done |
| RdmaFlow.CreditKeepsInv | test-bed-rswift/cpps/rc_client.cpp:177-178 | the counter is at least one when it is decremented |
| RdmaFlow.RttKeepsInv | test-bed-rswift/cpps/rc_client.cpp:184-187 | the time stamp used for the RTT is the one written for that same segment |
| RdmaFlow.UpdateKeepsInv | test-bed-rswift/cpps/rc_client.cpp:194-194 | a sender that reads the window before the clamp still sees a value in (0.01, 20.5] |
| RdmaFlow.FreeKeepsInv | test-bed-rswift/cpps/rc_client.cpp:195-196 | freeing the slot frees exactly one segment and keeps every other slot held |
| RdmaProtocol.NextKeepsInv | test-bed-rswift/cpps/rc_client.cpp:29-201 | every step of any thread or of the card keeps the invariant of the whole client |
| RdmaProtocol.InitInv | test-bed-rswift/headers/rc_client.hpp:21-33 | initial states satisfy it |
| RdmaRuns.EveryRunIsSafe | test-bed-rswift/cpps/rc_client.cpp:29-201 | in every state of every interleaving: no shared slot, no underflow, right stamps, at most 20 uncredited segments, batches within the ring, each segment posted once and in order, countdown never negative and zero only when everything is delivered |
| RdmaRuns.QuietSenderAdvances | test-bed-rswift/cpps/rc_client.cpp:36-104 | with nothing outstanding every sender step brings a post nearer |
| RdmaRuns.QuietSenderAttempts | test-bed-rswift/cpps/rc_client.cpp:36-104 | wherever it is in its loop, with every posted slot freed and work left, the sender attempts a post within a bounded number of its steps |
| RdmaRuns.ReadyAdvances | test-bed-rswift/cpps/rc_client.cpp:45-96 | with a zero counter, work left and a free next slot every sender step brings a post nearer, whatever the poller is doing |
| RdmaRuns.AttemptsIffSlotFree | test-bed-rswift/cpps/rc_client.cpp:36-104 | with a zero counter and work left, a sender at the top of its loop attempts a post iff the slot of its next segment is free |
| RdmaRuns.BusyWhileHandled | test-bed-rswift/cpps/rc_client.cpp:174-196 | with a zero counter that slot is busy iff the poller is between crediting and freeing a segment of the same slot |
| RdmaRuns.SomeStepHelps | test-bed-rswift/cpps/rc_client.cpp:119-199 | in every unfinished state some step lowers the remaining work, so no state is a deadlock |
| RdmaRuns.CanFinish | test-bed-rswift/cpps/rc_client.cpp:119-199 | from every state of the invariant some continuation reaches the state where all is delivered and all threads have returned |
| RdmaRuns.EveryRunCanFinish | test-bed-rswift/cpps/rc_client.cpp:119-199 | the same from the end of every finite run whose poller has not failed |
| RdmaFairness.StepTodo | test-bed-rswift/cpps/rc_client.cpp:29-201 | no step adds to what is left to do; each step of poller or card and each successful post takes some away |
| RdmaFairness.FewProductiveSteps | test-bed-rswift/cpps/rc_client.cpp:29-201 | every run, in any interleaving, takes at most a hundred such steps for each segment, and seven |
| RdmaFairness.SlotGetsBusy | test-bed-rswift/headers/rc_pingpong.hpp:769-783 | after the last productive step the poller's wait for a busy slot still ends, because the sender in the middle of its post marks it |
| RdmaFairness.FairRunsFinish | test-bed-rswift/cpps/rc_client.cpp:119-199 | every fair run in which in the end posts succeed, completions arrive and polling does not fail comes to where every segment is delivered, all threads have returned and the countdown is zero, and stays there |
| RdmaFairness.FairRunExists | test-bed-rswift/cpps/rc_client.cpp:119-199 | such runs exist from every initial state |
| RdmaClock.ControllersFollow | test-bed-rswift/cpps/rc_client.cpp:194-194 | along any client run under a monotone clock each flow's controller is where the acknowledgements it has handled, in order of time, take it |
| RdmaClock.ClientDecreasesTakeTime | test-bed-rswift/cpps/rdmacc.cpp:58-99 | so with a positive frequency k window decreases of a flow take more than k base RTTs in every client run |
| RdmaTiming.BatchIsMaximal | test-bed-rswift/cpps/rc_client.cpp:45-96 | a pass of the sender comes to a batch that no further segment could join: window, quota or next slot forbid it |
| RdmaTiming.StampsAreReadings | test-bed-rswift/headers/rc_pingpong.hpp:766-780 | in every run each stamp is the clock reading of its batch and 1308 for each earlier segment of that batch |
| RdmaTiming.MeasuresElapsed | test-bed-rswift/cpps/rc_client.cpp:184-187 | the measured RTT is the time from the stamp of that very segment to the completion, in a 64-bit word |
| RdmaTiming.EverySampleIsElapsed | test-bed-rswift/cpps/rc_client.cpp:166-194 | in every run each sample given to a controller is, in microseconds, the time from the reading of the segment's batch, plus 1308 for each earlier one, to its completion |
| TypeNames.MarkScopes | simulation-ret/utils/print-introspected-doxygen.cc:369-379 | the in-place replacement puts the mark after every scope operator, once |
| TypeNames.MarkedReadsBack | simulation-ret/utils/print-introspected-doxygen.cc:345-355 | removing the marks gives the name back |
| TypeNames.ScopesAreMarked | simulation-ret/utils/print-introspected-doxygen.cc:345-355 | the mark stands after every scope operator of the result and nowhere else |
| TypeGather.WalksAreAll | simulation-ret/utils/print-introspected-doxygen.cc:266-367 | the list of walks holds each walk that never revisits a type exactly once, and nothing else |
| TypeGather.StaticInformation.DoGather | simulation-ret/utils/print-introspected-doxygen.cc:266-367 | ends, restores both stacks, and appends exactly one entry for each walk |
| TypeGather.StaticInformation.Gather | simulation-ret/utils/print-introspected-doxygen.cc:257-264 | the output is sorted and duplicate-free and gains exactly the entries of the walks |
| TypeGather.StaticInformation.Follow | simulation-ret/utils/print-introspected-doxygen.cc:295-299 | pushing, recursing and popping leaves both stacks as they were |
| TypeGather.StaticInformation.GetCurrentPath | simulation-ret/utils/print-introspected-doxygen.cc:211-221 | the text of the path |
| TypeGather.StaticInformation.HasAlreadyBeenProcessed | simulation-ret/utils/print-introspected-doxygen.cc:229-240 | found iff the type is on the stack |
| TypeGather.EntriesOfWalks | simulation-ret/utils/print-introspected-doxygen.cc:266-367 | the recorded entries are those of the walks, as a set |
| TypeGather.SortedIsUnique | simulation-ret/utils/print-introspected-doxygen.cc:262-263 | a strictly sorted output is determined by its members |
| TypeGather.EntryOrder | simulation-ret/utils/print-introspected-doxygen.cc:262-262 | the order on entries is a strict total order |
| TypeRoutes.EdgesAre | simulation-ret/utils/print-introspected-doxygen.cc:275-366 | an edge is followed iff a pointer not to Object, a container, a registered child, or an aggregation with the type at either end gives it |
| TypeRoutes.LabelIs | simulation-ret/utils/print-introspected-doxygen.cc:320-323 | a label is a dollar sign, the mark, and the name with the mark after every scope operator |
| TypeRoutes.EntriesAreRoutes | simulation-ret/utils/print-introspected-doxygen.cc:266-367 | the recorded entries are exactly the ends and texts of the routes along such edges that never come back to a type |
| TypeRoutes.AggregationGoesBothWays | simulation-ret/utils/print-introspected-doxygen.cc:331-366 | gathering either type of an aggregation yields an entry for the other |
| TypeRoutes.AttributesAndChildrenLead | simulation-ret/utils/print-introspected-doxygen.cc:275-330 | containers yield entries for their items with "/[i]", pointers for their targets, parents for their children |
| TypeRoutes.OutputOrder | simulation-ret/utils/print-introspected-doxygen.cc:262-263 | the output is ordered by type and then lexicographically by path |
| WorkerPool.StepKeepsInv | simulation-ret/test.py:921-989 | every step of every thread, and an interrupt at any moment, keeps each taken ticket in exactly one place and each result truthful |
| WorkerPool.HeldAlone | simulation-ret/test.py:923-989 | no other hand or queue holds the job a worker has |
| WorkerRuns.EveryRunConserves | simulation-ret/test.py:921-989 | in every state of every run each job that was put exists exactly once |
| WorkerRuns.StartedAtMostOnce | simulation-ret/test.py:921-989 | in no run does a job's process start twice, nor at all for a job handed back as skipped or interrupted |
| WorkerRuns.LaunchedOnce | simulation-ret/test.py:935-975 | the step that starts a process starts one that was not started before, of a job that is not to be skipped |
| WorkerRuns.EachCollectedOnce | simulation-ret/test.py:1590-1597 | when as many results as tasks are in, there is one for each task |
| WorkerRuns.StopsAtEnd | simulation-ret/test.py:1575-1578 | each worker has ended on a stop job of its own |
| WorkerRuns.CountsAreRight | simulation-ret/test.py:1590-1619 | each counter is the number of tasks with that fate, in whatever order the results came |
| WorkerRuns.EveryEndIsAccounted | simulation-ret/test.py:1800-1803 | total = passed + failed + valgrind + crashed + skipped + interrupted; exit status 0 iff every task passed or was skipped; nothing is interrupted without an interrupt |
| WorkerRuns.CountersByCode | simulation-ret/test.py:1603-1619 | the counters are the numbers of launched tasks that ended with 0, 1, 2 and anything else, and of tasks handed back unrun |
| WorkerRuns.NothingStartsAfterInterrupt | simulation-ret/test.py:930-938 | a task that no worker has taken when the interrupt comes is never started and is handed back as a break |
| WorkerRuns.CollectResults | simulation-ret/test.py:1586-1619 | the counter loop, and status 0 iff every result passed or was skipped |
| WorkerRuns.EveryRunIsFinite | simulation-ret/test.py:921-989 | no run is longer than 7 steps a task, 8 a worker and one more |
| WorkerRuns.NeverStuck | simulation-ret/test.py:1575-1737 | with at least one worker, or no task, some thread can move until every worker is joined |
| WorkerRuns.NoWorkersNoEnd | simulation-ret/test.py:1313-1316 | without workers a run with tasks never ends |
| ShellParser.EnvMatchReadsBack | simulation-ret/waf-tools/shellcmd.py:23-23 | a word, an equals sign and a value without blanks, maybe with a newline after it, is matched as that assignment |
| ShellParser.Pipeline.Parse | simulation-ret/waf-tools/shellcmd.py:120-200 | the token loop computes the specified result, failing where an assertion does |
| ShellGrammar.PrintParses | simulation-ret/waf-tools/shellcmd.py:134-200 | parsing the tokens of any well-formed line, with redirections and arguments in any order, gives its nodes |
| ShellGrammar.ParsedIsWellFormed | simulation-ret/waf-tools/shellcmd.py:134-200 | whatever the tokens, a result alternates commands and operators, and a command's output is piped iff a pipe follows |
| ShellGrammar.ResultsAreWellFormed | simulation-ret/waf-tools/shellcmd.py:134-200 | a node list is a result of parsing iff it is well formed, and then it is the meaning of a printable line |
| ShellAccepts.AcceptedIsPrinted | simulation-ret/waf-tools/shellcmd.py:134-200 | any accepted token list is the printed form of a well-formed line with that meaning |
| ShellAccepts.AcceptsExactlyLines | simulation-ret/waf-tools/shellcmd.py:134-200 | so a token list is accepted with a result iff it is the printed form of a well-formed line that means it |
| ShellRunner.ExecPipedCommands | simulation-ret/waf-tools/shellcmd.py:202-211 | the status of a pipe is that of its last command |
| ShellRunner.JoinAssociates | simulation-ret/waf-tools/shellcmd.py:227-227 | changing directory twice is changing to the joined directory |
| ShellRunner.RunPipeline | simulation-ret/waf-tools/shellcmd.py:213-345 | the loop's launches and outcome, for any node list |
| ShellRunner.RunsTree | simulation-ret/waf-tools/shellcmd.py:213-345 | for the nodes of any tree of pipes the loop is the right-nested evaluation |
| ShellRunner.LaunchesInOrder | simulation-ret/waf-tools/shellcmd.py:250-290 | commands are started in order and once each, and each reads from its predecessor iff that one's output is piped |
| ShellPlaces.JoinIsPosix | simulation-ret/waf-tools/shellcmd.py:227-227 | an absolute directory replaces the current one, a relative one follows it after exactly one slash |
| ShellPlaces.ExecStartsInOrder | simulation-ret/waf-tools/shellcmd.py:241-290 | whatever the statuses, the processes of a parsed line are its first commands, each in the directory that the changes before it lead to, with its own arguments, environment and streams |
| ShellRunner.AgreesUnlessMixed | simulation-ret/waf-tools/shellcmd.py:310-345 | the right-nested reading agrees with left-associative lists for all exit statuses iff && and \|\| are not mixed |
| ShellPrograms.TreeFor | simulation-ret/waf-tools/shellcmd.py:213-345 | every well-formed list with complete changes of directory is the list of a tree |
| ShellPrograms.ParsedLineRuns | simulation-ret/waf-tools/shellcmd.py:120-345 | a parsed line with complete changes of directory runs as its right-nested tree, with every process at its place, for all exit statuses |
| ShellPrograms.ParsedRunOutcome | simulation-ret/waf-tools/shellcmd.py:213-345 | a parsed line never ends without a status and can fail only on an incomplete change of directory |
| ShellPrograms.RunnableIffNeverFails | simulation-ret/waf-tools/shellcmd.py:222-232 | a parsed line returns a status whatever its commands return iff its changes of directory are complete |
| Patchset.NumberOfDecimal | simulation-ret/utils/check-style.py:193-195 | a printed position is read back |
| Patchset.ChunkTextCounts | simulation-ret/utils/check-style.py:189-197 | the header of a written chunk counts the body lines that begin with - or a blank, and with + or a blank |
| PatchRoundTrip.LineLexed | simulation-ret/utils/check-style.py:157-165 | a written line is recognized as itself unless it looks like a file name |
| PatchRoundTrip.HeaderLexed | simulation-ret/utils/check-style.py:193-195 | a written chunk header is recognized with its positions |
| PatchRoundTrip.LexedIsOk | simulation-ret/utils/check-style.py:221-264 | whatever the line, the recognized text is newline-free and does not look like a file name |
| PatchRoundTrip.RoundTrip | simulation-ret/utils/check-style.py:157-265 | a patch set is read back unchanged from its text iff it is printable |
| PatchRoundTrip.ParsedRoundTrips | simulation-ret/utils/check-style.py:221-265 | whatever was parsed can be written and parsed again without change |
| PatchLines.LexedByMark | simulation-ret/utils/check-style.py:222-264 | what a line is, by how it begins |
| PatchLines.ChunkMatchIs | simulation-ret/utils/check-style.py:224-224 | a line is a chunk header iff it has the form with four numbers, of which the first and third are the positions |
| PatchLines.ParsedIs | simulation-ret/utils/check-style.py:228-265 | parsing fails iff some line is misplaced; else the patches have the names and sizes of the headers, and each chunk the contents up to the next chunk header |
| PatchObjects.ChunkObject.Write | simulation-ret/utils/check-style.py:193-197 | appends the chunk's text, whose header counts the lines of its body by their marks, and fails iff some line was never set |
| PatchObjects.PatchObject.Write | simulation-ret/utils/check-style.py:215-219 | appends the patch's text, and fails iff some line was never set |
| PatchObjects.ParsePatchset | simulation-ret/utils/check-style.py:221-265 | fails iff the specified parse fails; otherwise builds fresh patches that share no chunk and look like the parsed values |
| PatchObjects.ParseLine | simulation-ret/utils/check-style.py:230-264 | one line changes only the current patch or chunk, as specified |
| Tokenizer.Parser.Tokenize | test-bed-rswift/headers/cmdline.h:372-406 | the index loop splits at exactly the unescaped blanks outside quotes, and records the one error that applies |
| Tokenizer.TokenizeUndoesQuoting | test-bed-rswift/headers/cmdline.h:372-406 | tokenizing quoted arguments gives all of them but an empty last one, so the list itself iff it is empty or its last is not |
| Tokenizer.QuotingIsInjective | test-bed-rswift/headers/cmdline.h:372-406 | quoted texts are equal only for lists equal up to an empty last argument |
| TokenizerQuotes.RejectedIff | test-bed-rswift/headers/cmdline.h:377-403 | a text is rejected iff it ends in an odd number of backslashes, or else has an odd number of quotes behind an even number of them |
| TokenizerQuotes.TokenizeUndoesSpelling | test-bed-rswift/headers/cmdline.h:372-406 | however arguments are spelled, with backslashes, quotes or both, tokenizing gives all but an empty last one |
| BinaryCounter.Int2BinIsRight | simulation-ret/bindings/python/rad_util.py:91-105 | the conversion keeps the value, succeeds for n > 0 iff the number fits, and rejects negative numbers |
| BinaryCounter.Bin2IntUndoesInt2Bin | simulation-ret/bindings/python/rad_util.py:108-130 | reading back what was converted gives the number |
| BinaryCounter.Increment | simulation-ret/bindings/python/rad_util.py:649-659 | one round adds one in place and leaves the carry in the last toggle |
| BinaryCounter.BinaryRange | simulation-ret/bindings/python/rad_util.py:639-660 | for a positive width lists 2^width strings of which the k-th is the conversion of k; none for width 0 |
| BinaryCounter.StringOfValue | simulation-ret/bindings/python/rad_util.py:74-105 | a binary string is the conversion of its value at its own width |

## Left out

- Floating-point rounding, clock readings and frequency measurement: real numbers, and readings that are parameters; the square root is a parameter too.
- RDMA verbs, sockets, address exchange and the server program: posting and polling are free choices of the environment.
- Weaker memory orders: accesses to the ring and the window are sequentially consistent in the model. The atomicity of reading a double is assumed.
- RdmaProtocol.NextKeepsInv: clock readings of updates are arbitrary here, because safety does not need a clock; `RdmaClock` adds a monotone one.
- RdmaRuns.CanFinish: speaks of one continuation only; the statement about every fair run is `RdmaFairness.FairRunsFinish`.
- RdmaRuns.EveryRunCanFinish: the same.
- RdmaRuns.QuietSenderAttempts: assumes that every posted slot is freed, but starts anywhere in the loop; the exact guard at the top of the loop is `RdmaRuns.AttemptsIffSlotFree`.
- RdmaFlow.SenderKeepsInv: the pacing sleep of a window below one only takes time and is not a step of its own.
- Sequence numbers at or above 2^56: the flows' quotas are below it, so the branch of the packing that warns is in the model of packing but not exercised by the protocol.
- Generators of `topsort_levels` and `find_cycles`: modelled as the list of everything that they yield when run to the end.
- TopSort.TopSort: the dictionary order in which equal candidates appear is left open.
- TypeGather.StaticInformation.Follow: the three copies of push, recurse and pop are one method here, and the three loops of the search are three methods.
- TypeGather.StaticInformation.DoGather: every type that an edge names is registered, as the type system guarantees; the mark is `%` or empty, the two that the program sets.
- The standard sort and the removal of adjacent duplicates are written out as an insertion sort and a loop; `IsChildOf` is a given relation.
- WorkerPool.StepKeepsInv: each job's process is assumed to end; reports, XML files and elapsed times are not modelled.
- ShellParser.Pipeline.Parse: takes the token list; splitting a string into tokens and debug output are not modelled.
- ShellRunner.RunPipeline: file handles, failures to open a file or to start a process, and verbose printing are not modelled; exit statuses are arbitrary.
- PatchObjects.ParsePatchset: a line object is set once and then only read, so lines are values here; chunks and patches are objects. The text written before a failing write is not described.
- BinaryCounter.Bin2IntUndoesInt2Bin: blanks, signs and prefixes that the library conversion also accepts are not modelled.
- The command-line parser behind the tokenizer, lexical casts and usage text: easy members.
- `grid.py`, `wutils.py`, the binding generators and the remaining waf tools: user interface and configuration.
