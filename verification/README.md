# Verification of the benchmark harness and its algorithms

A Dafny model of the parts of the repository whose correctness is hardest to
see by reading: the resumable journals that survive a kill between any two
writes, the threads of the trace queue, two fixpoint resolvers, the frontier
and the line breaker, the restarting worker sessions, the immutable
publication, and a handful of self-contained algorithms. `dafny verify
dfyconfig.toml` checks everything.

## How the parts are modelled

| module | repository file | form |
|---|---|---|
| `PointJournal` | `benchmarking/planning_eval/journal.py`, `active.py` | the files of a case and the atomic writes to them; a run is a sequence of writes, a crash leaves a prefix |
| `CaseController` | `benchmarking/planning_eval/worker.py`, `controller.py`, `journal.py` | a class whose methods write one case directory; `killAfter` kills the process after that many writes, and every method's contract says exactly which writes were done |
| `CollectionJournal`, `CollectionController` | `benchmarking/program_collection/journal.py`, `controller.py`, `resume.py`, `process.py` | the same two layers for the collection journal, with the workers' own result files |
| `TraceQueue`, `TraceRunner` | `benchmarking/stage_traces/queue.py` | interleaved atomic steps of the threads and the recorder; a class whose methods are those steps |
| `ExtrasClosure`, `Preferences` | `baselines/scripts/nvidia_versions.py` | the in-place loops as methods, proved against least closed sets |
| `Frontier`, `Wrapping`, `LineWidths` | `baselines/report.py`, `baselines/summary.py` | the loops as methods, proved against declarative specifications; `LineWidths` is about what the wrapped lines look like printed |
| `SessionSweep`, `SweepCases` | `baselines/moe_layer/persistent.py`, `sweep.py` | the nested loops as methods; a session is whatever its controller can observe of it; `SweepCases` lists the cases a sweep hands to its sessions |
| `Publication` | `benchmarking/_serialization.py`, `benchmarking/program_collection/artifacts.py` | racing publishers as interleaved steps with kills, and one publisher's view as a class |
| `Overlap`, `AllFinite` | `qualification/gap_report.py`, `baselines/moe_layer/validation.py` | the loops as methods |
| `LayerSpread`, `Decimals`, `PointIds`, `ConfigFile` | `baselines/common/geometry.py`, `benchmarking/planning_eval/config.py`, `matrix.py` | functions, with methods where the source loops |

Workers and the recoveries of a controller may be killed after any write. A
controller killed inside its restart loop leaves the directory of a legal run,
and `CaseController.CaseDirectory.ResumeCase` starts from any such directory.

A write that replaces a file by `os.replace` or `os.rename` is one step, with
the behaviour POSIX.1-2017 gives rename(). Planner results, marker evaluation,
version comparison, JSON canonical forms, what loading a saved program finds and
the finite test of a tensor are parameters.

## Where the code and its own words differ

* `journal.py:83` says an interrupted attempt is closed "without consuming its
  retry budget". The budget does skip it, but finality compares the attempt's
  ordinal, which counts it. `PointJournal.FinalityMatchesBudget` gives, for
  every legal run and the limit the configuration has, exactly when a point
  that ends in error has spent its budget: when none of its first
  `max_attempts - 1` attempts was interrupted.
  `PointJournal.RulesAgreeAtEveryLimit` says when the two rules agree whatever
  the limit, and `PointJournal.InterruptionCostsARetry` is a run in which a
  retry is lost.
* A complete case need not have final points: `controller.py:311` looks only
  for evidence, which is written before the journal that points at it.
  `PointJournal.EvidenceIsRecorded` says exactly which writes of a run leave
  evidence and finality, `CaseController.CompleteMeansFinal` exactly when a
  complete case is final, and `CaseController.CompleteWithoutFinality` is a run
  of which the case test says complete while a point is to be retried.
* `report.py:185` promises lines of at most `width` characters. The comma that
  ends every line but the last is not counted. `LineWidths.WrappedWidth` gives
  the exact condition on the text and the width: at every line start the part
  there fits and no proper prefix of what is left joins to exactly the width.
  `LineWidths.FilledIsTooWide` is a family of texts that break the promise and
  `LineWidths.FiveInsteadOfFour` the text `a, b, c` at width 4.
* `_serialization.py:68` promises true for an identical retry. The check made
  before staging looks twice, so a rename between its looks makes it report a
  complete artifact as incomplete
  (`Publication.IncompleteIffRenamedBetweenLooks`). The first publisher never
  parses its payload, so of text that is not JSON an identical retry would
  raise (`Publication.IdenticalRetry`); the one caller,
  `plan_artifacts.py:56`, passes a plan's own JSON, and of payloads that parse
  every comparison is answered (`Publication.ParsedRetry`).
* `queue.py:103` can raise although every outcome was posted: whenever it
  raises, every outcome has been posted and at least one of them is merely
  unread (`TraceQueue.RaiseOnlyInRace`; `TraceQueue.RaiseCanLoseAnOutcome` is
  a state that does).
* `sweep.py:141` accepts an option given twice, and then the case names, which
  name directories, repeat; they are distinct exactly when none is
  (`SweepCases.NamesDistinct`).
* `worker.py:46` lists no exception as "search exhausted", so of the four ways
  an attempt can be planned the model gives, `Exhausts` does not occur yet.
* A case of the program collection that has once succeeded is never given to a
  worker again, even when its saved program is later found corrupt: each
  resume then only adds a failed attempt of the controller's own
  (`CollectionJournal.SuccessIsNeverRerun`,
  `CollectionController.CollectedCase.Collect`).

## Model

| member | source | states |
|---|---|---|
| PointJournal.RunKeepsInv | benchmarking/planning_eval/journal.py:21-248 | after any run of the atomic writes, with a crash between any two, ordinals are 1..n, only the last attempt can be running, everything before it is an interruption or an error below the limit, and a final status has evidence of the same request and status |
| PointJournal.PointStepKeepsInv | benchmarking/planning_eval/journal.py:111-201 | each single write to one point keeps that invariant |
| PointJournal.StepKeepsInv | benchmarking/planning_eval/active.py:12-38 | so does each write to a case directory, with the active pointer on a started point of the case |
| PointJournal.SplitRun | benchmarking/planning_eval/journal.py:111-201 | a run is a prefix followed by a legal run from the disk the prefix left: a crash and a resume need no other model |
| PointJournal.FinalPointIsFrozen | benchmarking/planning_eval/journal.py:46-66 | once final, no later write of any run changes the point's journal or evidence |
| PointJournal.HistoryOnlyGrows | benchmarking/planning_eval/journal.py:133-146 | closed attempts are never rewritten and evidence is never withdrawn |
| PointJournal.CompletenessNeverFails | benchmarking/planning_eval/journal.py:46-66 | on every reachable disk the completeness test of a started point answers whether it is final and never raises |
| PointJournal.MaxOrdinalIsLength | benchmarking/planning_eval/journal.py:128-133 | with ordinals 1..n the largest one is n, so the next attempt is n + 1 |
| PointJournal.ExhaustionNeedsAnOrphan | benchmarking/planning_eval/worker.py:119-123 | for every reachable non-final point, the "exhausted attempts" error is reached exactly when an orphaned running attempt is the last one the budget allows |
| PointJournal.ChargedIsBelowLimit | benchmarking/planning_eval/journal.py:69-76 | interruptions and errors below the limit never use up the budget |
| PointJournal.ChargedPlusInterruptions | benchmarking/planning_eval/journal.py:76 | the charged attempts and the interruptions are all the attempts |
| PointJournal.FinalityMatchesBudget | benchmarking/planning_eval/journal.py:69-83 | for every legal run, at the configured limit: with an error last, the ordinal rule for finality and the budget agree exactly when the attempt is below the limit or none of the first max - 1 was interrupted; a point ending in error has at least max attempts, at most max of them charged, and exactly max under that same condition |
| PointJournal.RulesAgreeAtEveryLimit | benchmarking/planning_eval/journal.py:69-83 | the two rules agree for every limit exactly when no attempt was interrupted |
| PointJournal.InterruptionCostsARetry | benchmarking/planning_eval/journal.py:225-226 | a legal run ending final with one charged attempt out of two |
| PointJournal.EvidenceIsRecorded | benchmarking/planning_eval/journal.py:197-201 | for every legal run and point: there is evidence exactly when the run wrote it, and the point is final exactly when the run closed it as final |
| PointJournal.EvidenceMayPrecedeFinality | benchmarking/planning_eval/journal.py:197-201 | a legal run, evidence written and never closed on, that leaves evidence of success beside a running attempt |
| CaseController.AttemptCrashStates | benchmarking/planning_eval/worker.py:176-292 | for a kill after every number of writes of one attempt: what the attempt, the pointer and finality then are; the attempt is left running only with the pointer on it or in the one gap before the pointer is written |
| CaseController.RecoveryClosesOnce | benchmarking/planning_eval/journal.py:79-108 | both recoveries close exactly the running attempt, leave all else alone, and change nothing when run again |
| CaseController.KilledRecoveryResumes | benchmarking/planning_eval/journal.py:204-248 | a recovery killed after any number of its writes and run again leaves the point as an unkilled one would |
| CaseController.CaseCompleteMeansEvidence | benchmarking/planning_eval/controller.py:298-319 | on reachable disks the case test never raises and answers whether every listed point has evidence |
| CaseController.FinalIsEvidenced | benchmarking/planning_eval/controller.py:311-319 | a case with all points final is complete |
| CaseController.CompleteMeansFinal | benchmarking/planning_eval/controller.py:298-319 | for every legal run that leaves a case complete: all its points are final exactly when no point's evidence was written without its journal being closed on it |
| CaseController.CompleteWithoutFinality | benchmarking/planning_eval/controller.py:311-319 | a legal run ending with nothing running, the case test answering complete and a point not final |
| CaseController.RecoveredWorker | benchmarking/planning_eval/controller.py:249-295 | recovery of the active point leaves a running attempt only if one was there before the worker, or the worker died in the gap |
| CaseController.CaseDirectory.RecordRequest | benchmarking/planning_eval/journal.py:28 | the request file is written once and a different one is refused |
| CaseController.CaseDirectory.InitializePoint | benchmarking/planning_eval/journal.py:21-43 | exactly the missing files are written, the request's first, up to the kill; a new journal is pending without attempts; on a directory the program wrote it is never refused; a started point is left as it was |
| CaseController.CaseDirectory.CreateJournal | benchmarking/planning_eval/journal.py:31-43 | the empty journal is written once, for the request recorded beside it |
| CaseController.CaseDirectory.BeginAttempt | benchmarking/planning_eval/journal.py:111-147 | one write appending the next ordinal as running, refused without a write when one is running; on a final point it would write too, and the run stays legal for every other |
| CaseController.CaseDirectory.FinishAttempt | benchmarking/planning_eval/journal.py:150-201 | for any outcome and finality the exact refusals, and otherwise evidence before the journal for a final outcome, one write for a retry; the run stays legal when finality is decided as the worker decides it |
| CaseController.CaseDirectory.FinishError | benchmarking/planning_eval/worker.py:295-345 | the same through the error path, with a failing console reported after the writes |
| CaseController.CaseDirectory.CloseSuccess | benchmarking/planning_eval/worker.py:224-290 | the writes of a success whatever the console does, and which error a failing console turns into |
| CaseController.CaseDirectory.TryPoint | benchmarking/planning_eval/worker.py:191-292 | unless killed: a plan closes the running attempt and the point as succeeded, an expected infeasibility as infeasible, an exhausted search as search exhausted, all with evidence of that name; any other exception closes it as an error, with evidence at the limit and for a retry below; then the pointer is cleared |
| CaseController.CaseDirectory.EvaluatePoint | benchmarking/planning_eval/worker.py:157-292 | one attempt's exact writes, cut where the process is killed; an announced attempt that is not killed adds exactly one attempt under the name its planner's answer has, with evidence of that name unless it is to be retried; it ends well exactly when both lines could be printed |
| CaseController.CaseDirectory.Retry | benchmarking/planning_eval/worker.py:119-141 | one turn of the retry loop: an unharmed turn adds one attempt, as its planner answered, and a point still not final is below the limit; an orphan is refused as exhausted exactly when it is the last the budget allows; every failure is traced to a kill or to the console |
| CaseController.CaseDirectory.CompletePoint | benchmarking/planning_eval/worker.py:117-143 | the retry loop terminates; a normal return leaves the point final: as it was, or ended by the last of the attempts added, all before that one having failed; a point found running is left untouched and refused |
| CaseController.CaseDirectory.EvaluatePoints | benchmarking/planning_eval/worker.py:116-143 | the loop over the points: a normal return has completed every one, in order, and an error stops it at one point, the only one it can leave running |
| CaseController.CaseDirectory.EvaluateCase | benchmarking/planning_eval/worker.py:69-154 | a worker that returns leaves every point final, each that was not by attempts of which every one is named after its planner's answer and all but the last failed; one that fails on a healthy console was killed; it leaves at most one point newly running, recoverable unless its very last write began the attempt |
| CaseController.CaseDirectory.RecoverRunning | benchmarking/planning_eval/journal.py:204-248 | the killed attempt is closed as an error, final at the limit, and the answer is whether the point is final; killed itself, it has written exactly a prefix of those writes |
| CaseController.CaseDirectory.RecoverActivePoint | benchmarking/planning_eval/controller.py:249-295 | the pointer never disagrees with the journal, the point it names is recovered, nothing else changes and the pointer is cleared last; killed, it has written exactly a prefix of that |
| CaseController.CaseDirectory.RecoverInterruptedPoints | benchmarking/planning_eval/controller.py:150-173 | after resume no attempt is running, every point is what its own recovery makes of it, and the count is right; killed on the way, every point is as it was or as it would have become |
| CaseController.CountIsSize | benchmarking/planning_eval/controller.py:150-173 | the count of recovered points is the number of points that were running |
| CaseController.CaseDirectory.CheckComplete | benchmarking/planning_eval/controller.py:298-319 | the test answers on every reachable directory |
| CaseController.CaseDirectory.Restart | benchmarking/planning_eval/controller.py:191-232 | one worker and its recovery: complete, or the exact reason why not |
| CaseController.CaseDirectory.Turn | benchmarking/planning_eval/controller.py:189-232 | one turn of the restart loop: a case already complete is returned at once and nothing is launched or written; otherwise one worker more, complete or with what was stuck still stuck |
| CaseController.CaseDirectory.RunUntilComplete | benchmarking/planning_eval/controller.py:176-236 | on a case already complete with restarts left it succeeds without a worker or a write; on another it launches at least one and at most those left; it ends complete, all points final exactly when no evidence was left unclosed, or with the restart limit used up; a running point without evidence at the start always uses up the limit; with an unharmed restart and no gap it completes |
| CaseController.CaseDirectory.ResumeCase | benchmarking/planning_eval/controller.py:87-236 | a case found complete is skipped without a worker, whatever restarts are left; otherwise a resumed controller with one unharmed restart completes it, unless a process was stopped in the gap; completion means the same as for the restart loop |
| CollectionJournal.RunKeepsInv | benchmarking/program_collection/journal.py:20-124 | after any run of writes and late deliveries: ordinals 1..n, only the last attempt running, launched ordinals within the limit, results only of launched attempts, and a succeeded case traceable to a passing result of the same program |
| CollectionJournal.HistoryOnlyGrows | benchmarking/program_collection/journal.py:54-81 | closed attempts and delivered results are never rewritten |
| CollectionJournal.SuccessIsNeverRerun | benchmarking/program_collection/controller.py:63-94 | once an attempt succeeded no later write of any run launches a worker |
| CollectionJournal.OneSuccess | benchmarking/program_collection/controller.py:88-94 | at most one attempt of a case ever succeeds; every launched ordinal is at most the limit |
| CollectionJournal.ProgramNeverChanges | benchmarking/program_collection/resume.py:48-63 | all journals of a run that say the case succeeded name the same program and archive, however often the tree moved and the reference was repaired |
| CollectionJournal.SuccessNeedsEvidence | benchmarking/program_collection/process.py:110-192 | a worker that exited counts as succeeded exactly when it exited cleanly and its result passed, names this request and claims a program that loads where it says under that digest, and as failed in every other case |
| CollectionJournal.LatestSuccessFinds | benchmarking/program_collection/resume.py:67-99 | the backward search finds evidence exactly when some attempt succeeded, and it is that attempt's |
| CollectionJournal.StandingMeans | benchmarking/program_collection/resume.py:31-47 | recorded evidence stands exactly when a directory, the one referred to or else the one its digest belongs in, loads with the same program and archive digest; what is returned refers to where it was loaded |
| CollectionController.EvidenceMeansSuccess | benchmarking/program_collection/resume.py:18-31 | on reachable journals there is evidence to validate exactly when some attempt succeeded |
| CollectionController.RepairIsMadeOnce | benchmarking/program_collection/resume.py:39-63 | where stored references lead back to their directories, the repaired journal stands as recorded and the next pass writes nothing |
| CollectionController.AdoptionIsEnabled | benchmarking/program_collection/controller.py:267-309 | finishing a running journal from its delivered result never meets a journal error and never makes a second success |
| CollectionController.DeliveredIsAdopted | benchmarking/program_collection/controller.py:267-309 | a valid result delivered before the controller was lost becomes its attempt's success, without a new attempt |
| CollectionController.AdoptionMeans | benchmarking/program_collection/controller.py:267-309 | adopting changes nothing while no result was delivered; otherwise the running attempt is closed, as a success exactly when its result proves one and as a failure when not |
| CollectionController.LaunchIsEnabled | benchmarking/program_collection/controller.py:145-189 | whatever the worker delivers and however it ends, its attempt can be finished |
| CollectionController.CollectedCase.BeginAttempt | benchmarking/program_collection/journal.py:42-81 | one write: an orphan becomes interrupted, every other attempt stays, and the next ordinal is running; past the limit or after a success it would write too, and the run stays legal otherwise |
| CollectionController.CollectedCase.FinishAttempt | benchmarking/program_collection/journal.py:84-117 | for any outcome: refused without a write unless the ordinal is the current running one, otherwise one write with a portable reference; the run stays legal when a success is the worker's own |
| CollectionController.CollectedCase.PreviousSuccess | benchmarking/program_collection/resume.py:67-99 | the loop computes what the latest succeeded attempt delivered |
| CollectionController.CollectedCase.CompletedArtifact | benchmarking/program_collection/resume.py:18-64 | evidence that stands is returned under its portable reference and the journal then says so; it is written exactly when it did not say so before; evidence that does not stand is refused without a write |
| CollectionController.CollectedCase.RecoverWorkerResult | benchmarking/program_collection/controller.py:267-309 | the journal becomes the adopted one, with none of the source's errors reachable |
| CollectionController.CollectedCase.RecordControllerFailure | benchmarking/program_collection/controller.py:228-264 | one failed attempt of the controller's own, without an artifact; the attempt cannot have changed meanwhile |
| CollectionController.CollectedCase.RunOne | benchmarking/program_collection/controller.py:145-189 | one launch, its delivery and its outcome: a Ctrl-C records an interruption and is raised again, a timeout records a failure, and an exit records a success under a portable reference exactly when it was clean and the result proves it, a failure otherwise; "case attempt changed" is unreachable |
| CollectionController.CollectedCase.Collect | benchmarking/program_collection/controller.py:63-94 | adoption first; then skip, record, stop at the limit or launch, in that order; the collection stops exactly when a worker it launched was ended by Ctrl-C and goes on after a timeout or a failure; no worker for a case that has succeeded or succeeds by adoption |
| TraceQueue.RunKeepsInv | benchmarking/stage_traces/queue.py:37-107 | in every state of every interleaving: cases conserved, sentinels behind the cases and one per waiting thread, the recorder a delayed observer of each GPU |
| TraceQueue.StepKeepsInv | benchmarking/stage_traces/queue.py:37-73 | each atomic step keeps it |
| TraceQueue.EachCaseInOnePlace | benchmarking/stage_traces/queue.py:76-107 | a pending case is in exactly one of the queue, one GPU, one unread end event and the finished list |
| TraceQueue.TakingNeverBlocks | benchmarking/stage_traces/queue.py:38-40 | a waiting thread always finds a job, and a sentinel only once no case is queued |
| TraceQueue.NormalExit | benchmarking/stage_traces/queue.py:98-107 | leaving the loop normally means one outcome per case, no active case, no unread event and nothing queued |
| TraceQueue.RecorderNeverStarves | benchmarking/stage_traces/queue.py:98-106 | while outcomes are missing and none is unread, some thread can step |
| TraceQueue.RecorderCanStep | benchmarking/stage_traces/queue.py:98-107 | the recorder always has a step until it has stopped, and leaves its loop exactly when every case has its recorded outcome |
| TraceQueue.RaiseOnlyInRace | benchmarking/stage_traces/queue.py:101-105 | whenever the recorder finds every thread gone after a timeout, every case has its outcome, recorded or posted and unread, at least one is unread, and nothing is queued or held |
| TraceQueue.NeverRaisesEarly | benchmarking/stage_traces/queue.py:98-106 | in every run without an interrupt: a recorder that has raised did so with every thread gone, nothing queued or on a GPU, and every outcome recorded or posted and unread |
| TraceQueue.RaiseCanLoseAnOutcome | benchmarking/stage_traces/queue.py:98-106 | a reachable state that raises with a completed outcome unread |
| TraceRunner.SelectAttempts | benchmarking/stage_traces/queue.py:16-34 | every case is finished or pending, in order and by its last outcome; a pending one gets the next attempt |
| TraceRunner.Queues.RecordEvent | benchmarking/stage_traces/queue.py:43-73 | the recorder's updates of the queue, the active map and the finished list are its step |
| TraceRunner.Queues.Perform | benchmarking/stage_traces/queue.py:37-112 | every method of the mutable queues is the step of the state machine it claims to be |
| TraceRunner.RunQueue | benchmarking/stage_traces/queue.py:76-115 | under any schedule the state is reachable; a run that did not raise has one outcome per case; one that raised without an interrupt had every thread gone and every outcome posted |
| ExtrasClosure.AppliesIsMonotone | baselines/scripts/nvidia_versions.py:103-105 | more extras never switch a requirement off |
| ExtrasClosure.LimitIsLeast | baselines/scripts/nvidia_versions.py:124-138 | the simultaneous iteration ends in the least closed assignment above its start |
| ExtrasClosure.SweepPackage | baselines/scripts/nvidia_versions.py:128-138 | a sweep of one package stays below every closed assignment, grows when it reports a change and finds the package satisfied when it does not |
| ExtrasClosure.InstalledExtras | baselines/scripts/nvidia_versions.py:124-149 | the in-place loop terminates in the least closed assignment, equal to the limit of the simultaneous iteration, and holds each package to exactly its requirements that have no marker or one that some extra asked of it turns on, as often and in the order listed |
| ExtrasClosure.OrderDoesNotMatter | baselines/scripts/nvidia_versions.py:126-138 | the result depends on which distributions there are, not on their order |
| Preferences.StaysIsMonotone | baselines/scripts/nvidia_versions.py:187-194 | holding more back only makes more packages stay |
| Preferences.Breaking | baselines/scripts/nvidia_versions.py:195-206 | one round finds exactly reasons that bind, for every proposal a staying package rejects |
| Preferences.HoldBack | baselines/scripts/nvidia_versions.py:181-215 | the loop terminates in the least settled set, whatever the listing order; each member has a reason, an installed package that is kept, held back, not proposed or proposed as installed and whose requirement rejects the proposal; every requirement of such a package admits the version chosen for its target |
| Frontier.SortedSorts | baselines/report.py:147 | the order scanned is sorted by cost, then worth, and has the same points |
| Frontier.FrontierOf | baselines/report.py:140-151 | the scan returns input points climbing strictly on both axes that weakly dominate every input |
| Frontier.FrontierIsNonDominated | baselines/report.py:141-143 | a value is on the frontier exactly when an input has it and no input beats it |
| Frontier.FrontierIsUnique | baselines/report.py:140-151 | any two frontiers of the same points have the same values in the same order |
| Frontier.BestWithin | baselines/summary.py:154-161 | the direct choice is a fitting point no fitting point exceeds, and none exactly when nothing fits |
| Frontier.BudgetAgreesWithFrontier | baselines/summary.py:151-164 | for every budget the last frontier member within it is worth the best that fits, and one exists exactly when the other does |
| Frontier.SummaryEntry | baselines/summary.py:151-164 | the scan and the frontier give the same throughput for the same budget |
| Wrapping.SplitThenJoin | baselines/report.py:189 | splitting at the separator and joining gives the text back |
| Wrapping.PartsUnbroken | baselines/report.py:189 | no part contains the separator |
| Wrapping.JoinThenSplit | baselines/report.py:189 | the parts of a text are the only ones without the separator that join to it |
| Wrapping.LinesRejoin | baselines/report.py:189-194 | the lines of any in-order grouping join to the text, one line per group |
| Wrapping.GreedyJoins | baselines/report.py:190-191 | joining a part that fits keeps the grouping best: fewest lines, and of those the fewest parts on the last |
| Wrapping.GreedyBreaks | baselines/report.py:192-193 | so does breaking before a part that does not fit |
| Wrapping.Wrapped | baselines/report.py:184-194 | the loop's lines are the greedy lines of the text from the front; they are the fewest of any in-order grouping whose lines of two or more parts fit, split no part and lose nothing |
| Wrapping.GreedySizesAppend | baselines/report.py:189-193 | filling lines from the front gives what the loop builds part by part: one part more goes on the last line if it fits and starts a line if not |
| LineWidths.PrintedJoins | baselines/report.py:194 | the printed lines, each but the last with its comma, are the text that is returned |
| LineWidths.WrappedWidth | baselines/report.py:184-194 | for every text and width: all printed lines are within the width exactly when at every line start the part fits and no proper prefix of the rest joins to exactly the width |
| LineWidths.FilledIsTooWide | baselines/report.py:185-194 | every text of more than m parts breaks the promise at the width its first m parts fill |
| LineWidths.FiveInsteadOfFour | baselines/report.py:185-194 | `a, b, c` at width 4 is printed with a line of five characters |
| SessionSweep.GroupIsMaximal | baselines/moe_layer/persistent.py:63-67 | a group is a maximal run of jobs with one interpreter, number of ranks, tuning and backend |
| SessionSweep.BackendLeads | baselines/moe_layer/persistent.py:31-37 | the backend is what stands before the first slash of a case name |
| SessionSweep.Scan | baselines/moe_layer/persistent.py:131-139 | a turn of the watch records each completed outcome it sees, and no case twice |
| SessionSweep.Watch | baselines/moe_layer/persistent.py:129-163 | the watch ends as its first ending turn says, an exit before an allocator failure before the deadline |
| SessionSweep.Collect | baselines/moe_layer/persistent.py:177-187 | after the exit exactly the completed jobs are recorded as completed and the rest are listed in order |
| SessionSweep.Settle | baselines/moe_layer/persistent.py:177-228 | the first job without a result is timed out only when its last turn was overdue with the process still running and no allocator failure, otherwise out of memory exactly when a rank reported it or the allocator of its backend failed under a running process, otherwise failed; the sweep goes on exactly after out of memory and raises that verdict otherwise; a worker that failed after its last job raises too |
| SessionSweep.RunSession | baselines/moe_layer/persistent.py:69-228 | one session settles a nonempty prefix of its jobs, or raises what it is to blame for: an interrupt, with the case then running recorded, or one of those verdicts |
| SessionSweep.RunGroup | baselines/moe_layer/persistent.py:68-228 | the restart loop terminates within one session per job and settles the group |
| SessionSweep.Run | baselines/moe_layer/persistent.py:61-228 | at most one session per case; a normal return has exactly one settled outcome per pending case after those already there, every session before the last having gone on for the stated reason; a raising one records no case twice and raises what its last session is to blame for |
| SweepCases.NamesDistinct | baselines/moe_layer/sweep.py:139-144 | the case names are distinct exactly when no option is given twice |
| SweepCases.CaseTextsAre | baselines/moe_layer/sweep.py:141-144 | the case names are exactly backend/precision/training/tokens-n over the four options |
| SweepCases.ListCases | baselines/moe_layer/sweep.py:139-153 | with no option given twice, each combination is either kept as found, completed or not to be retried, or pending, and never both; a completed one is never pending |
| SweepCases.Sweep | baselines/moe_layer/sweep.py:139-302 | a sweep that returns normally leaves exactly one settled outcome for every combination |
| Publication.RunKeepsInv | benchmarking/_serialization.py:61-125 | under every interleaving and kill: the destination is absent or complete, only its winner published, and whoever compared was answered truthfully |
| Publication.OnceVisibleForever | benchmarking/_serialization.py:104-116 | absent or complete, and once visible never changed |
| Publication.EndsRightly | benchmarking/_serialization.py:104-125 | a publisher that has ended published or got the comparison's answer; "race was not identical" is unreachable, "incomplete" is unreachable after a refused rename, and no staging directory is left |
| Publication.UnkilledEnds | benchmarking/_serialization.py:90-125 | a publisher that is not killed and gets its own bounded number of moves has ended, whatever the others do and even if all of them are killed |
| Publication.KilledNeverEnds | benchmarking/_serialization.py:104-125 | a publisher killed before its end never ends, and its staging directory stays as it was |
| Publication.OnePublishes | benchmarking/_serialization.py:109 | at most one publisher's rename succeeds |
| Publication.IncompleteIffRenamedBetweenLooks | benchmarking/_serialization.py:70-77 | the check made before staging reports an incomplete artifact exactly when a rival's rename fell between its two looks, and the artifact is then complete |
| Publication.IdenticalRetryCanRaise | benchmarking/planning_eval/plan_artifacts.py:85-96 | a run in which an identical publisher raises though nothing was incomplete |
| Publication.CommittersAgree | benchmarking/_serialization.py:78-87 | any two publishers that return agree on canonical payload and manifest |
| Publication.IdenticalRetry | benchmarking/_serialization.py:68-87 | a publisher bringing what is there returns exactly when it parses |
| Publication.ParsedRetry | benchmarking/planning_eval/plan_artifacts.py:55-96 | of payloads that parse, every comparison is answered, and a compared publisher returns exactly when payload and manifest are canonically those that are there |
| Publication.SaversAgree | benchmarking/program_collection/artifacts.py:37-76 | savers that return agree on program, identity and metadata; of a program that loads, the others are exactly those that differ |
| Publication.ArtifactDirectory.ExistingIsIdentical | benchmarking/_serialization.py:61-87 | false for an absent artifact, an error for half of one, and otherwise the canonical comparison |
| Publication.ArtifactDirectory.Commit | benchmarking/_serialization.py:90-125 | content that is there stays, whoever renamed it; the publisher returns only if its own is there or canonically is |
| Overlap.CoveredLength | qualification/gap_report.py:43-50 | the bisected, early-stopping loop sums what every interval covers of the span |
| Overlap.ClippedIsLength | qualification/gap_report.py:46-48 | what one interval adds is its length within the span: all of it inside, nothing outside, and additive where the span is cut |
| Overlap.OverlapFraction | qualification/gap_report.py:36-51 | the fraction is that sum over the span, between 0 and 1 |
| Overlap.CoveredIsBounded | qualification/gap_report.py:39 | sorted disjoint intervals never cover more than the span |
| Overlap.SkippedCoverNothing | qualification/gap_report.py:44 | the intervals before the bisection point's predecessor cover nothing |
| AllFinite.LongestAxis | baselines/moe_layer/validation.py:22 | the first of the longest axes |
| AllFinite.HalvesPartition | baselines/moe_layer/validation.py:23-26 | the two views of a split hold every element of the view exactly once |
| AllFinite.HalvesAreLessWork | baselines/moe_layer/validation.py:14-26 | a split lowers the number of views still to be popped |
| AllFinite.PartitionDecides | baselines/moe_layer/validation.py:17 | over a partition, all elements are finite exactly when each view's are |
| AllFinite.AllFinite | baselines/moe_layer/validation.py:6-27 | terminates for any rank and shape; its leaves hold at most the chunk and every index of the tensor once; true exactly when the elements at all indices are finite; an error exactly for a chunk below one |
| LayerSpread.StepsConserveTokens | baselines/common/geometry.py:25-33 | the step count is the one with which whole microbatches on every rank make up the update, and is refused exactly when there is none |
| LayerSpread.CountIsNearest | baselines/common/geometry.py:40 | the count is the nearest whole number, the even one of two, between 0 and n |
| LayerSpread.SpreadIsEven | baselines/common/geometry.py:36-45 | exactly count layers, ascending, and every window holds floor(bc/n) - floor(ac/n) of them, its even share to within less than one |
| LayerSpread.EqualRunsAgree | baselines/common/geometry.py:37 | two windows of one length differ by at most one layer |
| LayerSpread.RecomputeLayers | baselines/common/geometry.py:36-45 | refused exactly out of range; otherwise the layers are the even spread of the count nearest to the fraction: ascending, that many, and every window within less than one of its even share |
| Decimals.SizeRoundTrip | benchmarking/planning_eval/config.py:368-381 | every positive size survives printing and parsing |
| Decimals.ParsedIsPositive | benchmarking/planning_eval/config.py:15 | whatever the size pattern admits is positive |
| Decimals.SizeMeans | benchmarking/planning_eval/config.py:16-23 | what parses is exactly a nonzero leading digit, further digits and a unit, and is that number times a power of 1024, from none for B to four for TiB |
| Decimals.LargestUnit | benchmarking/planning_eval/config.py:376-381 | a size is printed in the largest unit that divides it |
| Decimals.NumeralThen | benchmarking/planning_eval/matrix.py:39 | a printed number followed by a non-digit determines the number and the rest |
| Decimals.Gcd | benchmarking/planning_eval/config.py:430-433 | the loop computes the greatest common divisor |
| Decimals.Bezout | benchmarking/planning_eval/config.py:430-433 | the same divisor divides both, is divided by every common divisor, and is a combination of the two |
| Decimals.ReducedFormIsUnique | benchmarking/planning_eval/config.py:37-38 | equal reduced fractions are written the same way |
| PointIds.BudgetThen | benchmarking/planning_eval/matrix.py:37-39 | the two unit spellings determine the budget and where its label ends |
| PointIds.BudgetLabelParses | benchmarking/planning_eval/matrix.py:37-39 | a budget in a label is a size text of that very budget |
| PointIds.LabelIsInjective | benchmarking/planning_eval/matrix.py:28-34 | the label determines execution budget, spill budget and scale |
| PointIds.SpaceAt | benchmarking/planning_eval/matrix.py:111-128 | the points of a grid by position: execution budgets outermost, scales innermost, each with its own three values |
| PointIds.ExpandGridAxes | benchmarking/planning_eval/matrix.py:111-128 | the nested loops give the whole product in order, every combination of every grid and no other, refused exactly when a point repeats |
| PointIds.PointIdsAreDistinct | benchmarking/planning_eval/matrix.py:28-53 | the points of an accepted expansion have pairwise distinct ids, and no two are one input under two fractions |
| ConfigFile.ConfigRoundTrip | benchmarking/planning_eval/config.py:174-189 | a configuration that could have been loaded loads back from its own dictionary, unchanged |
| ConfigFile.LoadingIsStable | benchmarking/planning_eval/config.py:192-285 | whatever loads satisfies every one of these checks, and loading its dictionary form gives it again |
| ConfigFile.LoadedIsAcceptable | benchmarking/planning_eval/config.py:56-164 | what loads is exactly: names of letters, digits, dot, underscore and hyphen; positive counts and rates; a provenance with a character that is not white space; one of the four store modes; grids with budgets and scales, none listed twice, the budgets positive, the scales positive and reduced; no point repeated and as many as announced |
| ConfigFile.GridLoads | benchmarking/planning_eval/config.py:288-318 | the same for one grid, sizes and scales included |
| ConfigFile.LoadedPointsAreDistinct | benchmarking/planning_eval/config.py:276-284 | the points of a loaded configuration have pairwise distinct ids |

## Left out

- The loops over the selected cases of both controllers, their summaries, logs and console lines: each turn touches one case directory, which is what is modelled.
- A worker that outlives a killed controller and writes to a planning point beside its successor; a collection worker's late result is modelled.
- Failures of reading or writing files other than console printing in the planning worker; files no program of the repository wrote.
- Signals inside a journal transition, process groups, joins of threads, timeouts by the clock, file locks (one controller at a time is assumed).
- Timestamps, elapsed times, revisions, commands, log paths and error texts inside journals; the request file and schema name of the collection journal.
- Path arithmetic: which directories are there, what loading one finds and how a journal refers to it are parameters of the collection; the second place a worker's result is looked for after a move holds the same result.
- JSON text and hashing: digests are values equal only for equal requests, and the keys of a configuration are an enumeration with one case for any other string.
- The computation of the proposed versions and the reading of lock files in the resolver; the counts of sources it prints.
- `FrontierPointRequest.to_dict` and `from_value`, and the calibrated bandwidths of a point.
- Rounding of floating-point numbers: coordinates, budgets, interval ends and the recompute fraction are exact.
- Which of several equal points `frontier` and the budget scan keep.
- Reporting, progress files and console output of the session sweep; an interrupt between recording a case and remembering its name.
- SessionSweep.Run: requires distinct case names, which its caller has exactly when no option is given twice (`SweepCases.NamesDistinct`); two jobs of one name would share one outcome file.
- SweepCases.Sweep: requires that no option is given twice, and is about worker sessions; a fresh process per case and a dry run are not modelled.
- AllFinite.AllFinite: the device kernel is a predicate on views, and a view is its index ranges.
- Temporary files a kill can leave beside an atomic write, and staging directories a killed publisher leaves.
- Everything that runs on a device, plots, or only formats text.
