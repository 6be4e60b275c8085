// The methods that write one case directory: the journal transitions, the
// worker's retry loop, both recoveries and the controller's restart loop
// (benchmarking/planning_eval: journal.py, active.py, worker.py, controller.py).
module CaseController {
  import opened Wrappers
  import opened PointJournal

  // How the planner answers one attempt, and whether the worker can still
  // print the lines announcing its start and its end. No error is listed as
  // exhausting the search at present, so `Exhausts` never occurs yet.
  datatype Planned = Plans | NotFeasible | Exhausts | Fails

  datatype Trial = Trial(planned: Planned, startPrints: bool, stopPrints: bool)

  // ----- Writes cut off by a kill -----

  // The writes of `ws` that reach the disk of a process killed after `kill`
  // writes; None is never killed.
  function Cut(ws: seq<Write>, kill: Option<nat>): seq<Write> {
    if kill.None? || |ws| <= kill.value then ws else ws[..kill.value]
  }

  function Left(kill: Option<nat>, n: nat): Option<nat> {
    if kill.None? then None else if n <= kill.value then Some(kill.value - n) else Some(0)
  }

  predicate Dies(ws: seq<Write>, kill: Option<nat>) {
    kill.Some? && kill.value < |ws|
  }

  lemma CutOfSum(a: seq<Write>, b: seq<Write>, kill: Option<nat>)
    ensures Cut(a + b, kill) == if Dies(a, kill) then Cut(a, kill) else a + Cut(b, Left(kill, |a|))
    ensures Left(kill, |a + b|) == Left(Left(kill, |a|), |b|)
    ensures Dies(a + b, kill) <==> Dies(a, kill) || Dies(b, Left(kill, |a|))
  {}

  // Two stretches of writes, the first not cut off.
  lemma CutContinues(start: seq<Write>, middle: seq<Write>, end: seq<Write>, a: seq<Write>, b: seq<Write>,
                     kill: Option<nat>)
    requires !Dies(a, kill) && middle == start + Cut(a, kill) && end == middle + Cut(b, Left(kill, |a|))
    ensures end == start + Cut(a + b, kill)
  {
    CutOfSum(a, b, kill);
  }

  // ----- What one attempt writes -----

  function ClosingWrites(max: int, r: Request, attempt: int, planned: Planned): seq<Write> {
    match planned
    case Plans => FinishWrites(r, Succeeded, true)
    case NotFeasible => FinishWrites(r, Infeasible, true)
    case Exhausts => FinishWrites(r, SearchExhausted, true)
    case Fails => FinishWrites(r, Error, attempt >= max)
  }

  function FinishWrites(r: Request, outcome: Status, final: bool): seq<Write> {
    if final then [WriteEvidence(r, outcome), CloseFinal(r, outcome)] else [CloseRetry(r, outcome)]
  }

  function Finished(d: Disk, r: Request, outcome: Status, final: bool): Disk {
    if final then Apply(Apply(d, WriteEvidence(r, outcome)), CloseFinal(r, outcome))
    else Apply(d, CloseRetry(r, outcome))
  }

  function OpeningWrites(r: Request): seq<Write> {
    [Begin(r), WriteActive(Some(r))]
  }

  function AttemptWrites(max: int, r: Request, attempt: int, trial: Trial): seq<Write> {
    if !trial.startPrints then OpeningWrites(r)
    else OpeningWrites(r) + (ClosingWrites(max, r, attempt, trial.planned) + [WriteActive(None)])
  }

  // How the attempt ends for a worker that is not killed. A success whose
  // report cannot be printed is handed to the error path, which finds the
  // attempt already closed.
  function AttemptVerdict(trial: Trial): Result<(), JournalError> {
    if !trial.startPrints then Err(ConsoleFailed)
    else if trial.stopPrints then Ok(())
    else if trial.planned.Plans? then Err(IdentityChanged)
    else Err(ConsoleFailed)
  }

  predicate Prints(trial: Trial) {
    trial.startPrints && trial.stopPrints
  }

  ghost predicate BreaksConsole(r: Request, trials: (Request, int) -> Trial) {
    exists n :: !Prints(trials(r, n))
  }

  function NextOrdinal(d: Disk, r: Request): int {
    var f := FilesOf(d, r.id);
    if f.status.None? then 1 else MaxOrdinal(f.status.value.attempts) + 1
  }

  lemma ReplayOne(d: Disk, ws: seq<Write>, k: nat)
    requires k < |ws|
    ensures Replay(d, ws[..k + 1]) == Apply(Replay(d, ws[..k]), ws[k])
  {
    assert ws[..k + 1][..k] == ws[..k];
  }

  // The writes that start a point leave it neither running nor final.
  lemma InitialStates(d: Disk, r: Request)
    requires FilesOf(d, r.id).status.None?
    ensures Started(d, Apply(d, WriteRequest(r)), r) && Started(d, Apply(d, Create(r)), r)
  {}

  lemma StartedThrough(d: Disk, e: Disk, f: Disk, r: Request)
    requires Started(d, e, r) && Started(e, f, r)
    ensures Started(d, f, r)
  {}

  ghost predicate Started(d: Disk, d': Disk, r: Request) {
    var f, f' := FilesOf(d, r.id), FilesOf(d', r.id);
    && d'.inventory == d.inventory && d'.active == d.active
    && (forall id :: id != r.id ==> FilesOf(d', id) == FilesOf(d, id))
    && f'.evidence == f.evidence && LastRunning(f') == LastRunning(f) && FinalAt(f') == FinalAt(f)
  }

  lemma OpeningStates(c: Config, d: Disk, r: Request)
    requires Inv(c, d) && r in c.requests
    requires FilesOf(d, r.id).status.Some? && !FinalAt(FilesOf(d, r.id)) && !LastRunning(FilesOf(d, r.id))
    ensures var f, g := FilesOf(d, r.id), FilesOf(Apply(d, Begin(r)), r.id);
            && NextOrdinal(d, r) == |f.status.value.attempts| + 1
            && LastRunning(g) && LastOrdinal(g) == NextOrdinal(d, r) && ReadStatus(g, r).Ok?
            && |g.status.value.attempts| == |f.status.value.attempts| + 1
  {
    MaxOrdinalIsLength(FilesOf(d, r.id).status.value.attempts);
  }

  lemma ClosingStates(d: Disk, r: Request, outcome: Status, final: bool)
    requires LastRunning(FilesOf(d, r.id)) && outcome.Final() && !FinalAt(FilesOf(d, r.id))
    ensures var f := FilesOf(d, r.id);
            var e, g := FilesOf(Apply(d, WriteEvidence(r, outcome)), r.id),
                        FilesOf(Finished(d, r, outcome, final), r.id);
            && e.status == f.status
            && g.status.Some? && |g.status.value.attempts| == |f.status.value.attempts|
            && !LastRunning(g) && (FinalAt(g) <==> final)
            && g.status.value.digest == f.status.value.digest
  {}

  // What is known of the disk after the first k writes of an attempt on r.
  ghost predicate AttemptState(c: Config, d: Disk, r: Request, trial: Trial, k: nat, d': Disk) {
    var n := NextOrdinal(d, r);
    var m := |AttemptWrites(c.maxAttempts, r, n, trial)|;
    var f, f' := FilesOf(d, r.id), FilesOf(d', r.id);
    && (forall id :: id != r.id ==> FilesOf(d', id) == FilesOf(d, id))
    && d'.inventory == d.inventory
    && f.status.Some? && f'.status.Some?
    && d'.active == (if k < 2 then d.active else if k == m && trial.startPrints then None else Some(r))
    && (LastRunning(f') <==> 1 <= k && (!trial.startPrints || k < m - 1))
    && |f'.status.value.attempts| == |f.status.value.attempts| + (if k == 0 then 0 else 1)
    && (FinalAt(f') <==> k > 0 && !LastRunning(f') && (!trial.planned.Fails? || n >= c.maxAttempts))
  }

  // For every k: a crash leaves the attempt running only with the pointer on
  // it, or in the one gap before the pointer is written.
  lemma AttemptCrashStates(c: Config, d: Disk, r: Request, trial: Trial, k: nat)
    requires ValidConfig(c) && Inv(c, d) && r in c.requests
    requires FilesOf(d, r.id).status.Some? && !FinalAt(FilesOf(d, r.id)) && !LastRunning(FilesOf(d, r.id))
    requires k <= |AttemptWrites(c.maxAttempts, r, NextOrdinal(d, r), trial)|
    ensures AttemptState(c, d, r, trial, k, Replay(d, AttemptWrites(c.maxAttempts, r, NextOrdinal(d, r), trial)[..k]))
  {
    var n := NextOrdinal(d, r);
    var ws := AttemptWrites(c.maxAttempts, r, n, trial);
    if k <= 2 {
      AttemptHeadState(c, d, r, trial, k, ws);
    } else {
      assert trial.startPrints;
      AttemptHead(d, r, ws);
      var d2 := Apply(Apply(d, Begin(r)), WriteActive(Some(r)));
      AttemptTail(d, r, ws, d2, Outcome(trial.planned), !trial.planned.Fails? || n >= c.maxAttempts, k);
      AttemptTailState(c, d, r, trial, d2, k, Replay(d, ws[..k]));
    }
  }

  lemma AttemptHead(d: Disk, r: Request, ws: seq<Write>)
    requires |ws| >= 2 && ws[0] == Begin(r) && ws[1] == WriteActive(Some(r))
    ensures Replay(d, ws[..0]) == d && Replay(d, ws[..1]) == Apply(d, Begin(r))
    ensures Replay(d, ws[..2]) == Apply(Apply(d, Begin(r)), WriteActive(Some(r)))
  {
    assert ws[..0] == [];
    ReplayOne(d, ws, 0);
    ReplayOne(d, ws, 1);
  }

  lemma AttemptHeadState(c: Config, d: Disk, r: Request, trial: Trial, k: nat, ws: seq<Write>)
    requires ValidConfig(c) && Inv(c, d) && r in c.requests
    requires FilesOf(d, r.id).status.Some? && !FinalAt(FilesOf(d, r.id)) && !LastRunning(FilesOf(d, r.id))
    requires ws == AttemptWrites(c.maxAttempts, r, NextOrdinal(d, r), trial) && k <= 2 && k <= |ws|
    ensures AttemptState(c, d, r, trial, k, Replay(d, ws[..k]))
  {
    OpeningStates(c, d, r);
    AttemptHead(d, r, ws);
  }

  lemma AttemptTailState(c: Config, d: Disk, r: Request, trial: Trial, d2: Disk, k: nat, d': Disk)
    requires ValidConfig(c) && Inv(c, d) && r in c.requests && trial.startPrints
    requires FilesOf(d, r.id).status.Some? && !FinalAt(FilesOf(d, r.id)) && !LastRunning(FilesOf(d, r.id))
    requires d2 == Apply(Apply(d, Begin(r)), WriteActive(Some(r)))
    requires 3 <= k <= |AttemptWrites(c.maxAttempts, r, NextOrdinal(d, r), trial)|
    requires var outcome := Outcome(trial.planned);
             var final := !trial.planned.Fails? || NextOrdinal(d, r) >= c.maxAttempts;
             var m := |AttemptWrites(c.maxAttempts, r, NextOrdinal(d, r), trial)|;
             d' == if k == m then Apply(Finished(d2, r, outcome, final), WriteActive(None))
                   else if k == m - 1 then Finished(d2, r, outcome, final)
                   else Apply(d2, WriteEvidence(r, outcome))
    ensures AttemptState(c, d, r, trial, k, d')
  {
    OpeningStates(c, d, r);
    assert FilesOf(d2, r.id) == FilesOf(Apply(d, Begin(r)), r.id);
    ClosingStates(d2, r, Outcome(trial.planned), !trial.planned.Fails? || NextOrdinal(d, r) >= c.maxAttempts);
  }

  function Outcome(planned: Planned): Status {
    match planned
    case Plans => Succeeded
    case NotFeasible => Infeasible
    case Exhausts => SearchExhausted
    case Fails => Error
  }

  lemma AttemptTail(d: Disk, r: Request, ws: seq<Write>, d2: Disk, outcome: Status, final: bool, k: nat)
    requires ws == OpeningWrites(r) + (FinishWrites(r, outcome, final) + [WriteActive(None)])
    requires d2 == Replay(d, ws[..2]) && 3 <= k <= |ws|
    ensures final && k == 3 ==> Replay(d, ws[..k]) == Apply(d2, WriteEvidence(r, outcome))
    ensures k == |ws| - 1 ==> Replay(d, ws[..k]) == Finished(d2, r, outcome, final)
    ensures k == |ws| ==> Replay(d, ws[..k]) == Apply(Finished(d2, r, outcome, final), WriteActive(None))
  {
    ReplayOne(d, ws, 2);
    if k >= 4 { ReplayOne(d, ws, 3); }
    if k >= 5 { ReplayOne(d, ws, 4); }
  }

  // ----- What the planner's answers leave on the disk -----

  function AttemptsIn(f: Files): seq<Attempt> {
    if f.status.None? then [] else f.status.value.attempts
  }

  // One attempt after these, closed under this name, which is the point's own
  // and its evidence's.
  predicate EndsPoint(r: Request, earlier: seq<Attempt>, g: Files, outcome: Status) {
    && g.status.Some? && g.status.value.status == outcome
    && g.status.value.attempts == earlier + [Attempt(|earlier| + 1, outcome)]
    && g.evidence == Some(Evidence(r.digest, outcome))
  }

  // One attempt after these, failed, after which the point is to be retried.
  predicate LeavesRetry(earlier: seq<Attempt>, evidence: Option<Evidence>, g: Files) {
    && g.status.Some? && g.status.value.status == Retryable
    && g.status.value.attempts == earlier + [Attempt(|earlier| + 1, Error)]
    && g.evidence == evidence
  }

  // An attempt that was announced and not killed: a plan is a success, an
  // expected refusal keeps its own name, and any other exception is an error,
  // which ends the point at the limit only.
  predicate Answers(max: int, r: Request, planned: Planned, earlier: seq<Attempt>, evidence: Option<Evidence>,
                    g: Files) {
    && (planned.Plans? ==> EndsPoint(r, earlier, g, Succeeded))
    && (planned.NotFeasible? ==> EndsPoint(r, earlier, g, Infeasible))
    && (planned.Exhausts? ==> EndsPoint(r, earlier, g, SearchExhausted))
    && (planned.Fails? && |earlier| + 1 >= max ==> EndsPoint(r, earlier, g, Error))
    && (planned.Fails? && |earlier| + 1 < max ==> LeavesRetry(earlier, evidence, g))
  }

  // The attempts before the one that is running.
  function Earlier(f: Files): seq<Attempt>
    requires LastRunning(f)
  {
    f.status.value.attempts[..|f.status.value.attempts| - 1]
  }

  lemma FinishedFiles(d: Disk, r: Request, outcome: Status, final: bool)
    requires LastRunning(FilesOf(d, r.id)) && LastOrdinal(FilesOf(d, r.id)) == |Earlier(FilesOf(d, r.id))| + 1
    ensures var f, g := FilesOf(d, r.id), FilesOf(Finished(d, r, outcome, final), r.id);
            && (final ==> EndsPoint(r, Earlier(f), g, outcome))
            && (!final && outcome.Error? ==> LeavesRetry(Earlier(f), f.evidence, g))
  {
    var f := FilesOf(d, r.id);
    var a, n := f.status.value.attempts, |f.status.value.attempts|;
    assert a[n - 1 := Attempt(n, outcome)] == Earlier(f) + [Attempt(n, outcome)];
  }

  // The planner's answer and the name an attempt is closed under.
  predicate Names(planned: Planned, status: Status) {
    && (status.Succeeded? <==> planned.Plans?) && (status.Infeasible? <==> planned.NotFeasible?)
    && (status.SearchExhausted? <==> planned.Exhausts?) && (status.Error? <==> planned.Fails?)
  }

  lemma NamesEnd(planned: Planned, status: Status)
    requires Names(planned, status)
    ensures status.Final()
  {}

  // What a worker that is still alive made of a point: the attempts there were
  // stay, every one it added was announced and reported and is named after its
  // own trial, all but the last failed, and the point and its evidence are as
  // the last one leaves them.
  ghost predicate Answered(max: int, r: Request, trials: (Request, int) -> Trial, f: Files, g: Files) {
    var a, b := AttemptsIn(f), AttemptsIn(g);
    && g.status.Some? && a <= b
    && (forall i :: |a| <= i < |b| ==> Tried(r, trials, b[i], i + 1))
    && (forall i :: |a| <= i < |b| - 1 ==> b[i].status.Error?)
    && if |a| == |b| then g.evidence == f.evidence && (f.status.Some? ==> g == f)
       else LeftBy(max, r, b[|b| - 1].status, |b|, f, g)
  }

  ghost predicate Tried(r: Request, trials: (Request, int) -> Trial, attempt: Attempt, n: int) {
    attempt.ordinal == n && Names(trials(r, n).planned, attempt.status) && Prints(trials(r, n))
  }

  ghost predicate LeftBy(max: int, r: Request, last: Status, n: int, f: Files, g: Files)
    requires g.status.Some?
  {
    if last.Error? && n < max then g.status.value.status == Retryable && g.evidence == f.evidence
    else g.status.value.status == last && g.evidence == Some(Evidence(r.digest, last))
  }

  lemma OneAnswered(max: int, r: Request, trials: (Request, int) -> Trial, f: Files, g: Files)
    requires Answers(max, r, trials(r, |AttemptsIn(f)| + 1).planned, AttemptsIn(f), f.evidence, g)
    requires Prints(trials(r, |AttemptsIn(f)| + 1))
    ensures Answered(max, r, trials, f, g)
  {}

  lemma AnsweredFurther(max: int, r: Request, trials: (Request, int) -> Trial, f: Files, g: Files, h: Files)
    requires Answered(max, r, trials, f, g) && Answered(max, r, trials, g, h)
    requires g != h ==> !FinalAt(g)
    ensures Answered(max, r, trials, f, h)
  {
    var a, b, d := AttemptsIn(f), AttemptsIn(g), AttemptsIn(h);
    if g != h {
      assert |b| < |d| && a <= d;
      RetryLeft(max, r, trials, f, g);
      forall i | |a| <= i < |d|
        ensures Tried(r, trials, d[i], i + 1) && (i < |d| - 1 ==> d[i].status.Error?)
      {
        if i < |b| {
          assert Tried(r, trials, b[i], i + 1) && d[i] == b[i];
        }
      }
      assert LeftBy(max, r, d[|d| - 1].status, |d|, g, h);
      assert LeftBy(max, r, d[|d| - 1].status, |d|, f, h);
    }
  }

  // A point that is not final has no new evidence, and its last new attempt failed.
  lemma RetryLeft(max: int, r: Request, trials: (Request, int) -> Trial, f: Files, g: Files)
    requires Answered(max, r, trials, f, g) && !FinalAt(g)
    ensures g.evidence == f.evidence
    ensures var a, b := AttemptsIn(f), AttemptsIn(g);
            forall i :: |a| <= i < |b| ==> b[i].status.Error?
  {
    var a, b := AttemptsIn(f), AttemptsIn(g);
    if |a| < |b| {
      assert Tried(r, trials, b[|b| - 1], |b|);
      NamesEnd(trials(r, |b|).planned, b[|b| - 1].status);
      assert LeftBy(max, r, b[|b| - 1].status, |b|, f, g);
    }
  }

  // A point a worker has completed: as it was if it was final, and otherwise
  // ended by the last of the attempts the worker added.
  ghost predicate Completed(max: int, r: Request, trials: (Request, int) -> Trial, f: Files, g: Files) {
    && FinalAt(g) && Answered(max, r, trials, f, g)
    && if FinalAt(f) then g == f else |AttemptsIn(f)| < |AttemptsIn(g)|
  }

  lemma AnsweredIsCompleted(max: int, r: Request, trials: (Request, int) -> Trial, f: Files, g: Files)
    requires Answered(max, r, trials, f, g) && PointInv(max, r, g) && FinalAt(g) && (FinalAt(f) ==> g == f)
    ensures Completed(max, r, trials, f, g)
  {}

  // ----- Recovery, as functions of one point directory -----

  // recover_interrupted_attempt: a running attempt becomes interrupted.
  function InterruptedAt(r: Request, f: Files): Files {
    ApplyAt(r, f, Interrupt(r))
  }

  // recover_running_attempt: a running attempt becomes an error, final at the
  // attempt limit.
  function KilledAt(max: int, r: Request, f: Files): Files {
    if !LastRunning(f) then f
    else if LastOrdinal(f) >= max then ApplyAt(r, ApplyAt(r, f, WriteEvidence(r, Error)), CloseFinal(r, Error))
    else ApplyAt(r, f, CloseRetry(r, Error))
  }

  // Either recovery closes the running attempt, leaves every other attempt and
  // any closed journal alone, and changes nothing when run again.
  lemma RecoveryClosesOnce(max: int, r: Request, f: Files)
    requires PointInv(max, r, f)
    ensures var i, k := InterruptedAt(r, f), KilledAt(max, r, f);
            && !LastRunning(i) && !LastRunning(k)
            && InterruptedAt(r, i) == i && KilledAt(max, r, k) == k
            && PointInv(max, r, i) && PointInv(max, r, k)
            && (!LastRunning(f) ==> i == f && k == f)
            && (LastRunning(f) ==>
                  var s, last := f.status.value.attempts, |f.status.value.attempts| - 1;
                  && i.status == Some(StatusFile(r.digest, Retryable, s[last := Attempt(last + 1, Interrupted)]))
                  && k.status == Some(StatusFile(r.digest, if last + 1 >= max then Error else Retryable,
                                                 s[last := Attempt(last + 1, Error)]))
                  && i.evidence == f.evidence
                  && k.evidence == (if last + 1 >= max then Some(Evidence(r.digest, Error)) else f.evidence))
  {}

  // Files after some of one point's writes.
  function AppliedAt(r: Request, f: Files, ws: seq<Write>): Files {
    if |ws| == 0 then f else ApplyAt(r, AppliedAt(r, f, ws[..|ws| - 1]), ws[|ws| - 1])
  }

  // A recovery killed after any number of its writes and run again ends as if
  // it had not been killed.
  lemma KilledRecoveryResumes(max: int, r: Request, f: Files, k: nat)
    requires PointInv(max, r, f) && LastRunning(f) && k <= |FinishWrites(r, Error, LastOrdinal(f) >= max)|
    ensures KilledAt(max, r, AppliedAt(r, f, FinishWrites(r, Error, LastOrdinal(f) >= max)[..k])) == KilledAt(max, r, f)
  {
    var ws := FinishWrites(r, Error, LastOrdinal(f) >= max);
    RecoveryClosesOnce(max, r, f);
    AppliedNext(r, f, ws, k);
    if k > 1 {
      AppliedNext(r, f, ws, k - 1);
    }
  }

  lemma AppliedNext(r: Request, f: Files, ws: seq<Write>, k: nat)
    requires k <= |ws|
    ensures AppliedAt(r, f, ws[..k]) == if k == 0 then f else ApplyAt(r, AppliedAt(r, f, ws[..k - 1]), ws[k - 1])
    ensures AppliedAt(r, f, ws[..0]) == f
  {
    if k > 0 {
      assert ws[..k][..k - 1] == ws[..k - 1];
    }
  }

  // Writes of one point change nothing else.
  lemma {:induction false} PointWritesStay(before: seq<Write>, ws: seq<Write>, r: Request)
    requires forall i :: 0 <= i < |ws| ==> !ws[i].WriteInventory? && !ws[i].WriteActive? && ws[i].r == r
    ensures var d, d' := After(before), After(before + ws);
            && d'.inventory == d.inventory && d'.active == d.active
            && forall id :: id != r.id ==> FilesOf(d', id) == FilesOf(d, id)
  {
    if |ws| == 0 {
      assert before + ws == before;
    } else {
      var front, w := ws[..|ws| - 1], ws[|ws| - 1];
      PointWritesStay(before, front, r);
      assert before + ws == (before + front) + [w];
      AfterNext(before + front, w);
    }
  }

  lemma AfterNext(ws: seq<Write>, w: Write)
    ensures After(ws + [w]) == Apply(After(ws), w)
  {
    assert (ws + [w])[..|ws|] == ws;
  }

  // The first i points are interrupted and the others as they were.
  ghost predicate InterruptedUpTo(c: Config, before: Disk, now: Disk, i: int)
    requires 0 <= i <= |c.requests|
  {
    forall j :: 0 <= j < |c.requests| ==> InterruptedPoint(before, now, c.requests[j], j < i)
  }

  ghost predicate InterruptedPoint(before: Disk, now: Disk, r: Request, done: bool) {
    FilesOf(now, r.id) == if done then InterruptedAt(r, FilesOf(before, r.id)) else FilesOf(before, r.id)
  }

  // A recovery of the points that stopped on the way.
  ghost predicate AllOrNothing(c: Config, before: Disk, now: Disk) {
    forall r :: r in c.requests ==> InterruptedPoint(before, now, r, false) || InterruptedPoint(before, now, r, true)
  }

  lemma InterruptedNext(c: Config, before: Disk, i: int)
    requires 0 <= i < |c.requests|
    ensures RunningCount(c.requests[..i + 1], before)
            == RunningCount(c.requests[..i], before) + if LastRunning(FilesOf(before, c.requests[i].id)) then 1 else 0
  {
    assert c.requests[..i + 1][..i] == c.requests[..i];
  }

  lemma InterruptedStep(c: Config, before: Disk, entered: Disk, now: Disk, i: int, done: bool)
    requires ValidConfig(c) && 0 <= i < |c.requests| && InterruptedUpTo(c, before, entered, i)
    requires InterruptedPoint(entered, now, c.requests[i], done)
    requires forall id :: id != c.requests[i].id ==> FilesOf(now, id) == FilesOf(entered, id)
    ensures FilesOf(entered, c.requests[i].id) == FilesOf(before, c.requests[i].id)
    ensures InterruptedUpTo(c, before, now, if done then i + 1 else i)
    ensures AllOrNothing(c, before, now)
  {
    assert InterruptedPoint(before, entered, c.requests[i], false);
    forall j | 0 <= j < |c.requests| && j != i
      ensures InterruptedPoint(before, now, c.requests[j], j < i)
    {
      assert InterruptedPoint(before, entered, c.requests[j], j < i);
      assert c.requests[j].id != c.requests[i].id;
    }
    assert InterruptedPoint(before, now, c.requests[i], done);
  }

  lemma InterruptedAll(c: Config, before: Disk, now: Disk)
    requires Inv(c, before) && InterruptedUpTo(c, before, now, |c.requests|)
    ensures AllOrNothing(c, before, now) && Calm(c, now)
    ensures forall r :: r in c.requests ==> FilesOf(now, r.id) == InterruptedAt(r, FilesOf(before, r.id))
  {
    forall r | r in c.requests
      ensures InterruptedPoint(before, now, r, true) && !LastRunning(FilesOf(now, r.id))
    {
      var j :| 0 <= j < |c.requests| && c.requests[j] == r;
      assert InterruptedPoint(before, now, c.requests[j], j < |c.requests|);
      RecoveryClosesOnce(c.maxAttempts, r, FilesOf(before, r.id));
    }
  }

  ghost predicate Calm(c: Config, d: Disk) {
    forall r :: r in c.requests ==> !LastRunning(FilesOf(d, r.id))
  }

  // _case_complete: every listed point has evidence of its own request.
  function CaseComplete(d: Disk, requests: seq<Request>): Result<bool, JournalError> {
    if !d.inventory then Ok(false)
    else if |requests| == 0 then Ok(true)
    else
      var f := FilesOf(d, requests[0].id);
      if f.evidence.None? then Ok(false)
      else if f.evidence.value.digest != requests[0].digest then Err(EvidenceRequestChanged)
      else CaseComplete(d, requests[1..])
  }

  ghost predicate Evidenced(c: Config, d: Disk) {
    d.inventory && forall r :: r in c.requests ==> FilesOf(d, r.id).evidence.Some?
  }

  lemma FinalIsEvidenced(c: Config, ws: seq<Write>)
    requires ValidConfig(c) && Legal(c, ws)
    ensures After(ws).inventory && AllFinal(c, After(ws)) ==> Evidenced(c, After(ws))
  {
    RunKeepsInv(c, ws);
  }

  lemma {:induction false} CaseCompleteMeansEvidence(c: Config, d: Disk, requests: seq<Request>)
    requires Inv(c, d) && forall r :: r in requests ==> r in c.requests
    ensures CaseComplete(d, requests)
            == Ok(d.inventory && forall r :: r in requests ==> FilesOf(d, r.id).evidence.Some?)
  {
    if |requests| > 0 {
      assert requests[0] in requests;
      CaseCompleteMeansEvidence(c, d, requests[1..]);
      assert forall r :: r in requests <==> r == requests[0] || r in requests[1..];
    }
  }

  ghost predicate AllFinal(c: Config, d: Disk) {
    forall r :: r in c.requests ==> FinalAt(FilesOf(d, r.id))
  }

  // A worker leaves running points as they were, and no other point than `on`
  // newly running.
  ghost predicate WorkerKept(c: Config, before: Disk, now: Disk, on: Option<Request>) {
    forall r :: r in c.requests ==>
      && (LastRunning(FilesOf(before, r.id)) ==> FilesOf(now, r.id) == FilesOf(before, r.id))
      && (LastRunning(FilesOf(now, r.id)) ==> LastRunning(FilesOf(before, r.id)) || on == Some(r))
  }

  // Points found running are as they were.
  ghost predicate RunningKept(c: Config, before: Disk, now: Disk) {
    forall r :: r in c.requests && LastRunning(FilesOf(before, r.id)) ==> FilesOf(now, r.id) == FilesOf(before, r.id)
  }

  // A running attempt that no worker of this controller begins, without any
  // evidence: it keeps the case from completing.
  ghost predicate Stuck(c: Config, d: Disk) {
    exists r :: r in c.requests && LastRunning(FilesOf(d, r.id)) && FilesOf(d, r.id).evidence.None?
  }

  lemma StuckStays(c: Config, before: Disk, now: Disk)
    requires Stuck(c, before) && RunningKept(c, before, now)
    ensures Stuck(c, now)
  {
    var r :| r in c.requests && LastRunning(FilesOf(before, r.id)) && FilesOf(before, r.id).evidence.None?;
    assert FilesOf(now, r.id) == FilesOf(before, r.id);
  }

  // A complete case has all its points final exactly when no point's evidence
  // was written without its journal being closed on it.
  lemma CompleteMeansFinal(c: Config, ws: seq<Write>)
    requires ValidConfig(c) && Legal(c, ws) && Evidenced(c, After(ws))
    ensures AllFinal(c, After(ws)) <==> forall r :: r in c.requests ==> !CutShort(ws, r)
  {
    forall r | r in c.requests
      ensures FinalAt(FilesOf(After(ws), r.id)) <==> !CutShort(ws, r)
    {
      EvidenceIsRecorded(c, ws, r);
    }
  }

  // A run that ends calm and complete with a point that is not final: the
  // attempt was cut short after its evidence and interrupted on resume.
  lemma CompleteWithoutFinality(r: Request) returns (ws: seq<Write>)
    ensures Legal(Config(2, [r]), ws) && Calm(Config(2, [r]), After(ws))
    ensures CaseComplete(After(ws), [r]) == Ok(true)
    ensures CutShort(ws, r) && !FinalAt(FilesOf(After(ws), r.id))
  {
    var c := Config(2, [r]);
    var cut := EvidenceMayPrecedeFinality(r);
    ws := cut + [Interrupt(r)];
    assert ws[..|cut|] == cut;
    RunKeepsInv(c, ws);
    RecordedNext(ws, r);
    CaseCompleteMeansEvidence(c, After(ws), [r]);
    EvidenceIsRecorded(c, ws, r);
  }

  // The first i points completed by the worker, the others as it found them.
  ghost predicate DoneUpTo(c: Config, trials: (Request, int) -> Trial, before: Disk, now: Disk, i: int)
    requires 0 <= i <= |c.requests|
  {
    forall j :: 0 <= j < |c.requests| ==> DoneAt(c, trials, before, now, c.requests[j], j < i)
  }

  ghost predicate DoneAt(c: Config, trials: (Request, int) -> Trial, before: Disk, now: Disk, r: Request, done: bool) {
    var f, g := FilesOf(before, r.id), FilesOf(now, r.id);
    if done then Completed(c.maxAttempts, r, trials, f, g) && !LastRunning(f) else g == f
  }

  lemma NextDone(c: Config, trials: (Request, int) -> Trial, before: Disk, entered: Disk, now: Disk, i: int)
    requires ValidConfig(c) && 0 <= i < |c.requests| && DoneUpTo(c, trials, before, entered, i)
    requires forall id :: id != c.requests[i].id ==> FilesOf(now, id) == FilesOf(entered, id)
    requires DoneAt(c, trials, entered, now, c.requests[i], true)
    ensures DoneUpTo(c, trials, before, now, i + 1)
  {
    assert DoneAt(c, trials, before, entered, c.requests[i], false);
    forall j | 0 <= j < |c.requests| && j != i
      ensures DoneAt(c, trials, before, now, c.requests[j], j < i)
    {
      assert DoneAt(c, trials, before, entered, c.requests[j], j < i);
      assert c.requests[j].id != c.requests[i].id;
    }
  }

  // Every point is complete, and was not running.
  ghost predicate AllCompleted(c: Config, trials: (Request, int) -> Trial, before: Disk, now: Disk) {
    forall r :: r in c.requests ==> DoneAt(c, trials, before, now, r, true)
  }

  lemma AllDone(c: Config, trials: (Request, int) -> Trial, before: Disk, now: Disk)
    requires DoneUpTo(c, trials, before, now, |c.requests|)
    ensures AllCompleted(c, trials, before, now) && AllFinal(c, now) && Calm(c, before)
  {
    forall r | r in c.requests
      ensures DoneAt(c, trials, before, now, r, true)
    {
      var j :| 0 <= j < |c.requests| && c.requests[j] == r;
      assert DoneAt(c, trials, before, now, c.requests[j], j < |c.requests|);
    }
    forall r | r in c.requests
      ensures FinalAt(FilesOf(now, r.id)) && !LastRunning(FilesOf(before, r.id))
    {
      assert DoneAt(c, trials, before, now, r, true);
    }
  }

  lemma DistinctIds(c: Config, i: int)
    requires ValidConfig(c) && 0 <= i < |c.requests|
    ensures forall j :: 0 <= j < |c.requests| && j != i ==> c.requests[j].id != c.requests[i].id
  {}

  lemma WorkerStep(c: Config, before: Disk, entered: Disk, now: Disk, r: Request)
    requires ValidConfig(c) && r in c.requests && WorkerKept(c, before, entered, None)
    requires forall id :: id != r.id ==> FilesOf(now, id) == FilesOf(entered, id)
    requires LastRunning(FilesOf(entered, r.id)) ==> FilesOf(now, r.id) == FilesOf(entered, r.id)
    ensures WorkerKept(c, before, now, if LastRunning(FilesOf(before, r.id)) then None else Some(r))
    ensures !LastRunning(FilesOf(now, r.id)) ==> WorkerKept(c, before, now, None)
  {
    forall q | q in c.requests && q != r
      ensures FilesOf(now, q.id) == FilesOf(entered, q.id)
    {
      assert q.id != r.id;
    }
  }

  lemma AttemptLeft(c: Config, before: seq<Write>, after: seq<Write>, r: Request, trial: Trial, kill: Option<nat>)
    requires ValidConfig(c) && Legal(c, before) && r in c.requests
    requires FilesOf(After(before), r.id).status.Some?
    requires !FinalAt(FilesOf(After(before), r.id)) && !LastRunning(FilesOf(After(before), r.id))
    requires after == before + Cut(AttemptWrites(c.maxAttempts, r, NextOrdinal(After(before), r), trial), kill)
    ensures var ws := AttemptWrites(c.maxAttempts, r, NextOrdinal(After(before), r), trial);
            AttemptState(c, After(before), r, trial, |Cut(ws, kill)|, After(after))
  {
    var ws := AttemptWrites(c.maxAttempts, r, NextOrdinal(After(before), r), trial);
    var k := |Cut(ws, kill)|;
    assert Cut(ws, kill) == ws[..k];
    SplitRun(c, after, |before|);
    assert after[..|before|] == before && after[|before|..] == ws[..k];
    RunKeepsInv(c, before);
    AttemptCrashStates(c, After(before), r, trial, k);
  }

  class CaseDirectory {
    const config: Config
    var inventory: bool
    var points: map<string, Files>
    var active: Option<Request>
    var workerAttempts: nat
    // The process now writing is killed once this many more writes are done.
    var killAfter: Option<nat>
    // Every write the directory ever received.
    ghost var log: seq<Write>

    function Contents(): Disk
      reads this
    {
      Disk(inventory, points, active)
    }

    // The files are those the writes leave, legal or not.
    ghost predicate Coherent()
      reads this
    {
      ValidConfig(config) && Contents() == After(log)
    }

    ghost predicate Valid()
      reads this
    {
      Coherent() && Legal(config, log)
    }

    // The process wrote `ws`, as far as its kill let it.
    twostate predicate Wrote(ws: seq<Write>)
      reads this
    {
      && log == old(log) + Cut(ws, old(killAfter))
      && killAfter == Left(old(killAfter), |ws|)
      && workerAttempts == old(workerAttempts)
    }

    constructor (config: Config)
      requires ValidConfig(config)
      ensures Valid() && this.config == config && log == [] && workerAttempts == 0 && killAfter == None
    {
      this.config := config;
      inventory, points, active := false, map[], None;
      workerAttempts, killAfter := 0, None;
      log := [];
    }

    ghost function Files(r: Request): Files
      reads this
    {
      FilesOf(Contents(), r.id)
    }

    // ----- Atomic file replacements -----

    method Tick(ghost w: Write) returns (alive: bool)
      modifies this`killAfter
      ensures alive == !Dies([w], old(killAfter)) && killAfter == Left(old(killAfter), 1)
    {
      alive := killAfter != Some(0);
      if alive && killAfter.Some? {
        killAfter := Some(killAfter.value - 1);
      }
    }

    method SetInventory() returns (ok: bool)
      requires Valid()
      modifies this
      ensures Valid() && Wrote([WriteInventory]) && ok == !Dies([WriteInventory], old(killAfter))
      ensures Contents() == if ok then Apply(old(Contents()), WriteInventory) else old(Contents())
    {
      ok := Tick(WriteInventory);
      if ok {
        inventory := true;
        log := log + [WriteInventory];
        assert log[..|log| - 1] == old(log);
      }
    }

    method SetActive(pointer: Option<Request>) returns (ok: bool)
      requires Valid() && Enabled(config, Contents(), WriteActive(pointer))
      modifies this
      ensures Valid() && Wrote([WriteActive(pointer)]) && ok == !Dies([WriteActive(pointer)], old(killAfter))
      ensures Contents() == if ok then Apply(old(Contents()), WriteActive(pointer)) else old(Contents())
    {
      ok := Tick(WriteActive(pointer));
      if ok {
        active := pointer;
        log := log + [WriteActive(pointer)];
        assert log[..|log| - 1] == old(log);
      }
    }

    // Replaces one file of a point directory. Whether the write is allowed
    // decides only whether the run is still a legal one.
    method SetPoint(r: Request, files: Files, ghost w: Write) returns (ok: bool)
      requires Coherent() && !w.WriteInventory? && !w.WriteActive? && w.r == r
      requires files == ApplyAt(r, FilesOf(Contents(), r.id), w)
      modifies this
      ensures Coherent() && (old(Valid() && Enabled(config, Contents(), w)) ==> Valid())
      ensures Wrote([w]) && ok == !Dies([w], old(killAfter))
      ensures Contents() == if ok then Apply(old(Contents()), w) else old(Contents())
    {
      ok := Tick(w);
      if ok {
        points := points[r.id := files];
        log := log + [w];
        assert log[..|log| - 1] == old(log);
      }
    }

    // A point directory holding anything is listed by case.json.
    lemma StartedIsListed(r: Request)
      requires Valid() && r in config.requests && Files(r) != PointJournal.Files(None, None, None)
      ensures inventory && (Files(r).status.Some? ==> Files(r).request == Some(r.digest))
    {
      RunKeepsInv(config, log);
      assert r.id in points;
    }

    // ----- journal.py -----

    ghost function RequestWrites(r: Request): seq<Write>
      reads this
    {
      if Files(r).request.None? then [WriteRequest(r)] else []
    }

    ghost function JournalWrites(r: Request): seq<Write>
      reads this
    {
      if Files(r).status.None? then [Create(r)] else []
    }

    // The files are another request's.
    ghost predicate InitialRefusal(r: Request)
      reads this
    {
      || (Files(r).request.Some? && Files(r).request.value != r.digest)
      || (Files(r).status.Some? && Files(r).status.value.digest != r.digest)
    }

    // On a directory its own program wrote no file is another request's.
    lemma NeverRefused(r: Request)
      requires Valid() && r in config.requests
      ensures !InitialRefusal(r) && (Files(r).status.Some? ==> Files(r).request.Some?)
    {
      RunKeepsInv(config, log);
    }

    method RecordRequest(r: Request) returns (res: Result<(), JournalError>)
      requires Valid() && r in config.requests && inventory && (Files(r).status.Some? ==> Files(r).request.Some?)
      modifies this
      ensures Valid() && Started(old(Contents()), Contents(), r) && Wrote(old(RequestWrites(r)))
      ensures old(Files(r)).request.Some? ==>
                && Contents() == old(Contents())
                && res == (if old(Files(r)).request.value != r.digest then Err(RequestChanged) else Ok(()))
      ensures old(Files(r)).request.None? ==>
                && res == (if Dies([WriteRequest(r)], old(killAfter)) then Err(Killed) else Ok(()))
                && (res.Ok? ==> Files(r).request == Some(r.digest) && Files(r).status.None?)
    {
      var f := FilesOf(Contents(), r.id);
      if f.request.Some? {
        return if f.request.value != r.digest then Err(RequestChanged) else Ok(());
      }
      InitialStates(Contents(), r);
      var ok := SetPoint(r, f.(request := Some(r.digest)), WriteRequest(r));
      res := if ok then Ok(()) else Err(Killed);
    }

    // The missing files are written, the request's first; a started point is
    // left as it was.
    method InitializePoint(r: Request) returns (res: Result<(), JournalError>)
      requires Valid() && r in config.requests && inventory
      modifies this
      ensures Valid() && !old(InitialRefusal(r)) && Started(old(Contents()), Contents(), r)
      ensures var ws := old(RequestWrites(r) + JournalWrites(r));
              Wrote(ws) && res == if Dies(ws, old(killAfter)) then Err(Killed) else Ok(())
      ensures res.Ok? ==> Files(r).status.Some?
      ensures res.Ok? && old(Files(r)).status.None? ==> Files(r).status == Some(StatusFile(r.digest, Pending, []))
      ensures old(Files(r)).status.Some? ==> Files(r) == old(Files(r))
    {
      NeverRefused(r);
      CutOfSum(RequestWrites(r), JournalWrites(r), killAfter);
      ghost var first, second := RequestWrites(r), JournalWrites(r);
      var _ :- RecordRequest(r);
      ghost var recorded, middle := Contents(), log;
      res := CreateJournal(r);
      StartedThrough(old(Contents()), recorded, Contents(), r);
      CutContinues(old(log), middle, log, first, second, old(killAfter));
    }

    method CreateJournal(r: Request) returns (res: Result<(), JournalError>)
      requires Valid() && r in config.requests && inventory && Files(r).request == Some(r.digest)
      modifies this
      ensures Valid() && Started(old(Contents()), Contents(), r) && Wrote(old(JournalWrites(r)))
      ensures res == if Dies(old(JournalWrites(r)), old(killAfter)) then Err(Killed) else Ok(())
      ensures res.Ok? ==> Files(r).status.Some?
      ensures res.Ok? && old(Files(r)).status.None? ==> Files(r).status == Some(StatusFile(r.digest, Pending, []))
      ensures old(Files(r)).status.Some? ==> Contents() == old(Contents())
    {
      NeverRefused(r);
      var f := FilesOf(Contents(), r.id);
      if f.status.None? {
        InitialStates(Contents(), r);
        var file := StatusFile(r.digest, Pending, []);
        var ok := SetPoint(r, f.(status := Some(file)), Create(r));
        return if ok then Ok(()) else Err(Killed);
      }
      var read := ReadStatus(f, r);
      res := match read case Ok(_) => Ok(()) case Err(e) => Err(e);
    }

    ghost function BeginRefusal(r: Request): Option<JournalError>
      reads this
    {
      if ReadStatus(Files(r), r).Err? then Some(ReadStatus(Files(r), r).error)
      else if LastRunning(Files(r)) then Some(AlreadyRunning)
      else None
    }

    method BeginAttempt(r: Request) returns (res: Result<int, JournalError>)
      requires Valid() && r in config.requests
      modifies this
      // It does not look for finality: the worker calls it only while the
      // point is not complete, and on a final one it would open it again.
      ensures Coherent() && (!old(FinalAt(Files(r))) ==> Valid())
      ensures old(BeginRefusal(r)).Some? ==>
                res == Err(old(BeginRefusal(r)).value) && Wrote([]) && Contents() == old(Contents())
      ensures old(BeginRefusal(r)).None? ==>
                && Wrote([Begin(r)])
                && res == (if Dies([Begin(r)], old(killAfter)) then Err(Killed)
                           else Ok(old(NextOrdinal(Contents(), r))))
                && Contents() == (if res.Ok? then Apply(old(Contents()), Begin(r)) else old(Contents()))
    {
      var f := FilesOf(Contents(), r.id);
      var s :- ReadStatus(f, r);
      if |s.attempts| > 0 && s.attempts[|s.attempts| - 1].status.Running? {
        return Err(AlreadyRunning);
      }
      StartedIsListed(r);
      var attempt := MaxOrdinal(s.attempts) + 1;
      var attempts := s.attempts + [Attempt(attempt, Running)];
      var ok := SetPoint(r, f.(status := Some(s.(status := Running, attempts := attempts))), Begin(r));
      res := if ok then Ok(attempt) else Err(Killed);
    }

    // Why finishing is refused, before anything is written.
    ghost function FinishRefusal(r: Request, attempt: int, evidence: Option<Option<Request>>, final: bool)
      : Option<JournalError>
      reads this
    {
      var f := Files(r);
      if ReadStatus(f, r).Err? then Some(ReadStatus(f, r).error)
      else if |f.status.value.attempts| == 0 then Some(NoAttempt)
      else if !LastRunning(f) || LastOrdinal(f) != attempt then Some(IdentityChanged)
      else if final && evidence.None? then Some(FinalNeedsEvidence)
      else if final && evidence.value.Some? && evidence.value.value != r then Some(EvidenceDiffers)
      else None
    }

    // `evidence` carries the request it was recorded for, if it names one.
    method FinishAttempt(r: Request, attempt: int, outcome: Status, evidence: Option<Option<Request>>, final: bool)
      returns (res: Result<(), JournalError>)
      requires Valid() && r in config.requests
      modifies this
      // Every caller decides finality in this way; nothing here checks it.
      ensures Coherent() && (outcome.Final() && (final <==> !outcome.Error? || attempt >= config.maxAttempts)
                             ==> Valid())
      ensures old(FinishRefusal(r, attempt, evidence, final)).Some? ==>
                && res == Err(old(FinishRefusal(r, attempt, evidence, final)).value)
                && Wrote([]) && Contents() == old(Contents())
      ensures old(FinishRefusal(r, attempt, evidence, final)).None? ==>
                var ws := FinishWrites(r, outcome, final);
                && Wrote(ws)
                && res == (if Dies(ws, old(killAfter)) then Err(Killed) else Ok(()))
                && (res.Ok? ==> Contents() == old(Finished(Contents(), r, outcome, final)))
    {
      var f := FilesOf(Contents(), r.id);
      var s :- ReadStatus(f, r);
      if |s.attempts| == 0 {
        return Err(NoAttempt);
      }
      var last := |s.attempts| - 1;
      var current := s.attempts[last];
      if current.ordinal != attempt || current.status != Running {
        return Err(IdentityChanged);
      }
      StartedIsListed(r);
      var closed := s.attempts[last := current.(status := outcome)];
      if final {
        if evidence.None? {
          return Err(FinalNeedsEvidence);
        }
        if evidence.value.Some? && evidence.value.value != r {
          return Err(EvidenceDiffers);
        }
        var file := s.(status := outcome, attempts := closed);
        res := PublishFinal(r, outcome, f, file);
      } else {
        var ok := SetPoint(r, f.(status := Some(s.(status := Retryable, attempts := closed))), CloseRetry(r, outcome));
        return if ok then Ok(()) else Err(Killed);
      }
    }

    // Evidence first, then the journal that points at it.
    method PublishFinal(r: Request, outcome: Status, f: Files, file: StatusFile) returns (res: Result<(), JournalError>)
      requires Valid() && r in config.requests && inventory && f == Files(r) && LastRunning(f)
      requires file == Closed(f.status.value, outcome, outcome)
      modifies this
      ensures Coherent() && Wrote(FinishWrites(r, outcome, true))
      ensures outcome.Final() && (outcome.Error? ==> old(LastOrdinal(Files(r))) >= config.maxAttempts) ==> Valid()
      ensures res == if Dies(FinishWrites(r, outcome, true), old(killAfter)) then Err(Killed) else Ok(())
      ensures res.Ok? ==> Contents() == old(Finished(Contents(), r, outcome, true))
    {
      var point := f.(evidence := Some(Evidence(r.digest, outcome)));
      var ok := SetPoint(r, point, WriteEvidence(r, outcome));
      if !ok {
        return Err(Killed);
      }
      assert FilesOf(Contents(), r.id) == point;
      ok := SetPoint(r, point.(status := Some(file)), CloseFinal(r, outcome));
      return if ok then Ok(()) else Err(Killed);
    }

    // ----- worker.py -----

    method FinishError(r: Request, attempt: int, outcome: Status, final: bool, stopPrints: bool)
      returns (res: Result<(), JournalError>)
      requires Valid() && r in config.requests
      requires outcome.Final() && (final <==> !outcome.Error? || attempt >= config.maxAttempts)
      modifies this
      ensures Valid()
      ensures var refusal := old(FinishRefusal(r, attempt, if final then Some(Some(r)) else None, final));
              var ws := FinishWrites(r, outcome, final);
              if refusal.Some? then res == Err(refusal.value) && Wrote([]) && Contents() == old(Contents())
              else
                && Wrote(ws)
                && res == (if Dies(ws, old(killAfter)) then Err(Killed)
                           else if stopPrints then Ok(()) else Err(ConsoleFailed))
                && (res != Err(Killed) ==> Contents() == old(Finished(Contents(), r, outcome, final)))
    {
      res := FinishAttempt(r, attempt, outcome, if final then Some(Some(r)) else None, final);
      if res.Ok? && !stopPrints {
        res := Err(ConsoleFailed);
      }
    }

    // The try statement of a planned point: close the attempt, report, and
    // hand a failing report to the error path.
    method CloseSuccess(r: Request, attempt: int, stopPrints: bool) returns (res: Result<(), JournalError>)
      requires Valid() && r in config.requests
      requires LastRunning(Files(r)) && LastOrdinal(Files(r)) == attempt && ReadStatus(Files(r), r).Ok?
      requires !FinalAt(Files(r))
      modifies this
      ensures Valid()
      ensures var ws := FinishWrites(r, Succeeded, true);
              && Wrote(ws)
              && res == (if Dies(ws, old(killAfter)) then Err(Killed)
                         else if stopPrints then Ok(()) else Err(IdentityChanged))
              && (res != Err(Killed) ==> EndsPoint(r, old(Earlier(Files(r))), Files(r), Succeeded))
    {
      EarlierOrdinals(r);
      FinishedFiles(Contents(), r, Succeeded, true);
      res := FinishAttempt(r, attempt, Succeeded, Some(Some(r)), true);
      if res.Ok? && !stopPrints {
        res := Err(ConsoleFailed);
      }
      if res.Err? && res.error != Killed {
        ClosingStates(old(Contents()), r, Succeeded, true);
        res := FinishError(r, attempt, Error, attempt >= config.maxAttempts, stopPrints);
      }
    }

    lemma EarlierOrdinals(r: Request)
      requires Valid() && r in config.requests && LastRunning(Files(r))
      ensures LastOrdinal(Files(r)) == |Earlier(Files(r))| + 1
    {
      RunKeepsInv(config, log);
    }

    // The same of the running attempt, which is not refused.
    method CloseError(r: Request, attempt: int, outcome: Status, final: bool, stopPrints: bool)
      returns (res: Result<(), JournalError>)
      requires Valid() && r in config.requests
      requires LastRunning(Files(r)) && LastOrdinal(Files(r)) == attempt && ReadStatus(Files(r), r).Ok?
      requires outcome.Final() && (final <==> !outcome.Error? || attempt >= config.maxAttempts)
      modifies this
      ensures Valid()
      ensures var ws := FinishWrites(r, outcome, final);
              && Wrote(ws)
              && res == (if Dies(ws, old(killAfter)) then Err(Killed)
                         else if stopPrints then Ok(()) else Err(ConsoleFailed))
      ensures attempt == |old(Earlier(Files(r)))| + 1
      ensures res != Err(Killed) ==>
                if final then EndsPoint(r, old(Earlier(Files(r))), Files(r), outcome)
                else LeavesRetry(old(Earlier(Files(r))), old(Files(r)).evidence, Files(r))
    {
      EarlierOrdinals(r);
      FinishedFiles(Contents(), r, outcome, final);
      res := FinishError(r, attempt, outcome, final, stopPrints);
    }

    method CloseAttempt(r: Request, attempt: int, trial: Trial) returns (res: Result<(), JournalError>)
      requires Valid() && r in config.requests && trial.startPrints
      requires LastRunning(Files(r)) && LastOrdinal(Files(r)) == attempt && ReadStatus(Files(r), r).Ok?
      requires !FinalAt(Files(r))
      modifies this
      ensures Valid()
      ensures var ws := ClosingWrites(config.maxAttempts, r, attempt, trial.planned);
              Wrote(ws) && res == if Dies(ws, old(killAfter)) then Err(Killed) else AttemptVerdict(trial)
      ensures res != Err(Killed) ==>
                Answers(config.maxAttempts, r, trial.planned, old(Earlier(Files(r))), old(Files(r)).evidence, Files(r))
    {
      match trial.planned
      case Plans => res := CloseSuccess(r, attempt, trial.stopPrints);
      case NotFeasible => res := CloseError(r, attempt, Infeasible, true, trial.stopPrints);
      case Exhausts => res := CloseError(r, attempt, SearchExhausted, true, trial.stopPrints);
      case Fails => res := CloseError(r, attempt, Error, attempt >= config.maxAttempts, trial.stopPrints);
    }

    // Begin, then point active.json at the attempt.
    method OpenAttempt(r: Request) returns (res: Result<int, JournalError>)
      requires Valid() && r in config.requests && Files(r).status.Some? && !FinalAt(Files(r))
      modifies this
      ensures Valid()
      ensures old(LastRunning(Files(r))) ==> res == Err(AlreadyRunning) && Wrote([]) && Contents() == old(Contents())
      ensures !old(LastRunning(Files(r))) ==>
                && Wrote(OpeningWrites(r))
                && res == (if Dies(OpeningWrites(r), old(killAfter)) then Err(Killed)
                           else Ok(old(NextOrdinal(Contents(), r))))
                && (res.Ok? ==> LastRunning(Files(r)) && LastOrdinal(Files(r)) == res.value
                                && ReadStatus(Files(r), r).Ok?
                                && Earlier(Files(r)) == AttemptsIn(old(Files(r)))
                                && Files(r).evidence == old(Files(r)).evidence)
    {
      RunKeepsInv(config, log);
      if !LastRunning(Files(r)) {
        OpeningStates(config, Contents(), r);
      }
      var attempt :- BeginAttempt(r);
      var ok := SetActive(Some(r));
      res := if ok then Ok(attempt) else Err(Killed);
    }

    // The try statement with its finally clause, which a killed process skips.
    method TryPoint(r: Request, attempt: int, trial: Trial) returns (res: Result<(), JournalError>)
      requires Valid() && r in config.requests && trial.startPrints
      requires LastRunning(Files(r)) && LastOrdinal(Files(r)) == attempt && ReadStatus(Files(r), r).Ok?
      requires !FinalAt(Files(r))
      modifies this
      ensures Valid()
      ensures var ws := ClosingWrites(config.maxAttempts, r, attempt, trial.planned) + [WriteActive(None)];
              Wrote(ws) && res == if Dies(ws, old(killAfter)) then Err(Killed) else AttemptVerdict(trial)
      ensures res != Err(Killed) ==>
                Answers(config.maxAttempts, r, trial.planned, old(Earlier(Files(r))), old(Files(r)).evidence, Files(r))
    {
      CutOfSum(ClosingWrites(config.maxAttempts, r, attempt, trial.planned), [WriteActive(None)], killAfter);
      res := CloseAttempt(r, attempt, trial);
      if res != Err(Killed) {
        var ok := SetActive(None);
        if !ok {
          res := Err(Killed);
        }
      }
    }

    // Exactly the writes of one attempt, cut where the process is killed.
    method EvaluatePoint(r: Request, trial: Trial) returns (res: Result<(), JournalError>)
      requires Valid() && r in config.requests && Files(r).status.Some? && !FinalAt(Files(r))
      modifies this
      ensures Valid()
      ensures old(LastRunning(Files(r))) ==> res == Err(AlreadyRunning) && Wrote([]) && Contents() == old(Contents())
      ensures !old(LastRunning(Files(r))) ==>
                var ws := AttemptWrites(config.maxAttempts, r, old(NextOrdinal(Contents(), r)), trial);
                Wrote(ws) && res == if Dies(ws, old(killAfter)) then Err(Killed) else AttemptVerdict(trial)
      // It ends well exactly when both lines could be printed.
      ensures !old(LastRunning(Files(r))) && res != Err(Killed) ==>
                && (res.Ok? <==> trial.startPrints && trial.stopPrints)
                && (res.Err? ==> res.error == if trial.startPrints && trial.planned.Plans? then IdentityChanged
                                              else ConsoleFailed)
      ensures !old(LastRunning(Files(r))) && trial.startPrints && res != Err(Killed) ==>
                Answers(config.maxAttempts, r, trial.planned, AttemptsIn(old(Files(r))), old(Files(r)).evidence,
                        Files(r))
    {
      ghost var n, kill := NextOrdinal(Contents(), r), killAfter;
      ghost var closing := ClosingWrites(config.maxAttempts, r, n, trial.planned) + [WriteActive(None)];
      CutOfSum(OpeningWrites(r), closing, kill);
      var attempt :- OpenAttempt(r);
      if !trial.startPrints {
        return Err(ConsoleFailed);
      }
      ghost var begun := log;
      assert !FinalAt(Files(r)) by {
        RunKeepsInv(config, log);
      }
      res := TryPoint(r, attempt, trial);
      CutContinues(old(log), begun, log, OpeningWrites(r), closing, kill);
    }

    // A running attempt that is not the pointer's was begun by the last write.
    ghost predicate Recoverable(r: Request)
      reads this
    {
      LastRunning(Files(r)) ==> active == Some(r) || (active.None? && |log| > 0 && log[|log| - 1] == Begin(r))
    }

    ghost predicate OthersKept(before: Disk, r: Request)
      reads this
    {
      forall id :: id != r.id ==> FilesOf(Contents(), id) == FilesOf(before, id)
    }

    ghost function AttemptsOf(r: Request): int
      reads this
    {
      if Files(r).status.Some? then |Files(r).status.value.attempts| else 0
    }

    // The test of the attempts charged, and the ordinal of the next attempt.
    method CheckBudget(r: Request) returns (res: Result<int, JournalError>)
      requires Valid() && r in config.requests && Files(r).status.Some? && !FinalAt(Files(r))
      ensures res.Err? <==> LastRunning(Files(r)) && Charged(Earlier(Files(r))) == config.maxAttempts - 1
      ensures res.Ok? ==> res.value == AttemptsOf(r) + 1
      ensures res.Err? ==> res == Err(AttemptsExhausted)
    {
      RunKeepsInv(config, log);
      ExhaustionNeedsAnOrphan(config, log, r);
      MaxOrdinalIsLength(Files(r).status.value.attempts);
      var charged := AttemptCount(FilesOf(Contents(), r.id), r);
      if charged.Err? || charged.value >= config.maxAttempts {
        return match charged case Err(e) => Err(e) case Ok(_) => Err(AttemptsExhausted);
      }
      res := Ok(MaxOrdinal(FilesOf(Contents(), r.id).status.value.attempts) + 1);
    }

    // One turn of the retry loop, on a point that is not complete.
    method Retry(r: Request, trials: (Request, int) -> Trial) returns (res: Result<(), JournalError>)
      requires Valid() && r in config.requests && inventory && active.None?
      requires Files(r).status.Some? && !FinalAt(Files(r))
      modifies this
      ensures Valid() && inventory && OthersKept(old(Contents()), r) && workerAttempts == old(workerAttempts)
      ensures old(log) <= log
      ensures old(killAfter).None? ==> killAfter.None?
      ensures old(LastRunning(Files(r))) ==>
                && Contents() == old(Contents())
                && res == Err(if Charged(old(Earlier(Files(r)))) == config.maxAttempts - 1 then AttemptsExhausted
                              else AlreadyRunning)
      ensures !old(LastRunning(Files(r))) ==>
                && Files(r).status.Some? && Recoverable(r) && (active.None? || active == Some(r))
                && (res.Ok? ==>
                      && active.None? && !LastRunning(Files(r))
                      && AttemptsOf(r) == old(AttemptsOf(r)) + 1
                      && AnsweredBy(trials(r, old(AttemptsOf(r)) + 1), r, old(Files(r)), Files(r))
                      && (!FinalAt(Files(r)) ==> AttemptsOf(r) < config.maxAttempts))
                && (res.Err? ==>
                      || (res.error.Killed? && old(killAfter).Some?)
                      || ((res.error.ConsoleFailed? || res.error.IdentityChanged?)
                          && !Prints(trials(r, old(AttemptsOf(r)) + 1))))
    {
      var attempt :- CheckBudget(r);
      var trial := trials(r, attempt);
      res := EvaluatePoint(r, trial);
      if !old(LastRunning(Files(r))) {
        AttemptLeft(config, old(log), log, r, trial, old(killAfter));
      }
    }

    // One whole attempt, announced and reported.
    predicate AnsweredBy(trial: Trial, r: Request, f: Files, g: Files) {
      Prints(trial) && Answers(config.maxAttempts, r, trial.planned, AttemptsIn(f), f.evidence, g)
    }

    // The same, going on from what the worker made of the point it found.
    method RetryOn(r: Request, trials: (Request, int) -> Trial, ghost found: Files)
        returns (res: Result<(), JournalError>)
      requires Valid() && r in config.requests && inventory && active.None?
      requires Files(r).status.Some? && !FinalAt(Files(r))
      requires Answered(config.maxAttempts, r, trials, found, Files(r))
      modifies this
      ensures Valid() && inventory && OthersKept(old(Contents()), r) && workerAttempts == old(workerAttempts)
      ensures old(log) <= log && (old(killAfter).None? ==> killAfter.None?)
      ensures old(LastRunning(Files(r))) ==>
                && Contents() == old(Contents())
                && (res == Err(AttemptsExhausted) || res == Err(AlreadyRunning))
      ensures !old(LastRunning(Files(r))) ==>
                && Files(r).status.Some? && Recoverable(r) && (active.None? || active == Some(r))
      ensures !old(LastRunning(Files(r))) && res.Err? ==>
                || (res.error.Killed? && old(killAfter).Some?)
                || ((res.error.ConsoleFailed? || res.error.IdentityChanged?) && BreaksConsole(r, trials))
      ensures res.Ok? ==>
                && active.None? && !LastRunning(Files(r))
                && Answered(config.maxAttempts, r, trials, found, Files(r))
                && (!FinalAt(Files(r)) ==> old(AttemptsOf(r)) < AttemptsOf(r) < config.maxAttempts)
    {
      ghost var entered := Files(r);
      res := Retry(r, trials);
      if res.Ok? {
        OneAnswered(config.maxAttempts, r, trials, entered, Files(r));
        AnsweredFurther(config.maxAttempts, r, trials, found, entered, Files(r));
      }
    }

    // One point of the worker's loop over requests.
    method CompletePoint(r: Request, trials: (Request, int) -> Trial) returns (res: Result<(), JournalError>)
      requires Valid() && r in config.requests && inventory && active.None?
      modifies this
      ensures Valid() && inventory && OthersKept(old(Contents()), r) && workerAttempts == old(workerAttempts)
      ensures old(log) <= log
      ensures old(killAfter).None? ==> killAfter.None?
      ensures res.Ok? ==> FinalAt(Files(r)) && active.None? && !LastRunning(Files(r))
      ensures res.Ok? ==> Completed(config.maxAttempts, r, trials, old(Files(r)), Files(r))
      ensures old(LastRunning(Files(r))) ==>
                && Files(r) == old(Files(r)) && active.None?
                && (res == Err(AttemptsExhausted) || res == Err(AlreadyRunning))
      ensures !old(LastRunning(Files(r))) ==>
                && Recoverable(r) && (active.None? || active == Some(r))
                && (res.Err? ==>
                      || (res.error.Killed? && old(killAfter).Some?)
                      || ((res.error.ConsoleFailed? || res.error.IdentityChanged?) && BreaksConsole(r, trials)))
    {
      RunKeepsInv(config, log);
      res := InitializePoint(r);
      if res.Err? {
        return;
      }
      CompletenessNeverFails(config, log, r);
      var complete := PointComplete(FilesOf(Contents(), r.id), r);
      while complete == Ok(false)
        invariant Valid() && inventory && active.None? && OthersKept(old(Contents()), r) && old(log) <= log
        invariant workerAttempts == old(workerAttempts) && (old(killAfter).None? ==> killAfter.None?)
        invariant Files(r).status.Some? && complete == Ok(FinalAt(Files(r)))
        invariant old(LastRunning(Files(r))) ==> Files(r) == old(Files(r)) && complete == Ok(false)
        invariant !old(LastRunning(Files(r))) ==> !LastRunning(Files(r))
        invariant Answered(config.maxAttempts, r, trials, old(Files(r)), Files(r))
        invariant old(FinalAt(Files(r))) ==> Files(r) == old(Files(r))
        decreases complete == Ok(false), config.maxAttempts - AttemptsOf(r)
      {
        res := RetryOn(r, trials, old(Files(r)));
        if res.Err? {
          return;
        }
        CompletenessNeverFails(config, log, r);
        complete := PointComplete(FilesOf(Contents(), r.id), r);
      }
      RunKeepsInv(config, log);
      AnsweredIsCompleted(config.maxAttempts, r, trials, old(Files(r)), Files(r));
      res := match complete case Ok(_) => Ok(()) case Err(e) => Err(e);
    }

    // The worker, at the head of its loop, with the first i points complete.
    ghost predicate Advanced(before: Disk, trials: (Request, int) -> Trial, i: int)
      reads this
    {
      && Valid() && inventory && active.None? && 0 <= i <= |config.requests|
      && WorkerKept(config, before, Contents(), None)
      && DoneUpTo(config, trials, before, Contents(), i)
    }

    method EvaluateNext(i: nat, trials: (Request, int) -> Trial, ghost before: Disk)
        returns (res: Result<(), JournalError>)
      requires i < |config.requests| && Advanced(before, trials, i)
      modifies this
      ensures Valid() && workerAttempts == old(workerAttempts) && (old(killAfter).None? ==> killAfter.None?)
      ensures old(log) <= log
      ensures res.Ok? ==> Advanced(before, trials, i + 1)
      ensures res.Err? ==> var r := config.requests[i];
                           if LastRunning(FilesOf(before, r.id)) then
                             WorkerKept(config, before, Contents(), None) && active.None?
                           else
                             && WorkerKept(config, before, Contents(), Some(r)) && Recoverable(r)
                             && (active.None? || active == Some(r))
                             && (old(killAfter).None? ==> BreaksConsole(r, trials))
    {
      var r := config.requests[i];
      ghost var entered := Contents();
      DistinctIds(config, i);
      res := CompletePoint(r, trials);
      WorkerStep(config, before, entered, Contents(), r);
      if res.Ok? {
        NextDone(config, trials, before, entered, Contents(), i);
      }
      RunKeepsInv(config, log);
    }

    // A worker process over the whole case, ended by whatever `res` says while
    // on the point `on`. A point found running on entry is never touched and
    // keeps the worker from succeeding; the only point it can leave running is
    // `on`, recoverable through active.json unless the very last write began
    // the attempt.
    method EvaluateCase(trials: (Request, int) -> Trial)
      returns (res: Result<(), JournalError>, ghost on: Option<Request>)
      requires Valid()
      modifies this
      ensures Valid() && workerAttempts == old(workerAttempts)
      ensures old(killAfter).None? ==> killAfter.None?
      ensures WorkerKept(config, old(Contents()), Contents(), on)
      ensures on.Some? ==>
                on.value in config.requests && Recoverable(on.value) && !LastRunning(old(Files(on.value)))
      ensures old(log) <= log && (|old(log)| < |log| ==> log[|old(log)|] == WriteInventory)
      ensures on.Some? ==> |old(log)| < |log|
      ensures active == None || active == old(active) || active == on
      ensures res.Ok? ==> inventory && active.None? && AllFinal(config, Contents()) && old(Calm(config, Contents()))
      ensures res.Ok? ==> AllCompleted(config, trials, old(Contents()), Contents())
      ensures res.Err? && old(Calm(config, Contents())) && old(killAfter).None? ==>
                exists r :: r in config.requests && BreaksConsole(r, trials)
    {
      ghost var before := Contents();
      var ok := OpenCase();
      if !ok {
        return Err(Killed), None;
      }
      res, on := EvaluatePoints(trials, before);
      if res.Ok? {
        AllDone(config, trials, before, Contents());
        ghost var points' := points;
        ok := SetActive(None);
        assert points == points';
        res := if ok then Ok(()) else Err(Killed);
      }
    }

    // The inventory, then a cleared pointer.
    method OpenCase() returns (ok: bool)
      requires Valid()
      modifies this
      ensures Valid() && points == old(points) && workerAttempts == old(workerAttempts)
      ensures old(killAfter).None? ==> ok && killAfter.None?
      ensures ok ==> inventory && active.None? && |old(log)| < |log|
      ensures active == old(active) || active.None?
      ensures old(log) <= log && (|old(log)| < |log| ==> log[|old(log)|] == WriteInventory)
    {
      ok := SetInventory();
      if ok {
        ok := SetActive(None);
      }
    }

    // The loop over the points.
    method EvaluatePoints(trials: (Request, int) -> Trial, ghost before: Disk)
      returns (res: Result<(), JournalError>, ghost on: Option<Request>)
      requires Advanced(before, trials, 0)
      modifies this
      ensures Valid() && workerAttempts == old(workerAttempts) && old(log) <= log
      ensures old(killAfter).None? ==> killAfter.None?
      ensures WorkerKept(config, before, Contents(), on)
      ensures on.Some? ==> on.value in config.requests && Recoverable(on.value)
                           && !LastRunning(FilesOf(before, on.value.id))
      ensures active == None || active == on
      ensures res.Ok? ==> on.None? && Advanced(before, trials, |config.requests|)
      ensures res.Err? && Calm(config, before) && old(killAfter).None? ==>
                exists r :: r in config.requests && BreaksConsole(r, trials)
    {
      on, res := None, Ok(());
      var i := 0;
      while i < |config.requests|
        invariant Advanced(before, trials, i) && workerAttempts == old(workerAttempts) && old(log) <= log && res.Ok?
        invariant old(killAfter).None? ==> killAfter.None?
      {
        res := EvaluateNext(i, trials, before);
        if res.Err? {
          on := if LastRunning(FilesOf(before, config.requests[i].id)) then None else Some(config.requests[i]);
          return;
        }
        i := i + 1;
      }
    }

    // ----- controller.py -----

    ghost function RecoveryWrites(r: Request): seq<Write>
      reads this
    {
      if LastRunning(Files(r)) then FinishWrites(r, Error, LastOrdinal(Files(r)) >= config.maxAttempts) else []
    }

    // A worker killed on an attempt: close it as an error.
    method RecoverRunning(r: Request) returns (res: Result<bool, JournalError>)
      requires Valid() && r in config.requests && Files(r).status.Some?
      modifies this
      ensures Valid() && Wrote(old(RecoveryWrites(r)))
      ensures res == if Dies(old(RecoveryWrites(r)), old(killAfter)) then Err(Killed) else Ok(FinalAt(Files(r)))
      ensures res.Ok? ==> Files(r) == KilledAt(config.maxAttempts, r, old(Files(r)))
      ensures OthersKept(old(Contents()), r) && inventory == old(inventory) && active == old(active)
    {
      RunKeepsInv(config, log);
      RecoveryClosesOnce(config.maxAttempts, r, Files(r));
      CompletenessNeverFails(config, log, r);
      var f := FilesOf(Contents(), r.id);
      if !LastRunning(f) {
        return PointComplete(f, r);
      }
      var attempt := LastOrdinal(f);
      var final := attempt >= config.maxAttempts;
      var done := FinishAttempt(r, attempt, Error, if final then Some(Some(r)) else None, final);
      PointWritesStay(old(log), Cut(FinishWrites(r, Error, final), old(killAfter)), r);
      res := match done case Ok(_) => Ok(final) case Err(e) => Err(e);
    }

    ghost function ActiveWrites(): seq<Write>
      reads this
    {
      if active.None? then [] else RecoveryWrites(active.value) + [WriteActive(None)]
    }

    // Controller and worker agree on the point through active.json.
    method RecoverActivePoint() returns (res: Result<(), JournalError>)
      requires Valid()
      modifies this
      ensures Valid() && Wrote(old(ActiveWrites())) && inventory == old(inventory)
      ensures res == if Dies(old(ActiveWrites()), old(killAfter)) then Err(Killed) else Ok(())
      ensures old(active).None? ==> Contents() == old(Contents())
      ensures old(active).Some? ==>
                var r := old(active).value;
                && OthersKept(old(Contents()), r)
                && (res.Ok? ==> active.None? && Files(r) == KilledAt(config.maxAttempts, r, old(Files(r))))
    {
      RunKeepsInv(config, log);
      if active.None? {
        return Ok(());
      }
      var pointer := active.value;
      CutOfSum(RecoveryWrites(pointer), [WriteActive(None)], killAfter);
      var f := FilesOf(Contents(), pointer.id);
      var agrees := f.request == Some(pointer.digest);
      if !agrees {
        return Err(PointerDisagrees);
      }
      var recovered := RecoverRunning(pointer);
      if recovered.Err? {
        return match recovered case Err(e) => Err(e) case Ok(_) => Err(Killed);
      }
      var ok := SetActive(None);
      res := if ok then Ok(()) else Err(Killed);
    }

    ghost function InterruptWrites(r: Request): seq<Write>
      reads this
    {
      if LastRunning(Files(r)) then [Interrupt(r)] else []
    }

    method InterruptPoint(r: Request) returns (res: Result<bool, JournalError>)
      requires Valid() && r in config.requests
      modifies this
      ensures Valid() && Wrote(old(InterruptWrites(r))) && inventory == old(inventory) && active == old(active)
      ensures res == if Dies(old(InterruptWrites(r)), old(killAfter)) then Err(Killed)
                     else Ok(LastRunning(old(Files(r))))
      ensures Files(r) == (if res.Ok? then InterruptedAt(r, old(Files(r))) else old(Files(r)))
      ensures OthersKept(old(Contents()), r)
    {
      var f := FilesOf(Contents(), r.id);
      if !LastRunning(f) {
        return Ok(false);
      }
      StartedIsListed(r);
      var s := f.status.value;
      var last := |s.attempts| - 1;
      var attempts := s.attempts[last := s.attempts[last].(status := Interrupted)];
      var ok := SetPoint(r, f.(status := Some(s.(status := Retryable, attempts := attempts))), Interrupt(r));
      res := if ok then Ok(true) else Err(Killed);
    }

    // Resume: interrupt whatever an earlier controller left running. Killed on
    // the way, it leaves every point as it was or as it would have made it.
    method RecoverInterruptedPoints() returns (res: Result<nat, JournalError>)
      requires Valid()
      modifies this
      ensures Valid() && workerAttempts == old(workerAttempts) && inventory == old(inventory) && old(log) <= log
      ensures old(killAfter).None? ==> killAfter.None?
      ensures active == old(active) || active.None?
      ensures res == Err(Killed) ==> old(killAfter).Some? && AllOrNothing(config, old(Contents()), Contents())
      ensures res != Err(Killed) ==>
                && res == Ok(RunningCount(config.requests, old(Contents())))
                && active.None? && Calm(config, Contents())
                && forall r :: r in config.requests ==> Files(r) == InterruptedAt(r, old(Files(r)))
    {
      RunKeepsInv(config, log);
      ghost var before := Contents();
      if !inventory {
        assert forall id :: id !in points;
        NothingRuns(config.requests, before);
        return Ok(0);
      }
      var count := 0;
      var i := 0;
      while i < |config.requests|
        invariant 0 <= i <= |config.requests| && count == RunningCount(config.requests[..i], before)
        invariant Valid() && workerAttempts == old(workerAttempts) && inventory && active == old(active)
        invariant old(log) <= log && (old(killAfter).None? ==> killAfter.None?)
        invariant InterruptedUpTo(config, before, Contents(), i)
      {
        InterruptedNext(config, before, i);
        ghost var entered := Contents();
        var interrupted := InterruptPoint(config.requests[i]);
        InterruptedStep(config, before, entered, Contents(), i, interrupted.Ok?);
        if interrupted.Err? {
          return Err(Killed);
        }
        if interrupted.value {
          count := count + 1;
        }
        i := i + 1;
      }
      InterruptedAll(config, before, Contents());
      assert config.requests[..i] == config.requests;
      ghost var points' := points;
      var ok := SetActive(None);
      assert points == points';
      res := if ok then Ok(count) else Err(Killed);
    }

    method CheckComplete() returns (complete: Result<bool, JournalError>)
      requires Valid()
      ensures complete == Ok(Evidenced(config, Contents()))
    {
      RunKeepsInv(config, log);
      CaseCompleteMeansEvidence(config, Contents(), config.requests);
      complete := CaseComplete(Contents(), config.requests);
    }

    // One worker process, recorded once it is gone.
    method RunWorker(kill: Option<nat>, trials: (Request, int) -> Trial) returns (ghost on: Option<Request>)
      requires Valid() && killAfter.None? && active.None?
      modifies this
      ensures Valid() && killAfter.None? && workerAttempts == old(workerAttempts) + 1 && old(log) <= log
      ensures |old(log)| < |log| ==> log[|old(log)|] == WriteInventory
      ensures WorkerKept(config, old(Contents()), Contents(), on)
      ensures on.Some? ==>
                && on.value in config.requests && Recoverable(on.value) && !LastRunning(old(Files(on.value)))
                && |old(log)| < |log|
      ensures active.None? || active == on
      ensures old(Calm(config, Contents())) && kill.None? ==>
                (inventory && AllFinal(config, Contents()))
                || exists r :: r in config.requests && BreaksConsole(r, trials)
    {
      killAfter := kill;
      ghost var res;
      res, on := EvaluateCase(trials);
      killAfter := None;
      workerAttempts := workerAttempts + 1;
    }

    // The recovery after a worker that began at `before` with `from` writes done.
    method RecoverAfter(ghost before: Disk, ghost from: nat, ghost on: Option<Request>)
      requires Valid() && killAfter.None? && from <= |log| && WorkerKept(config, before, Contents(), on)
      requires on.Some? ==>
                 && on.value in config.requests && Recoverable(on.value) && !LastRunning(FilesOf(before, on.value.id))
                 && from < |log|
      requires active.None? || active == on
      modifies this
      ensures Valid() && killAfter.None? && workerAttempts == old(workerAttempts) && old(log) <= log && active.None?
      ensures !Calm(config, before) ==> !Calm(config, Contents())
      ensures Calm(config, before) && !Calm(config, Contents()) ==> GapAt(log, from, |log| - 1)
      ensures old(active).None? ==> log == old(log)
      ensures RunningKept(config, before, Contents())
    {
      ghost var left := Contents();
      assert Inv(config, left) by {
        RunKeepsInv(config, log);
      }
      var recovered := RecoverActivePoint();
      RecoveredWorker(config, before, left, Contents(), on);
    }

    // A worker process, then the recovery of the point it died on.
    method Restart(kill: Option<nat>, trials: (Request, int) -> Trial) returns (complete: Result<bool, JournalError>)
      requires Valid() && killAfter.None? && active.None?
      modifies this
      ensures Valid() && killAfter.None? && workerAttempts == old(workerAttempts) + 1 && old(log) <= log
      ensures |old(log)| < |log| ==> log[|old(log)|] == WriteInventory
      ensures complete.Ok? && (complete.value ==> Evidenced(config, Contents()))
      ensures RunningKept(config, old(Contents()), Contents())
      ensures !complete.value ==>
                && active.None?
                && (old(Calm(config, Contents())) && !Calm(config, Contents()) ==> GapAt(log, |old(log)|, |log| - 1))
                && (old(Calm(config, Contents())) && kill.None? ==>
                      exists r :: r in config.requests && BreaksConsole(r, trials))
    {
      ghost var before := Contents();
      ghost var on := RunWorker(kill, trials);
      complete := CheckComplete();
      FinalIsEvidenced(config, log);
      if complete == Ok(true) {
        return;
      }
      RecoverAfter(before, |old(log)|, on);
    }

    // Every point has evidence, and all are final unless some point's evidence
    // was written without its journal being closed on it.
    ghost predicate CompletedBy(ws: seq<Write>)
      reads this
    {
      && Evidenced(config, Contents())
      && (AllFinal(config, Contents()) <==> forall r :: r in config.requests ==> !CutShort(ws, r))
    }

    lemma EvidencedIsCompleted()
      requires Valid() && Evidenced(config, Contents())
      ensures CompletedBy(log)
    {
      CompleteMeansFinal(config, log);
    }

    // Between restarts of a controller that began with `first` workers behind
    // it and `from` writes done, on a calm or a stuck case.
    ghost predicate Between(calm: bool, stuck: bool, from: nat, first: nat, kills: int -> Option<nat>,
                            trials: (Request, int) -> Trial)
      reads this
    {
      && Valid() && killAfter.None? && active.None? && from <= |log| && first <= workerAttempts
      && (stuck ==> Stuck(config, Contents()))
      && (calm && !Calm(config, Contents()) ==> Gapped(log, from))
      && (calm && Healthy(config, first, workerAttempts, kills, trials) ==> !Calm(config, Contents()))
    }

    // One turn of the restart loop.
    method Turn(kills: int -> Option<nat>, trials: (Request, int) -> Trial,
                ghost calm: bool, ghost stuck: bool, ghost from: nat, ghost first: nat)
      returns (complete: bool)
      requires Between(calm, stuck, from, first, kills, trials)
      modifies this
      ensures Valid() && killAfter.None? && old(log) <= log
      // No worker is launched on a case that is already complete.
      ensures old(Evidenced(config, Contents())) ==>
                complete && log == old(log) && Contents() == old(Contents()) && workerAttempts == old(workerAttempts)
      ensures !old(Evidenced(config, Contents())) ==> workerAttempts == old(workerAttempts) + 1
      ensures complete ==> !stuck && CompletedBy(log)
      ensures !complete ==> workerAttempts == old(workerAttempts) + 1
                            && Between(calm, stuck, from, first, kills, trials)
    {
      var done := CheckComplete();
      if done == Ok(true) {
        EvidencedIsCompleted();
        return true;
      }
      ghost var before, entered := log, Contents();
      done := Restart(kills(workerAttempts + 1), trials);
      if stuck {
        StuckStays(config, entered, Contents());
      }
      if done == Ok(true) {
        EvidencedIsCompleted();
        return true;
      }
      if calm {
        StaysGapped(config, before, log, from, entered, Contents());
      }
      return false;
    }

    // Restart workers until every point has evidence. `kills` says after how
    // many writes each worker is killed, if it is.
    method RunUntilComplete(maxRestarts: int, kills: int -> Option<nat>, trials: (Request, int) -> Trial)
      returns (res: Result<(), JournalError>)
      requires Valid() && killAfter.None? && active.None?
      modifies this
      ensures Valid() && killAfter.None? && old(log) <= log
      ensures res == Ok(()) || (res == Err(RestartsExceeded) && active.None? && workerAttempts >= maxRestarts)
      ensures res.Ok? ==> CompletedBy(log)
      ensures old(Evidenced(config, Contents())) || old(workerAttempts) >= maxRestarts ==>
                log == old(log) && Contents() == old(Contents()) && workerAttempts == old(workerAttempts)
                && (res.Ok? <==> old(workerAttempts) < maxRestarts)
      ensures !old(Evidenced(config, Contents())) && old(workerAttempts) < maxRestarts ==>
                old(workerAttempts) < workerAttempts <= maxRestarts
      ensures old(Stuck(config, Contents())) ==> res == Err(RestartsExceeded)
      ensures old(Calm(config, Contents())) && !Calm(config, Contents()) && res.Err? ==> Gapped(log, |old(log)|)
      ensures res.Err? && old(Calm(config, Contents()))
                         && Healthy(config, old(workerAttempts), maxRestarts, kills, trials) ==>
                !Calm(config, Contents())
    {
      ghost var calm, stuck, first := Calm(config, Contents()), Stuck(config, Contents()), workerAttempts;
      while workerAttempts < maxRestarts
        invariant Between(calm, stuck, |old(log)|, first, kills, trials) && old(log) <= log
        invariant workerAttempts == first ==> log == old(log) && Contents() == old(Contents())
        invariant workerAttempts > first ==> !old(Evidenced(config, Contents())) && workerAttempts <= maxRestarts
        decreases maxRestarts - workerAttempts
      {
        var complete := Turn(kills, trials, calm, stuck, |old(log)|, first);
        if complete {
          return Ok(());
        }
      }
      return Err(RestartsExceeded);
    }

    // A resumed controller, on whatever an earlier one left: with one unharmed
    // restart the case completes, unless a process was stopped in the gap
    // between beginning an attempt and pointing active.json at it.
    method ResumeCase(maxRestarts: int, kills: int -> Option<nat>, trials: (Request, int) -> Trial)
      returns (res: Result<(), JournalError>)
      requires Valid() && killAfter.None?
      modifies this
      ensures Valid()
      ensures res.Ok? ==> CompletedBy(log)
      ensures Healthy(config, old(workerAttempts), maxRestarts, kills, trials) ==> res.Ok? || Gapped(log, |old(log)|)
      // A case that is complete is skipped, whatever restarts are left.
      ensures old(Evidenced(config, Contents())) ==> res.Ok? && workerAttempts == old(workerAttempts)
    {
      var recovered := RecoverInterruptedPoints();
      ghost var resumed := log;
      var complete := CheckComplete();
      if complete == Ok(true) {
        EvidencedIsCompleted();
        return Ok(());
      }
      res := RunUntilComplete(maxRestarts, kills, trials);
      if Gapped(log, |resumed|) {
        var i :| GapAt(log, |resumed|, i);
        assert GapAt(log, |old(log)|, i);
      }
    }
  }

  lemma StaysGapped(c: Config, before: seq<Write>, now: seq<Write>, from: nat, entered: Disk, left: Disk)
    requires before <= now && (|before| < |now| ==> now[|before|] == WriteInventory) && from <= |before|
    requires !Calm(c, entered) ==> Gapped(before, from)
    requires Calm(c, entered) && !Calm(c, left) ==> GapAt(now, |before|, |now| - 1)
    ensures (!Calm(c, left) && Calm(c, entered)) || Gapped(before, from) ==> Gapped(now, from)
  {
    if (!Calm(c, left) && Calm(c, entered)) || Gapped(before, from) {
      GapStays(before, now, from);
    }
  }

  lemma GapStays(before: seq<Write>, now: seq<Write>, from: nat)
    requires before <= now && (|before| < |now| ==> now[|before|] == WriteInventory) && from <= |before|
    requires Gapped(before, from) || GapAt(now, |before|, |now| - 1)
    ensures Gapped(now, from)
  {
    if Gapped(before, from) {
      var i :| GapAt(before, from, i);
      assert GapAt(now, from, i);
    } else {
      assert GapAt(now, from, |now| - 1);
    }
  }

  // A worker's leftovers after recovery of the point in active.json.
  lemma RecoveredWorker(c: Config, before: Disk, left: Disk, now: Disk, on: Option<Request>)
    requires ValidConfig(c) && Inv(c, left) && WorkerKept(c, before, left, on)
    requires on.Some? ==> on.value in c.requests && !LastRunning(FilesOf(before, on.value.id))
    requires left.active.None? ==> now == left
    requires left.active.Some? ==>
               && left.active == on
               && FilesOf(now, on.value.id) == KilledAt(c.maxAttempts, on.value, FilesOf(left, on.value.id))
               && forall id :: id != on.value.id ==> FilesOf(now, id) == FilesOf(left, id)
    ensures RunningKept(c, before, now) && (!Calm(c, before) ==> !Calm(c, now))
    ensures Calm(c, before) && !Calm(c, now) ==>
              on.Some? && left.active.None? && LastRunning(FilesOf(left, on.value.id))
  {
    forall q | q in c.requests && LastRunning(FilesOf(before, q.id))
      ensures FilesOf(now, q.id) == FilesOf(before, q.id)
    {
      assert on.Some? ==> on.value.id != q.id;
    }
    if !Calm(c, before) {
      var q :| q in c.requests && LastRunning(FilesOf(before, q.id));
      assert LastRunning(FilesOf(now, q.id));
    } else if !Calm(c, now) {
      var q :| q in c.requests && LastRunning(FilesOf(now, q.id));
      if left.active.Some? {
        RecoveryClosesOnce(c.maxAttempts, on.value, FilesOf(left, on.value.id));
        assert false;
      }
    }
  }

  // Some restart after the first `from` runs unharmed, with a console to print to.
  ghost predicate Healthy(c: Config, from: int, to: int, kills: int -> Option<nat>, trials: (Request, int) -> Trial) {
    && (exists k :: from < k <= to && kills(k).None?)
    && (forall r :: r in c.requests ==> !BreaksConsole(r, trials))
  }

  // A process stopped between beginning an attempt and pointing at it.
  ghost predicate Gapped(log: seq<Write>, from: int)
  {
    exists i :: GapAt(log, from, i)
  }

  ghost predicate GapAt(log: seq<Write>, from: int, i: int) {
    0 <= from <= i < |log| && log[i].Begin? && (i + 1 < |log| ==> log[i + 1] != WriteActive(Some(log[i].r)))
  }

  function RunningCount(requests: seq<Request>, d: Disk): nat {
    if |requests| == 0 then 0
    else
      RunningCount(requests[..|requests| - 1], d)
      + if LastRunning(FilesOf(d, requests[|requests| - 1].id)) then 1 else 0
  }

  // Of distinct requests, that is how many are running.
  lemma {:induction false} CountIsSize(requests: seq<Request>, d: Disk)
    requires forall i, j :: 0 <= i < j < |requests| ==> requests[i] != requests[j]
    ensures RunningCount(requests, d) == |set r | r in requests && LastRunning(FilesOf(d, r.id))|
  {
    if |requests| > 0 {
      var front, last := requests[..|requests| - 1], requests[|requests| - 1];
      CountIsSize(front, d);
      var some := set r | r in front && LastRunning(FilesOf(d, r.id));
      var all := set r | r in requests && LastRunning(FilesOf(d, r.id));
      assert requests == front + [last] && last !in front;
      assert all == if LastRunning(FilesOf(d, last.id)) then some + {last} else some;
    }
  }

  lemma NothingRuns(requests: seq<Request>, d: Disk)
    requires forall id :: id !in d.points
    ensures RunningCount(requests, d) == 0
  {}
}
