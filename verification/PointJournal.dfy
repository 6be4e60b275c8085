// The files of one frontier case and the atomic writes that change them
// (benchmarking/planning_eval/journal.py, active.py).
//
// A run is the sequence of atomic writes that reached the disk. A crash needs
// no write of its own: whatever executed before it leaves a prefix, and what
// executes after it continues from the files of that prefix.
module PointJournal {
  import opened Wrappers

  datatype Status =
    | Pending | Running | Retryable | Interrupted
    | Succeeded | Infeasible | SearchExhausted | Error
  {
    predicate Final() {
      Succeeded? || Infeasible? || SearchExhausted? || Error?
    }
  }

  datatype Attempt = Attempt(ordinal: int, status: Status)

  datatype StatusFile = StatusFile(digest: string, status: Status, attempts: seq<Attempt>)

  datatype Evidence = Evidence(digest: string, status: Status)

  // One point directory: request.json, status.json, point.json.
  datatype Files = Files(request: Option<string>, status: Option<StatusFile>, evidence: Option<Evidence>)

  datatype Request = Request(id: string, digest: string)

  // A case directory: whether case.json lists the points, the point
  // directories, and active.json.
  datatype Disk = Disk(inventory: bool, points: map<string, Files>, active: Option<Request>)

  datatype Config = Config(maxAttempts: int, requests: seq<Request>)

  predicate ValidConfig(c: Config) {
    && c.maxAttempts > 0
    && forall i, j :: 0 <= i < j < |c.requests| ==> c.requests[i].id != c.requests[j].id
  }

  // One atomic replacement of one file.
  datatype Write =
    | WriteInventory
    | WriteActive(pointer: Option<Request>)
    | WriteRequest(r: Request)
    | Create(r: Request)
    | Begin(r: Request)
    | WriteEvidence(r: Request, outcome: Status)
    | CloseFinal(r: Request, outcome: Status)
    | CloseRetry(r: Request, outcome: Status)
    | Interrupt(r: Request)

  const EMPTY := Disk(false, map[], None)

  function FilesOf(d: Disk, id: string): Files {
    if id in d.points then d.points[id] else Files(None, None, None)
  }

  predicate LastRunning(f: Files) {
    && f.status.Some?
    && |f.status.value.attempts| > 0
    && f.status.value.attempts[|f.status.value.attempts| - 1].status.Running?
  }

  predicate FinalAt(f: Files) {
    f.status.Some? && f.status.value.status.Final()
  }

  function LastOrdinal(f: Files): int
    requires LastRunning(f)
  {
    f.status.value.attempts[|f.status.value.attempts| - 1].ordinal
  }

  function MaxOrdinal(attempts: seq<Attempt>): (m: int) {
    if |attempts| == 0 then 0
    else
      var rest := MaxOrdinal(attempts[..|attempts| - 1]);
      var last := attempts[|attempts| - 1].ordinal;
      if last > rest then last else rest
  }

  function Begun(s: StatusFile): StatusFile {
    s.(status := Running, attempts := s.attempts + [Attempt(MaxOrdinal(s.attempts) + 1, Running)])
  }

  // The last attempt closed under one name, the point under another.
  function Closed(s: StatusFile, attempt: Status, point: Status): StatusFile
    requires |s.attempts| > 0
  {
    var n := |s.attempts| - 1;
    s.(status := point, attempts := s.attempts[n := s.attempts[n].(status := attempt)])
  }

  predicate EnabledAt(max: int, r: Request, f: Files, w: Write) {
    match w
    case WriteInventory => false
    case WriteActive(_) => false
    case WriteRequest(_) => f.request.None? && f.status.None?
    case Create(_) => f.request == Some(r.digest) && f.status.None?
    case Begin(_) => f.status.Some? && !FinalAt(f) && !LastRunning(f)
    case WriteEvidence(_, o) => LastRunning(f) && o.Final() && (o.Error? ==> LastOrdinal(f) >= max)
    case CloseFinal(_, o) =>
      LastRunning(f) && o.Final() && (o.Error? ==> LastOrdinal(f) >= max) && f.evidence == Some(Evidence(r.digest, o))
    case CloseRetry(_, o) => LastRunning(f) && o.Error? && LastOrdinal(f) < max
    case Interrupt(_) => LastRunning(f)
  }

  function ApplyAt(r: Request, f: Files, w: Write): Files {
    match w
    case WriteInventory => f
    case WriteActive(_) => f
    case WriteRequest(_) => f.(request := Some(r.digest))
    case Create(_) => f.(status := Some(StatusFile(r.digest, Pending, [])))
    case Begin(_) => if f.status.Some? then f.(status := Some(Begun(f.status.value))) else f
    case WriteEvidence(_, o) => f.(evidence := Some(Evidence(r.digest, o)))
    case CloseFinal(_, o) => if LastRunning(f) then f.(status := Some(Closed(f.status.value, o, o))) else f
    case CloseRetry(_, o) => if LastRunning(f) then f.(status := Some(Closed(f.status.value, o, Retryable))) else f
    case Interrupt(_) =>
      if LastRunning(f) then f.(status := Some(Closed(f.status.value, Interrupted, Retryable))) else f
  }

  predicate Enabled(c: Config, d: Disk, w: Write) {
    match w
    case WriteInventory => true
    case WriteActive(None) => true
    case WriteActive(Some(r)) => r in c.requests && LastRunning(FilesOf(d, r.id))
    case _ => w.r in c.requests && d.inventory && EnabledAt(c.maxAttempts, w.r, FilesOf(d, w.r.id), w)
  }

  function Apply(d: Disk, w: Write): Disk {
    match w
    case WriteInventory => d.(inventory := true)
    case WriteActive(a) => d.(active := a)
    case _ => d.(points := d.points[w.r.id := ApplyAt(w.r, FilesOf(d, w.r.id), w)])
  }

  function After(ws: seq<Write>): Disk {
    if ws == [] then EMPTY else Apply(After(ws[..|ws| - 1]), ws[|ws| - 1])
  }

  ghost predicate Legal(c: Config, ws: seq<Write>) {
    ws == [] || (Legal(c, ws[..|ws| - 1]) && Enabled(c, After(ws[..|ws| - 1]), ws[|ws| - 1]))
  }

  // ----- What every reachable disk satisfies -----

  // Ordinals are 1..n; everything before the last attempt is a retried error
  // below the limit or an interruption.
  ghost predicate AttemptsInv(max: int, attempts: seq<Attempt>) {
    && (forall i :: 0 <= i < |attempts| ==> attempts[i].ordinal == i + 1)
    && (forall i :: 0 <= i < |attempts| - 1 ==>
          attempts[i].status.Interrupted? || (attempts[i].status.Error? && i + 1 < max))
  }

  ghost predicate PointInv(max: int, r: Request, f: Files) {
    && (f.request.Some? ==> f.request.value == r.digest)
    && (f.evidence.Some? ==> f.status.Some? && f.evidence.value.digest == r.digest && f.evidence.value.status.Final())
    && (f.status.Some? ==>
          && f.request.Some?
          && var s := f.status.value;
          && s.digest == r.digest
          && AttemptsInv(max, s.attempts)
          && if |s.attempts| == 0 then s.status.Pending?
             else
               var last := s.attempts[|s.attempts| - 1].status;
               match s.status
               case Running => last.Running?
               case Retryable => last.Interrupted? || (last.Error? && |s.attempts| < max)
               case Pending => false
               case Interrupted => false
               case _ =>
                 && last == s.status
                 && f.evidence == Some(Evidence(r.digest, s.status))
                 && (s.status.Error? ==> |s.attempts| >= max))
  }

  ghost predicate Inv(c: Config, d: Disk) {
    && (forall r :: r in c.requests ==> PointInv(c.maxAttempts, r, FilesOf(d, r.id)))
    && (d.active.Some? ==> d.active.value in c.requests && FilesOf(d, d.active.value.id).status.Some?)
    && ((exists id :: id in d.points) ==> d.inventory)
  }

  lemma MaxOrdinalIsLength(attempts: seq<Attempt>)
    requires forall i :: 0 <= i < |attempts| ==> attempts[i].ordinal == i + 1
    ensures MaxOrdinal(attempts) == |attempts|
  {
    if |attempts| > 0 {
      MaxOrdinalIsLength(attempts[..|attempts| - 1]);
    }
  }

  lemma PointStepKeepsInv(max: int, r: Request, f: Files, w: Write)
    requires PointInv(max, r, f) && EnabledAt(max, r, f, w)
    ensures PointInv(max, r, ApplyAt(r, f, w))
  {
    if w.Begin? {
      MaxOrdinalIsLength(f.status.value.attempts);
    }
  }

  lemma StepKeepsInv(c: Config, d: Disk, w: Write)
    requires ValidConfig(c) && Inv(c, d) && Enabled(c, d, w)
    ensures Inv(c, Apply(d, w))
  {
    var d' := Apply(d, w);
    if w.WriteInventory? || w.WriteActive? {
      assert d'.points == d.points;
    } else {
      assert d'.inventory;
      forall r | r in c.requests
        ensures PointInv(c.maxAttempts, r, FilesOf(d', r.id))
      {
        if r == w.r {
          PointStepKeepsInv(c.maxAttempts, r, FilesOf(d, r.id), w);
        } else {
          assert r.id != w.r.id;
        }
      }
    }
  }

  lemma {:induction false} RunKeepsInv(c: Config, ws: seq<Write>)
    requires ValidConfig(c) && Legal(c, ws)
    ensures Inv(c, After(ws))
  {
    if ws != [] {
      RunKeepsInv(c, ws[..|ws| - 1]);
      StepKeepsInv(c, After(ws[..|ws| - 1]), ws[|ws| - 1]);
    }
  }

  // ----- Runs: replaying writes from any disk -----

  function Replay(d: Disk, ws: seq<Write>): Disk {
    if ws == [] then d else Apply(Replay(d, ws[..|ws| - 1]), ws[|ws| - 1])
  }

  ghost predicate LegalFrom(c: Config, d: Disk, ws: seq<Write>) {
    ws == [] || (LegalFrom(c, d, ws[..|ws| - 1]) && Enabled(c, Replay(d, ws[..|ws| - 1]), ws[|ws| - 1]))
  }

  lemma {:induction false} SplitRun(c: Config, ws: seq<Write>, k: nat)
    requires k <= |ws|
    ensures After(ws) == Replay(After(ws[..k]), ws[k..])
    ensures Legal(c, ws) <==> Legal(c, ws[..k]) && LegalFrom(c, After(ws[..k]), ws[k..])
  {
    if k == |ws| {
      assert ws[..k] == ws && ws[k..] == [];
    } else {
      var front := ws[..|ws| - 1];
      SplitRun(c, front, k);
      assert front[..k] == ws[..k] && front[k..] == ws[k..][..|ws[k..]| - 1];
    }
  }

  // Once a point is final no later write of any run touches its journal or
  // its evidence.
  lemma {:induction false} FinalPointIsFrozen(c: Config, ws: seq<Write>, k: nat, r: Request)
    requires ValidConfig(c) && Legal(c, ws) && k <= |ws| && r in c.requests
    requires FinalAt(FilesOf(After(ws[..k]), r.id))
    ensures FilesOf(After(ws), r.id) == FilesOf(After(ws[..k]), r.id)
  {
    if k == |ws| {
      assert ws[..k] == ws;
    } else {
      var front := ws[..|ws| - 1];
      assert front[..k] == ws[..k];
      FinalPointIsFrozen(c, front, k, r);
      RunKeepsInv(c, front);
      var w := ws[|ws| - 1];
      if !w.WriteInventory? && !w.WriteActive? && w.r.id == r.id {
        assert w.r in c.requests;
        assert w.r == r;
      }
    }
  }

  // Closed attempts are never rewritten and evidence is never withdrawn.
  ghost predicate Extends(f: Files, g: Files) {
    && (f.evidence.Some? ==> g.evidence.Some?)
    && (f.status.Some? ==>
          && g.status.Some?
          && var a, b := f.status.value.attempts, g.status.value.attempts;
          && |a| <= |b|
          && forall i :: 0 <= i < |a| && !a[i].status.Running? ==> a[i] == b[i])
  }

  lemma {:induction false} HistoryOnlyGrows(c: Config, ws: seq<Write>, k: nat, id: string)
    requires ValidConfig(c) && Legal(c, ws) && k <= |ws|
    ensures Extends(FilesOf(After(ws[..k]), id), FilesOf(After(ws), id))
  {
    if k == |ws| {
      assert ws[..k] == ws;
    } else {
      var front := ws[..|ws| - 1];
      assert front[..k] == ws[..k];
      HistoryOnlyGrows(c, front, k, id);
      StepExtends(After(front), ws[|ws| - 1], id);
      ExtendsFurther(FilesOf(After(ws[..k]), id), FilesOf(After(front), id), FilesOf(After(ws), id));
    }
  }

  lemma StepExtends(d: Disk, w: Write, id: string)
    requires w.Create? ==> FilesOf(d, w.r.id).status.None?
    ensures Extends(FilesOf(d, id), FilesOf(Apply(d, w), id))
  {}

  lemma ExtendsFurther(f: Files, g: Files, h: Files)
    requires Extends(f, g) && Extends(g, h)
    ensures Extends(f, h)
  {}

  // ----- What the evidence on disk means -----

  ghost predicate Recorded(ws: seq<Write>, r: Request) {
    exists i :: 0 <= i < |ws| && ws[i].WriteEvidence? && ws[i].r == r
  }

  ghost predicate Concluded(ws: seq<Write>, r: Request) {
    exists i :: 0 <= i < |ws| && ws[i].CloseFinal? && ws[i].r == r
  }

  // A run in which the evidence of a point was written and its journal was
  // never closed on it.
  ghost predicate CutShort(ws: seq<Write>, r: Request) {
    Recorded(ws, r) && !Concluded(ws, r)
  }

  lemma RecordedNext(ws: seq<Write>, r: Request)
    requires |ws| > 0
    ensures var front, w := ws[..|ws| - 1], ws[|ws| - 1];
            && (Recorded(ws, r) <==> Recorded(front, r) || (w.WriteEvidence? && w.r == r))
            && (Concluded(ws, r) <==> Concluded(front, r) || (w.CloseFinal? && w.r == r))
  {
    var front := ws[..|ws| - 1];
    assert forall i :: 0 <= i < |front| ==> front[i] == ws[i];
  }

  // For every run: a point has evidence exactly when some write put it there,
  // and is final exactly when some write closed its journal on it. Evidence
  // means a final point exactly for runs that did not stop between the two.
  lemma {:induction false} EvidenceIsRecorded(c: Config, ws: seq<Write>, r: Request)
    requires ValidConfig(c) && Legal(c, ws) && r in c.requests
    ensures FilesOf(After(ws), r.id).evidence.Some? <==> Recorded(ws, r)
    ensures FinalAt(FilesOf(After(ws), r.id)) <==> Concluded(ws, r)
  {
    if |ws| > 0 {
      var front, w := ws[..|ws| - 1], ws[|ws| - 1];
      EvidenceIsRecorded(c, front, r);
      RecordedNext(ws, r);
      RunKeepsInv(c, front);
      if !w.WriteInventory? && !w.WriteActive? {
        assert w.r.id == r.id ==> w.r == r;
      }
    }
  }

  // ----- Reads -----

  datatype JournalError =
    | Killed | Unreadable | RequestChanged | LacksEvidence | EvidenceRequestChanged | StatusDisagrees
    | AlreadyRunning | NoAttempt | IdentityChanged | FinalNeedsEvidence | EvidenceDiffers
    | ConsoleFailed | AttemptsExhausted | PointerDisagrees | RestartsExceeded

  // The journal of one point, refused when it belongs to another request.
  function ReadStatus(f: Files, r: Request): Result<StatusFile, JournalError> {
    if f.status.None? then Err(Unreadable)
    else if f.status.value.digest != r.digest then Err(RequestChanged)
    else Ok(f.status.value)
  }

  function PointComplete(f: Files, r: Request): Result<bool, JournalError> {
    var s :- ReadStatus(f, r);
    if !s.status.Final() then Ok(false)
    else if f.evidence.None? then Err(LacksEvidence)
    else if f.evidence.value.digest != r.digest then Err(EvidenceRequestChanged)
    else if f.evidence.value.status != s.status then Err(StatusDisagrees)
    else Ok(true)
  }

  function Charged(attempts: seq<Attempt>): nat {
    if |attempts| == 0 then 0
    else
      Charged(attempts[..|attempts| - 1])
      + if attempts[|attempts| - 1].status.Interrupted? then 0 else 1
  }

  function AttemptCount(f: Files, r: Request): Result<nat, JournalError> {
    var s :- ReadStatus(f, r);
    Ok(Charged(s.attempts))
  }

  // On every disk a run can leave, a started point answers "complete"
  // without an error, and truthfully.
  lemma CompletenessNeverFails(c: Config, ws: seq<Write>, r: Request)
    requires ValidConfig(c) && Legal(c, ws) && r in c.requests
    ensures var f := FilesOf(After(ws), r.id);
            PointComplete(f, r) == if f.status.None? then Err(Unreadable) else Ok(FinalAt(f))
  {
    RunKeepsInv(c, ws);
  }

  lemma {:induction false} ChargedIsBelowLimit(max: int, attempts: seq<Attempt>)
    requires max > 0
    requires forall i :: 0 <= i < |attempts| ==>
                           attempts[i].status.Interrupted? || (attempts[i].status.Error? && i + 1 < max)
    ensures Charged(attempts) <= |attempts| && Charged(attempts) < max
  {
    if |attempts| > 0 {
      ChargedIsBelowLimit(max, attempts[..|attempts| - 1]);
      if |attempts| < max {
        ChargedIsAtMostLength(attempts);
      }
    }
  }

  lemma ChargedIsAtMostLength(attempts: seq<Attempt>)
    ensures Charged(attempts) <= |attempts|
  {}

  // The worker's "exhausted attempts" error, for every reachable non-final
  // point: it needs an orphaned running attempt that is the last one charged.
  lemma ExhaustionNeedsAnOrphan(c: Config, ws: seq<Write>, r: Request)
    requires ValidConfig(c) && Legal(c, ws) && r in c.requests
    requires FilesOf(After(ws), r.id).status.Some? && !FinalAt(FilesOf(After(ws), r.id))
    ensures var f := FilesOf(After(ws), r.id);
            var s := f.status.value.attempts;
            && AttemptCount(f, r).Ok?
            && AttemptCount(f, r).value <= c.maxAttempts
            && (AttemptCount(f, r).value >= c.maxAttempts
                <==> LastRunning(f) && Charged(s[..|s| - 1]) == c.maxAttempts - 1)
  {
    RunKeepsInv(c, ws);
    var f := FilesOf(After(ws), r.id);
    var s := f.status.value.attempts;
    if LastRunning(f) {
      ChargedIsBelowLimit(c.maxAttempts, s[..|s| - 1]);
    } else {
      ChargedIsBelowLimit(c.maxAttempts, s);
    }
  }

  function Interruptions(attempts: seq<Attempt>): nat {
    if |attempts| == 0 then 0
    else
      Interruptions(attempts[..|attempts| - 1])
      + if attempts[|attempts| - 1].status.Interrupted? then 1 else 0
  }

  lemma ChargedPlusInterruptions(attempts: seq<Attempt>)
    ensures Charged(attempts) + Interruptions(attempts) == |attempts|
  {}

  // recover_interrupted_attempt promises not to consume the retry budget, but
  // a failing attempt is made final by its ordinal, which counts interruptions.
  // At the configured limit the two rules agree on a failed attempt exactly
  // unless it is at the limit with an interruption before it; a point that ends
  // in error has spent its budget exactly when none of its first max - 1
  // attempts was interrupted.
  lemma FinalityMatchesBudget(c: Config, ws: seq<Write>, r: Request)
    requires ValidConfig(c) && Legal(c, ws) && r in c.requests
    requires EndsInError(FilesOf(After(ws), r.id))
    ensures var s := FilesOf(After(ws), r.id).status.value;
            var a, max := s.attempts, c.maxAttempts;
            && (RulesAgree(a, max) <==> |a| < max || !InterruptedBefore(a, max - 1))
            && (s.status.Error? ==>
                  && |a| >= max && Charged(a) <= max
                  && (Charged(a) == max <==> !InterruptedBefore(a, max - 1)))
  {
    RunKeepsInv(c, ws);
    var s := FilesOf(After(ws), r.id).status.value;
    ErrorsCharged(c.maxAttempts, s.attempts);
  }

  predicate EndsInError(f: Files) {
    f.status.Some? && |f.status.value.attempts| > 0
    && f.status.value.attempts[|f.status.value.attempts| - 1].status.Error?
  }

  predicate InterruptedBefore(attempts: seq<Attempt>, k: int) {
    exists i :: 0 <= i < |attempts| && i < k && attempts[i].status.Interrupted?
  }

  // With an error last: below the limit the budget is not spent; from it on
  // only the first max - 1 attempts and the last were charged.
  lemma ErrorsCharged(max: int, a: seq<Attempt>)
    requires max > 0 && AttemptsInv(max, a) && |a| > 0 && a[|a| - 1].status.Error?
    ensures |a| < max ==> Charged(a) < max
    ensures |a| >= max ==> Charged(a) <= max && (Charged(a) == max <==> !InterruptedBefore(a, max - 1))
  {
    var front := a[..|a| - 1];
    ChargedIsAtMostLength(a);
    if |a| >= max {
      var early := front[..max - 1];
      InterruptedUncharged(front, max - 1);
      ChargedPlusInterruptions(early);
      NoInterruptions(early);
      assert forall i :: 0 <= i < max - 1 ==> early[i] == a[i];
    }
  }

  lemma {:induction false} InterruptedUncharged(a: seq<Attempt>, k: nat)
    requires k <= |a| && forall i :: k <= i < |a| ==> a[i].status.Interrupted?
    ensures Charged(a) == Charged(a[..k])
  {
    if k == |a| {
      assert a[..k] == a;
    } else {
      InterruptedUncharged(a[..|a| - 1], k);
      assert a[..|a| - 1][..k] == a[..k];
    }
  }

  // Over all limits at once, the rules agree exactly when no attempt was ever
  // interrupted.
  lemma RulesAgreeAtEveryLimit(attempts: seq<Attempt>)
    requires |attempts| > 0
    requires forall i :: 0 <= i < |attempts| ==> attempts[i].ordinal == i + 1
    ensures (forall max: int :: max > 0 ==> RulesAgree(attempts, max))
            <==> (forall i :: 0 <= i < |attempts| ==> !attempts[i].status.Interrupted?)
  {
    ChargedPlusInterruptions(attempts);
    NoInterruptions(attempts);
    if Charged(attempts) < |attempts| {
      assert !RulesAgree(attempts, |attempts|);
    }
  }

  // "The last attempt has reached the limit" against "the budget is spent".
  predicate RulesAgree(attempts: seq<Attempt>, max: int)
    requires |attempts| > 0
  {
    attempts[|attempts| - 1].ordinal >= max <==> Charged(attempts) >= max
  }

  lemma {:induction false} NoInterruptions(attempts: seq<Attempt>)
    ensures Interruptions(attempts) == 0 <==> forall i :: 0 <= i < |attempts| ==> !attempts[i].status.Interrupted?
  {
    if |attempts| > 0 {
      var front := attempts[..|attempts| - 1];
      NoInterruptions(front);
      assert forall i :: 0 <= i < |front| ==> front[i] == attempts[i];
    }
  }

  // A concrete run in which an interruption costs a retry: with a limit of
  // two, the second attempt is final although only one was charged.
  lemma InterruptionCostsARetry(r: Request) returns (ws: seq<Write>)
    ensures Legal(Config(2, [r]), ws)
    ensures var s := FilesOf(After(ws), r.id).status;
            s.Some? && s.value.status.Final() && Charged(s.value.attempts) == 1
  {
    var c, cut := Config(2, [r]), Attempt(1, Interrupted);
    var f := Files(Some(r.digest), Some(StatusFile(r.digest, Retryable, [cut])), None);
    ws := InterruptedRun(r);
    assert MaxOrdinal([cut]) == 1;
    var g := f.(status := Some(StatusFile(r.digest, Running, [cut, Attempt(2, Running)])));
    assert Begun(f.status.value).attempts == [cut, Attempt(2, Running)];
    ws := Extended(c, ws, r, f, Begin(r), g);
    var e := g.(evidence := Some(Evidence(r.digest, Error)));
    ws := Extended(c, ws, r, g, WriteEvidence(r, Error), e);
    var ended := [cut, Attempt(2, Error)];
    assert [cut, Attempt(2, Running)][1 := Attempt(2, Error)] == ended;
    ws := Extended(c, ws, r, e, CloseFinal(r, Error), e.(status := Some(StatusFile(r.digest, Error, ended))));
    assert ended[..1] == [cut] && [cut][..0] == [];
  }

  lemma InterruptedRun(r: Request) returns (ws: seq<Write>)
    ensures Legal(Config(2, [r]), ws)
    ensures var s := StatusFile(r.digest, Retryable, [Attempt(1, Interrupted)]);
            After(ws) == Disk(true, map[r.id := Files(Some(r.digest), Some(s), None)], None)
  {
    var c, a, cut := Config(2, [r]), Attempt(1, Running), Attempt(1, Interrupted);
    ws := RequestedRun(r);
    var f := Files(Some(r.digest), None, None);
    var g := f.(status := Some(StatusFile(r.digest, Pending, [])));
    ws := Extended(c, ws, r, f, Create(r), g);
    var h := f.(status := Some(StatusFile(r.digest, Running, [a])));
    assert MaxOrdinal([]) == 0 && Begun(g.status.value).attempts == [a];
    ws := Extended(c, ws, r, g, Begin(r), h);
    assert [a][0 := cut] == [cut];
    ws := Extended(c, ws, r, h, Interrupt(r), f.(status := Some(StatusFile(r.digest, Retryable, [cut]))));
  }

  lemma RequestedRun(r: Request) returns (ws: seq<Write>)
    ensures Legal(Config(2, [r]), ws)
    ensures After(ws) == Disk(true, map[r.id := Files(Some(r.digest), None, None)], None)
  {
    var c, first := Config(2, [r]), [WriteInventory];
    assert first[..0] == [] && Legal(c, []) && Legal(c, first);
    assert After(first) == Disk(true, map[], None);
    ws := first + [WriteRequest(r)];
    assert ws[..1] == first;
  }

  // Evidence is written before the journal that points at it, so a crash can
  // leave a point running beside evidence of its success.
  lemma EvidenceMayPrecedeFinality(r: Request) returns (ws: seq<Write>)
    ensures Legal(Config(2, [r]), ws)
    ensures var f := FilesOf(After(ws), r.id);
            f.evidence == Some(Evidence(r.digest, Succeeded)) && LastRunning(f) && !FinalAt(f)
    ensures After(ws).inventory && CutShort(ws, r)
  {
    var c, cut := Config(2, [r]), Attempt(1, Interrupted);
    var f := Files(Some(r.digest), Some(StatusFile(r.digest, Retryable, [cut])), None);
    ws := InterruptedRun(r);
    assert MaxOrdinal([cut]) == 1;
    var g := f.(status := Some(StatusFile(r.digest, Running, [cut, Attempt(2, Running)])));
    assert Begun(f.status.value).attempts == [cut, Attempt(2, Running)];
    ws := Extended(c, ws, r, f, Begin(r), g);
    ws := Extended(c, ws, r, g, WriteEvidence(r, Succeeded), g.(evidence := Some(Evidence(r.digest, Succeeded))));
    EvidenceIsRecorded(c, ws, r);
  }

  lemma Extended(c: Config, ws: seq<Write>, r: Request, f: Files, w: Write, g: Files) returns (more: seq<Write>)
    requires Legal(c, ws) && After(ws) == Disk(true, map[r.id := f], None) && r in c.requests
    requires !w.WriteInventory? && !w.WriteActive? && w.r == r
    requires EnabledAt(c.maxAttempts, r, f, w) && ApplyAt(r, f, w) == g
    ensures Legal(c, more) && After(more) == Disk(true, map[r.id := g], None)
  {
    more := ws + [w];
    assert more[..|ws|] == ws;
  }
}
