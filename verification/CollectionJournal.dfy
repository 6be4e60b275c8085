// The journal of one collected program and the results its workers leave
// (benchmarking/program_collection: journal.py, process.py, resume.py).
//
// A run is the sequence of atomic writes to the files of one case: the
// controller's to status.json and each worker's to its own result file. A
// crash leaves a prefix; a worker may deliver after its controller is gone.
module CollectionJournal {
  import opened Wrappers

  datatype Digest = Digest(hex: string)

  // A directory, by whatever text refers to it.
  datatype Place = Place(path: string)

  // A saved program: what a worker reports, a journal records or loading finds.
  datatype Artifact = Artifact(program: Digest, archive: Digest, place: Place)

  // The same program, wherever it is kept.
  predicate Same(a: Artifact, b: Artifact) {
    a.program == b.program && a.archive == b.archive
  }

  datatype CaseStatus = Pending | Running | Interrupted | Succeeded | Failed

  // `launched` tells a worker's attempt from one the controller records for a
  // failure of its own.
  datatype Attempt = Attempt(ordinal: int, status: CaseStatus, launched: bool)

  datatype StatusFile = StatusFile(
    digest: Digest, status: CaseStatus, artifact: Option<Artifact>, attempts: seq<Attempt>, repairs: nat)

  // A result file: not readable as an object, or what it says. `named` is
  // whether it names this case and this request.
  datatype ResultFile = Garbled | Result(passed: bool, named: bool, artifact: Option<Artifact>)

  datatype Files = Files(status: Option<StatusFile>, results: map<int, ResultFile>)

  datatype Config = Config(digest: Digest, maxAttempts: int)

  datatype Write =
    | Begin(launch: bool)
    | Finish(outcome: CaseStatus, artifact: Option<Artifact>)
    | Repair(found: Artifact)
    | Deliver(ordinal: int, file: ResultFile)

  const NOTHING := Files(None, map[])

  // load_case_status: a new empty journal when there is none.
  function Loaded(c: Config, f: Files): StatusFile {
    if f.status.None? then StatusFile(c.digest, Pending, None, [], 0) else f.status.value
  }

  predicate LastRunning(attempts: seq<Attempt>) {
    |attempts| > 0 && attempts[|attempts| - 1].status.Running?
  }

  // The last attempt closed under this status.
  function WithLast(attempts: seq<Attempt>, status: CaseStatus): seq<Attempt>
    requires |attempts| > 0
  {
    attempts[|attempts| - 1 := attempts[|attempts| - 1].(status := status)]
  }

  function Opened(attempts: seq<Attempt>, launch: bool): seq<Attempt> {
    (if LastRunning(attempts) then WithLast(attempts, Interrupted) else attempts)
    + [Attempt(|attempts| + 1, Running, launch)]
  }

  function Apply(c: Config, f: Files, w: Write): Files {
    var s := Loaded(c, f);
    match w
    case Begin(launch) => f.(status := Some(s.(status := Running, attempts := Opened(s.attempts, launch))))
    case Finish(outcome, artifact) =>
      if |s.attempts| == 0 then f
      else f.(status := Some(s.(status := outcome, artifact := artifact, attempts := WithLast(s.attempts, outcome))))
    case Repair(found) => f.(status := Some(s.(status := Succeeded, artifact := Some(found), repairs := s.repairs + 1)))
    case Deliver(ordinal, file) => f.(results := f.results[ordinal := file])
  }

  // A result a succeeded attempt can be traced to; the tree may have moved.
  predicate Passed(f: Files, ordinal: int, artifact: Artifact) {
    && ordinal in f.results && f.results[ordinal].Result? && f.results[ordinal].passed
    && f.results[ordinal].artifact.Some? && Same(f.results[ordinal].artifact.value, artifact)
  }

  ghost predicate EverSucceeded(attempts: seq<Attempt>) {
    exists i :: 0 <= i < |attempts| && attempts[i].status.Succeeded?
  }

  ghost predicate Witnessed(f: Files, attempts: seq<Attempt>, artifact: Artifact) {
    exists i :: 0 <= i < |attempts| && attempts[i].status.Succeeded? && Passed(f, i + 1, artifact)
  }

  ghost predicate Enabled(c: Config, f: Files, w: Write) {
    var s := Loaded(c, f);
    match w
    case Begin(launch) => launch ==> !EverSucceeded(s.attempts) && |s.attempts| < c.maxAttempts
    case Finish(outcome, artifact) =>
      && LastRunning(s.attempts)
      && (match outcome
          case Succeeded =>
            artifact.Some? && s.attempts[|s.attempts| - 1].launched && Passed(f, |s.attempts|, artifact.value)
            && !EverSucceeded(s.attempts)
          case Failed => artifact.None?
          case Interrupted => artifact.None?
          case _ => false)
    case Repair(found) => Witnessed(f, s.attempts, found)
    case Deliver(ordinal, _) =>
      1 <= ordinal <= |s.attempts| && s.attempts[ordinal - 1].launched && ordinal !in f.results
  }

  function After(c: Config, ws: seq<Write>): Files {
    if |ws| == 0 then NOTHING else Apply(c, After(c, ws[..|ws| - 1]), ws[|ws| - 1])
  }

  ghost predicate Legal(c: Config, ws: seq<Write>) {
    |ws| == 0 || (Legal(c, ws[..|ws| - 1]) && Enabled(c, After(c, ws[..|ws| - 1]), ws[|ws| - 1]))
  }

  // ----- What every reachable journal satisfies -----

  // Ordinals are 1..n; no attempt but the last is running; workers have the
  // ordinals up to the limit only, and the results only of those.
  ghost predicate AttemptsInv(c: Config, f: Files, attempts: seq<Attempt>) {
    && (forall i :: 0 <= i < |attempts| ==> attempts[i].ordinal == i + 1)
    && (forall i :: 0 <= i < |attempts| - 1 ==> !attempts[i].status.Running?)
    && (forall i :: 0 <= i < |attempts| ==> !attempts[i].status.Pending?)
    && (forall i :: 0 <= i < |attempts| && attempts[i].launched ==> i + 1 <= c.maxAttempts)
    && (forall k :: k in f.results ==> 1 <= k <= |attempts| && attempts[k - 1].launched)
  }

  // A succeeded attempt is a worker's, has its passing result, and is the last
  // that was launched.
  ghost predicate SuccessInv(f: Files, attempts: seq<Attempt>) {
    && (forall i :: 0 <= i < |attempts| && attempts[i].status.Succeeded? ==> Delivered(f, attempts, i))
    && (forall i, j :: 0 <= i < j < |attempts| && attempts[i].status.Succeeded? ==> !attempts[j].launched)
  }

  ghost predicate Delivered(f: Files, attempts: seq<Attempt>, i: int)
    requires 0 <= i < |attempts|
  {
    && attempts[i].launched && i + 1 in f.results
    && f.results[i + 1].Result? && f.results[i + 1].passed && f.results[i + 1].artifact.Some?
  }

  ghost predicate Inv(c: Config, f: Files) {
    && (f.status.None? ==> f.results == map[])
    && var s := Loaded(c, f);
       && s.digest == c.digest
       && (f.status.Some? ==> |s.attempts| > 0 && !s.status.Pending?)
       && AttemptsInv(c, f, s.attempts) && SuccessInv(f, s.attempts)
       && (s.status.Running? ==> LastRunning(s.attempts))
       && (LastRunning(s.attempts) ==> s.status.Running? || s.status.Succeeded?)
       && (s.status.Succeeded? ==> s.artifact.Some? && Witnessed(f, s.attempts, s.artifact.value))
  }

  lemma BeginKeepsInv(c: Config, f: Files, launch: bool)
    requires Inv(c, f) && Enabled(c, f, Begin(launch))
    ensures Inv(c, Apply(c, f, Begin(launch)))
  {
    var a := Loaded(c, f).attempts;
    OpenedKeepsAttempts(c, f, a, launch);
    OpenedKeepsSuccess(f, a, launch);
    assert LastRunning(Opened(a, launch));
  }

  lemma OpenedKeepsAttempts(c: Config, f: Files, a: seq<Attempt>, launch: bool)
    requires AttemptsInv(c, f, a) && (launch ==> |a| < c.maxAttempts)
    ensures AttemptsInv(c, f, Opened(a, launch))
  {
    OpenedKeeps(a, launch);
  }

  lemma OpenedKeepsSuccess(f: Files, a: seq<Attempt>, launch: bool)
    requires SuccessInv(f, a) && (launch ==> !EverSucceeded(a))
    ensures SuccessInv(f, Opened(a, launch))
  {
    OpenedKeeps(a, launch);
    var b := Opened(a, launch);
    forall i | 0 <= i < |b| && b[i].status.Succeeded?
      ensures Delivered(f, b, i)
    {
      assert Delivered(f, a, i);
    }
  }

  lemma OpenedKeeps(a: seq<Attempt>, launch: bool)
    ensures var b := Opened(a, launch);
            && |b| == |a| + 1 && b[|a|] == Attempt(|a| + 1, Running, launch)
            && (forall i :: 0 <= i < |a| ==> b[i].launched == a[i].launched && b[i].ordinal == a[i].ordinal)
            && (forall i :: 0 <= i < |a| && !a[i].status.Running? ==> b[i] == a[i])
            && (forall i :: 0 <= i < |a| && b[i].status.Succeeded? ==> a[i].status.Succeeded?)
  {}

  lemma FinishKeepsInv(c: Config, f: Files, outcome: CaseStatus, artifact: Option<Artifact>)
    requires Inv(c, f) && Enabled(c, f, Finish(outcome, artifact))
    ensures Inv(c, Apply(c, f, Finish(outcome, artifact)))
  {
    var a := Loaded(c, f).attempts;
    ClosedKeepsAttempts(c, f, a, outcome);
    ClosedKeepsSuccess(c, f, a, outcome, artifact);
    if outcome.Succeeded? {
      assert WithLast(a, outcome)[|a| - 1].status.Succeeded? && Passed(f, |a|, artifact.value);
    }
  }

  lemma ClosedKeepsAttempts(c: Config, f: Files, a: seq<Attempt>, outcome: CaseStatus)
    requires AttemptsInv(c, f, a) && |a| > 0 && !outcome.Running? && !outcome.Pending?
    ensures AttemptsInv(c, f, WithLast(a, outcome)) && !LastRunning(WithLast(a, outcome))
  {}

  lemma ClosedKeepsSuccess(c: Config, f: Files, a: seq<Attempt>, outcome: CaseStatus, artifact: Option<Artifact>)
    requires SuccessInv(f, a) && LastRunning(a)
    requires outcome.Succeeded? ==>
               artifact.Some? && a[|a| - 1].launched && Passed(f, |a|, artifact.value) && !EverSucceeded(a)
    ensures SuccessInv(f, WithLast(a, outcome))
  {
    var b := WithLast(a, outcome);
    forall i | 0 <= i < |b| && b[i].status.Succeeded?
      ensures Delivered(f, b, i)
    {
      assert i < |a| - 1 ==> Delivered(f, a, i);
    }
  }

  lemma DeliverKeepsInv(c: Config, f: Files, ordinal: int, file: ResultFile)
    requires Inv(c, f) && Enabled(c, f, Deliver(ordinal, file))
    ensures Inv(c, Apply(c, f, Deliver(ordinal, file)))
  {
    var s, g := Loaded(c, f), Apply(c, f, Deliver(ordinal, file));
    forall i | 0 <= i < |s.attempts| && s.attempts[i].status.Succeeded?
      ensures Delivered(g, s.attempts, i)
    {
      assert Delivered(f, s.attempts, i);
    }
    if s.status.Succeeded? {
      var i :| 0 <= i < |s.attempts| && s.attempts[i].status.Succeeded? && Passed(f, i + 1, s.artifact.value);
      assert Passed(g, i + 1, s.artifact.value);
    }
  }

  lemma StepKeepsInv(c: Config, f: Files, w: Write)
    requires Inv(c, f) && Enabled(c, f, w)
    ensures Inv(c, Apply(c, f, w))
  {
    match w
    case Begin(launch) => BeginKeepsInv(c, f, launch);
    case Finish(outcome, artifact) => FinishKeepsInv(c, f, outcome, artifact);
    case Deliver(ordinal, file) => DeliverKeepsInv(c, f, ordinal, file);
    case Repair(found) => RepairKeepsInv(c, f, found);
  }

  lemma RepairKeepsInv(c: Config, f: Files, found: Artifact)
    requires Inv(c, f) && Enabled(c, f, Repair(found))
    ensures Inv(c, Apply(c, f, Repair(found)))
  {
    var s, g := Loaded(c, f), Apply(c, f, Repair(found));
    forall i | 0 <= i < |s.attempts| && s.attempts[i].status.Succeeded?
      ensures Delivered(g, s.attempts, i)
    {
      assert Delivered(f, s.attempts, i);
    }
    var i :| 0 <= i < |s.attempts| && s.attempts[i].status.Succeeded? && Passed(f, i + 1, found);
    assert Passed(g, i + 1, found);
  }

  lemma {:induction false} RunKeepsInv(c: Config, ws: seq<Write>)
    requires Legal(c, ws)
    ensures Inv(c, After(c, ws))
  {
    if |ws| > 0 {
      RunKeepsInv(c, ws[..|ws| - 1]);
      StepKeepsInv(c, After(c, ws[..|ws| - 1]), ws[|ws| - 1]);
    }
  }

  // ----- Safety over whole runs -----

  function AttemptsAfter(c: Config, ws: seq<Write>): seq<Attempt> {
    Loaded(c, After(c, ws)).attempts
  }

  // Closed attempts are never rewritten, and a delivered result stays.
  ghost predicate Extends(f: Files, g: Files, a: seq<Attempt>, b: seq<Attempt>) {
    && |a| <= |b|
    && (forall i :: 0 <= i < |a| ==> b[i].launched == a[i].launched && (!a[i].status.Running? ==> b[i] == a[i]))
    && (forall k :: k in f.results ==> k in g.results && g.results[k] == f.results[k])
  }

  lemma StepExtends(c: Config, f: Files, w: Write)
    requires Enabled(c, f, w)
    ensures Extends(f, Apply(c, f, w), Loaded(c, f).attempts, Loaded(c, Apply(c, f, w)).attempts)
  {}

  lemma {:induction false} HistoryOnlyGrows(c: Config, ws: seq<Write>, k: nat)
    requires Legal(c, ws) && k <= |ws|
    ensures Legal(c, ws[..k])
    ensures Extends(After(c, ws[..k]), After(c, ws), AttemptsAfter(c, ws[..k]), AttemptsAfter(c, ws))
  {
    if k == |ws| {
      assert ws[..k] == ws;
    } else {
      var front := ws[..|ws| - 1];
      assert front[..k] == ws[..k];
      HistoryOnlyGrows(c, front, k);
      StepExtends(c, After(c, front), ws[|ws| - 1]);
    }
  }

  // Once an attempt has succeeded no later write of any run launches a worker,
  // whatever becomes of the saved program.
  lemma SuccessIsNeverRerun(c: Config, ws: seq<Write>, k: nat)
    requires Legal(c, ws) && k < |ws| && EverSucceeded(AttemptsAfter(c, ws[..k]))
    ensures ws[k] != Begin(true)
    ensures EverSucceeded(AttemptsAfter(c, ws))
  {
    HistoryOnlyGrows(c, ws, k);
    HistoryOnlyGrows(c, ws, k + 1);
    assert ws[..k + 1][..k] == ws[..k];
    var i :| 0 <= i < |AttemptsAfter(c, ws[..k])| && AttemptsAfter(c, ws[..k])[i].status.Succeeded?;
    assert AttemptsAfter(c, ws)[i].status.Succeeded?;
  }

  // No case succeeds twice, and every worker's ordinal is within the limit.
  lemma OneSuccess(c: Config, ws: seq<Write>, i: nat, j: nat)
    requires Legal(c, ws) && i < |AttemptsAfter(c, ws)| && j < |AttemptsAfter(c, ws)|
    ensures var a := AttemptsAfter(c, ws);
            && (a[i].status.Succeeded? && a[j].status.Succeeded? ==> i == j)
            && a[i].ordinal == i + 1
            && (a[i].launched ==> a[i].ordinal <= c.maxAttempts)
            && (a[i].status.Running? ==> i == |a| - 1)
  {
    RunKeepsInv(c, ws);
    var f := After(c, ws);
    var a := Loaded(c, f).attempts;
    if a[i].status.Succeeded? && a[j].status.Succeeded? {
      assert Delivered(f, a, i) && Delivered(f, a, j);
    }
  }

  // However often the saved tree moves, every journal of a run that says the
  // case succeeded names the same program.
  lemma ProgramNeverChanges(c: Config, ws: seq<Write>, k: nat)
    requires Legal(c, ws) && k <= |ws|
    ensures var was, now := Loaded(c, After(c, ws[..k])), Loaded(c, After(c, ws));
            was.status.Succeeded? && now.status.Succeeded? ==>
              was.artifact.Some? && now.artifact.Some? && Same(was.artifact.value, now.artifact.value)
  {
    var f, g := After(c, ws[..k]), After(c, ws);
    var was, now := Loaded(c, f), Loaded(c, g);
    HistoryOnlyGrows(c, ws, k);
    if was.status.Succeeded? && now.status.Succeeded? {
      SucceededIsWitnessed(c, ws[..k]);
      SucceededIsWitnessed(c, ws);
      WitnessesAgree(f, g, was.attempts, now.attempts, was.artifact.value, now.artifact.value);
    }
  }

  lemma SucceededIsWitnessed(c: Config, ws: seq<Write>)
    requires Legal(c, ws) && Loaded(c, After(c, ws)).status.Succeeded?
    ensures var s := Loaded(c, After(c, ws));
            s.artifact.Some? && Witnessed(After(c, ws), s.attempts, s.artifact.value)
            && SuccessInv(After(c, ws), s.attempts)
  {
    RunKeepsInv(c, ws);
  }

  lemma WitnessesAgree(f: Files, g: Files, a: seq<Attempt>, b: seq<Attempt>, x: Artifact, y: Artifact)
    requires Extends(f, g, a, b) && SuccessInv(g, b) && Witnessed(f, a, x) && Witnessed(g, b, y)
    ensures Same(x, y)
  {
    var i :| 0 <= i < |a| && a[i].status.Succeeded? && Passed(f, i + 1, x);
    var j :| 0 <= j < |b| && b[j].status.Succeeded? && Passed(g, j + 1, y);
    assert b[i] == a[i];
    assert Delivered(g, b, i) && Delivered(g, b, j);
  }

  // ----- Saved programs -----

  // An output directory as a controller finds it: which directories are there,
  // what load_program finds in them, where the program of a digest belongs and
  // how journals refer to a directory.
  datatype Corpus = Corpus(
    present: Place -> bool, load: Place -> Option<Artifact>, home: Digest -> Place, portable: Place -> Place)

  // The program a worker claims is where it says.
  predicate Loads(corpus: Corpus, claim: Artifact) {
    corpus.load(claim.place).Some? && corpus.load(claim.place).value.program == claim.program
  }

  function Portable(corpus: Corpus, a: Artifact): Artifact {
    a.(place := corpus.portable(a.place))
  }

  function Stored(corpus: Corpus, artifact: Option<Artifact>): Option<Artifact> {
    if artifact.None? then None else Some(Portable(corpus, artifact.value))
  }

  // _resolve_artifact_directory
  function Resolved(corpus: Corpus, a: Artifact): Option<Place> {
    if corpus.present(a.place) then Some(a.place)
    else if corpus.present(corpus.home(a.program)) then Some(corpus.home(a.program))
    else None
  }

  // What recorded evidence is worth: nothing, or the same program under the
  // reference to where it now is.
  function Standing(corpus: Corpus, a: Artifact): Option<Artifact> {
    var directory := Resolved(corpus, a);
    if directory.None? then None
    else
      var saved := corpus.load(directory.value);
      if saved.None? || !Same(saved.value, a) then None else Some(Portable(corpus, a.(place := saved.value.place)))
  }

  // ----- Reading a worker's result -----

  // load_worker_outcome: what one worker's exit code and result come to.
  function Outcome(result: Option<ResultFile>, code: int, corpus: Corpus): (CaseStatus, Option<Artifact>) {
    if result.None? || result.value.Garbled? || code != 0 || !result.value.passed then (Failed, None)
    else if !result.value.named || result.value.artifact.None? then (Failed, None)
    else if !Loads(corpus, result.value.artifact.value) then (Failed, None)
    else (Succeeded, result.value.artifact)
  }

  // A result that proves success: it passed, names this very request, and the
  // program it claims is in the directory it names.
  ghost predicate Proves(result: Option<ResultFile>, artifact: Artifact, corpus: Corpus) {
    && result == Some(Result(true, true, Some(artifact)))
    && exists saved :: corpus.load(artifact.place) == Some(saved) && saved.program == artifact.program
  }

  // Success needs a clean exit and such a result; anything else is a failure.
  lemma SuccessNeedsEvidence(result: Option<ResultFile>, code: int, corpus: Corpus, artifact: Artifact)
    ensures Outcome(result, code, corpus) == (Succeeded, Some(artifact))
            <==> code == 0 && Proves(result, artifact, corpus)
    ensures Outcome(result, code, corpus) == (Failed, None)
            <==> code != 0 || forall a :: !Proves(result, a, corpus)
  {
    if result.Some? && result.value.Result? && result.value.artifact.Some? {
      var a := result.value.artifact.value;
      assert code == 0 && Proves(result, a, corpus) <==> Outcome(result, code, corpus) == (Succeeded, Some(a));
    }
  }

  // Recorded evidence that stands is the same program and archive, found where
  // the reference leads or, when nothing is there, where its digest belongs; a
  // changed digest is refused. What is returned refers to where it was found.
  lemma StandingMeans(corpus: Corpus, a: Artifact, found: Artifact)
    ensures Standing(corpus, a) == Some(found) <==>
              && found.program == a.program && found.archive == a.archive
              && exists p, saved {:trigger Kept(corpus, a, p, saved)} ::
                   Kept(corpus, a, p, saved) && found.place == corpus.portable(saved.place)
  {
    if Standing(corpus, a) == Some(found) {
      var p := Resolved(corpus, a).value;
      assert Kept(corpus, a, p, corpus.load(p).value);
    }
  }

  ghost predicate Kept(corpus: Corpus, a: Artifact, p: Place, saved: Artifact) {
    && corpus.present(p) && (p == a.place || (p == corpus.home(a.program) && !corpus.present(a.place)))
    && corpus.load(p) == Some(saved) && saved.program == a.program && saved.archive == a.archive
  }

  // _previous_success_artifact: what the latest succeeded attempt delivered.
  function LatestSuccess(f: Files, attempts: seq<Attempt>): Option<Artifact> {
    if |attempts| == 0 then None
    else
      var last := attempts[|attempts| - 1];
      if last.status.Succeeded? && last.ordinal in f.results && f.results[last.ordinal].Result?
         && f.results[last.ordinal].passed && f.results[last.ordinal].artifact.Some?
      then f.results[last.ordinal].artifact
      else LatestSuccess(f, attempts[..|attempts| - 1])
  }

  // It is found exactly when some attempt succeeded, and is that attempt's.
  lemma {:induction false} LatestSuccessFinds(c: Config, f: Files, attempts: seq<Attempt>)
    requires (forall i :: 0 <= i < |attempts| ==> attempts[i].ordinal == i + 1)
    requires forall i :: 0 <= i < |attempts| && attempts[i].status.Succeeded? ==> Delivered(f, attempts, i)
    ensures LatestSuccess(f, attempts).Some? <==> EverSucceeded(attempts)
    ensures LatestSuccess(f, attempts).Some? ==> Witnessed(f, attempts, LatestSuccess(f, attempts).value)
  {
    if |attempts| > 0 {
      var front, last := attempts[..|attempts| - 1], |attempts| - 1;
      if attempts[last].status.Succeeded? {
        assert Delivered(f, attempts, last);
        assert Passed(f, last + 1, LatestSuccess(f, attempts).value);
      } else {
        forall i | 0 <= i < |front| && front[i].status.Succeeded?
          ensures Delivered(f, front, i)
        {
          assert Delivered(f, attempts, i);
        }
        LatestSuccessFinds(c, f, front);
        if EverSucceeded(front) {
          var i :| 0 <= i < |front| && front[i].status.Succeeded? && Passed(f, i + 1, LatestSuccess(f, front).value);
          assert attempts[i].status.Succeeded?;
        }
        if EverSucceeded(attempts) {
          var i :| 0 <= i < |attempts| && attempts[i].status.Succeeded?;
          assert front[i].status.Succeeded?;
        }
      }
    }
  }
}
