// One case of the sequential collection controller
// (benchmarking/program_collection: journal.py, resume.py, controller.py).
module CollectionController {
  import opened Wrappers
  import opened CollectionJournal

  datatype CollectError =
    | Killed | RequestChanged | NoAttempts | OrderingChanged | NotRunning | AttemptChanged
    | ArtifactInvalid | LaunchFailed | KeyboardInterrupt

  // How a worker process ends, and what it left in its result file.
  datatype Ending = Exits(code: int) | TimesOut | CtrlC

  datatype Worker = LaunchFails | Runs(result: Option<ResultFile>, ending: Ending)

  datatype Handled = Skipped | AtLimit | Ran(status: CaseStatus) | ControllerFailed | Stopped | Dead

  // execute_worker
  function Executed(result: Option<ResultFile>, ending: Ending, corpus: Corpus)
      : (CaseStatus, Option<Artifact>)
  {
    match ending
    case CtrlC => (Interrupted, None)
    case TimesOut => (Failed, None)
    case Exits(code) => Outcome(result, code, corpus)
  }

  // ----- What one pass makes of the files -----

  // _recover_worker_result
  function Adopted(c: Config, f: Files, corpus: Corpus): Files {
    var s := Loaded(c, f);
    if s.status.Running? && |s.attempts| in f.results then
      var (outcome, artifact) := Outcome(Some(f.results[|s.attempts|]), 0, corpus);
      Apply(c, f, Finish(outcome, Stored(corpus, artifact)))
    else f
  }

  // The evidence completed_artifact validates.
  function Evidence(c: Config, f: Files): Option<Artifact> {
    var s := Loaded(c, f);
    if s.status.Succeeded? && s.artifact.Some? then s.artifact else LatestSuccess(f, s.attempts)
  }

  // The journal as it stands, or repaired: closed again as succeeded, or under
  // the reference to where the program now is.
  function Settled(c: Config, f: Files, found: Artifact): Files {
    if Loaded(c, f).status.Succeeded? && Loaded(c, f).artifact == Some(found) then f else Apply(c, f, Repair(found))
  }

  function Faulted(c: Config, f: Files): Files {
    Apply(c, Apply(c, f, Begin(false)), Finish(Failed, None))
  }

  // A worker is launched and leaves its result, if any.
  function Left(c: Config, f: Files, result: Option<ResultFile>): Files {
    var begun := Apply(c, f, Begin(true));
    if result.None? then begun else Apply(c, begun, Deliver(|Loaded(c, f).attempts| + 1, result.value))
  }

  function Closing(w: Worker, corpus: Corpus): Write
    requires w.Runs?
  {
    var (outcome, artifact) := Executed(w.result, w.ending, corpus);
    Finish(outcome, Stored(corpus, artifact))
  }

  function Launched(c: Config, f: Files, w: Worker, corpus: Corpus): Files
    requires w.Runs?
  {
    Apply(c, Left(c, f, w.result), Closing(w, corpus))
  }

  // The last attempt is closed under this name, which is the case's too.
  predicate EndsWith(c: Config, f: Files, g: Files, outcome: CaseStatus, artifact: Option<Artifact>, launched: bool) {
    && g.status.Some? && g.status.value.status == outcome && g.status.value.artifact == artifact
    && var n := |Loaded(c, f).attempts|;
       |g.status.value.attempts| == n + 1 && g.status.value.attempts[n] == Attempt(n + 1, outcome, launched)
  }

  // What the end of a worker means: a Ctrl-C interrupts, a timeout fails, and
  // an exit succeeds exactly when it was clean and the result proves it, under
  // a portable reference to the program.
  ghost predicate Concluded(c: Config, f: Files, g: Files, w: Worker, corpus: Corpus, outcome: CaseStatus)
    requires w.Runs?
  {
    match w.ending
    case CtrlC => outcome == Interrupted && EndsWith(c, f, g, Interrupted, None, true)
    case TimesOut => outcome == Failed && EndsWith(c, f, g, Failed, None, true)
    case Exits(code) =>
      if code == 0 && exists a :: Proves(w.result, a, corpus) then
        && outcome == Succeeded
        && exists a :: Proves(w.result, a, corpus)
                       && EndsWith(c, f, g, Succeeded, Some(a.(place := corpus.portable(a.place))), true)
      else outcome == Failed && EndsWith(c, f, g, Failed, None, true)
  }

  lemma LaunchConcludes(c: Config, f: Files, w: Worker, corpus: Corpus)
    requires w.Runs?
    ensures Concluded(c, f, Launched(c, f, w, corpus), w, corpus, Executed(w.result, w.ending, corpus).0)
  {
    LaunchEnds(c, f, w, corpus);
    if w.ending.Exits? {
      forall a
        ensures Proves(w.result, a, corpus) && w.ending.code == 0 <==>
                  Outcome(w.result, w.ending.code, corpus) == (Succeeded, Some(a))
      {
        SuccessNeedsEvidence(w.result, w.ending.code, corpus, a);
      }
    }
  }

  lemma LaunchEnds(c: Config, f: Files, w: Worker, corpus: Corpus)
    requires w.Runs?
    ensures var (outcome, artifact) := Executed(w.result, w.ending, corpus);
            EndsWith(c, f, Launched(c, f, w, corpus), outcome, Stored(corpus, artifact), true)
  {
    assert |Loaded(c, Left(c, f, w.result)).attempts| == |Loaded(c, f).attempts| + 1;
  }

  // The journal says the case succeeded with this program, by this reference.
  predicate Says(f: Files, artifact: Artifact) {
    f.status.Some? && f.status.value.status.Succeeded? && f.status.value.artifact == Some(artifact)
  }

  // There is evidence exactly when some attempt succeeded.
  lemma EvidenceMeansSuccess(c: Config, f: Files)
    requires Inv(c, f)
    ensures Evidence(c, f).Some? <==> EverSucceeded(Loaded(c, f).attempts)
    ensures Evidence(c, f).Some? ==> Witnessed(f, Loaded(c, f).attempts, Evidence(c, f).value)
  {
    LatestSuccessFinds(c, f, Loaded(c, f).attempts);
  }

  lemma EvidenceIsTraced(c: Config, f: Files, found: Artifact)
    requires Inv(c, f) && Evidence(c, f).Some? && Same(found, Evidence(c, f).value)
    ensures Witnessed(f, Loaded(c, f).attempts, found)
  {
    EvidenceMeansSuccess(c, f);
    var a := Loaded(c, f).attempts;
    var i :| 0 <= i < |a| && a[i].status.Succeeded? && Passed(f, i + 1, Evidence(c, f).value);
    assert Passed(f, i + 1, found);
  }

  // Where references that a journal stores lead back to the same directory, a
  // repair is made once: the next pass finds the evidence standing as recorded
  // and writes nothing.
  lemma RepairIsMadeOnce(c: Config, f: Files, corpus: Corpus, found: Artifact)
    requires Inv(c, f) && Evidence(c, f).Some? && Standing(corpus, Evidence(c, f).value) == Some(found)
    requires forall p :: corpus.load(p).Some? ==> ReferenceLeads(corpus, p)
    ensures Evidence(c, Settled(c, f, found)) == Some(found) && Standing(corpus, found) == Some(found)
    ensures Settled(c, Settled(c, f, found), found) == Settled(c, f, found)
  {
    var directory := Resolved(corpus, Evidence(c, f).value).value;
    assert ReferenceLeads(corpus, directory);
  }

  // Relative to the output root, a loaded directory is found and loads again.
  predicate ReferenceLeads(corpus: Corpus, p: Place)
    requires corpus.load(p).Some?
  {
    var reference := corpus.portable(corpus.load(p).value.place);
    corpus.present(reference) && corpus.load(reference) == corpus.load(p)
  }

  // A running journal whose worker has delivered: finishing it is allowed, and
  // no earlier attempt succeeded.
  lemma AdoptionIsEnabled(c: Config, f: Files, corpus: Corpus)
    requires Inv(c, f) && Loaded(c, f).status.Running? && |Loaded(c, f).attempts| in f.results
    ensures var (outcome, artifact) := Outcome(Some(f.results[|Loaded(c, f).attempts|]), 0, corpus);
            Enabled(c, f, Finish(outcome, Stored(corpus, artifact)))
  {
    var a := Loaded(c, f).attempts;
    var last := a[|a| - 1];
    assert last.launched && last.status.Running?;
    assert forall i :: 0 <= i < |a| && a[i].status.Succeeded? ==> i == |a| - 1;
  }

  // A passing result of a program that loads, delivered before the controller
  // was lost, becomes the attempt's own outcome; no attempt is added.
  lemma DeliveredIsAdopted(c: Config, f: Files, corpus: Corpus, artifact: Artifact)
    requires Inv(c, f) && Loaded(c, f).status.Running?
    requires var n := |Loaded(c, f).attempts|; n in f.results && f.results[n] == Result(true, true, Some(artifact))
    requires Loads(corpus, artifact)
    ensures var a, b := Loaded(c, f).attempts, Loaded(c, Adopted(c, f, corpus)).attempts;
            && b == a[|a| - 1 := a[|a| - 1].(status := Succeeded)]
            && Evidence(c, Adopted(c, f, corpus)) == Some(Portable(corpus, artifact))
            && EverSucceeded(b)
  {
    var n := |Loaded(c, f).attempts|;
    assert Outcome(Some(f.results[n]), 0, corpus) == (Succeeded, Some(artifact));
    assert Loaded(c, Adopted(c, f, corpus)).attempts[n - 1].status.Succeeded?;
  }

  // What adopting makes of a running journal: nothing while its worker has not
  // delivered; otherwise its last attempt is closed, as a success when the
  // result proves one and as a failure when not.
  lemma AdoptionMeans(c: Config, f: Files, corpus: Corpus)
    requires Inv(c, f)
    ensures var a, g := Loaded(c, f).attempts, Adopted(c, f, corpus);
            if !Loaded(c, f).status.Running? || |a| !in f.results then g == f
            else
              && g.status.Some? && g.results == f.results
              && var s := g.status.value;
              && |s.attempts| == |a| && s.attempts[..|a| - 1] == a[..|a| - 1]
              && s.attempts[|a| - 1] == Attempt(|a|, s.status, true)
              && if exists x :: Proves(Some(f.results[|a|]), x, corpus) then
                   s.status == Succeeded
                   && exists x :: Proves(Some(f.results[|a|]), x, corpus)
                                  && s.artifact == Some(x.(place := corpus.portable(x.place)))
                 else s.status == Failed && s.artifact.None?
  {
    var a := Loaded(c, f).attempts;
    if Loaded(c, f).status.Running? && |a| in f.results {
      var result := Some(f.results[|a|]);
      forall x
        ensures Proves(result, x, corpus) <==> Outcome(result, 0, corpus) == (Succeeded, Some(x))
      {
        SuccessNeedsEvidence(result, 0, corpus, x);
      }
      assert a[|a| - 1].launched && a[|a| - 1].ordinal == |a|;
    }
  }

  class CollectedCase {
    const config: Config
    var status: Option<StatusFile>
    var results: map<int, ResultFile>
    // The controller is killed once this many more writes are done.
    var killAfter: Option<nat>
    // Every write the case ever received.
    ghost var log: seq<Write>

    function Contents(): Files
      reads this
    {
      Files(status, results)
    }

    // The files are those the writes leave, legal or not.
    ghost predicate Coherent()
      reads this
    {
      Contents() == After(config, log)
    }

    ghost predicate Valid()
      reads this
    {
      Coherent() && Legal(config, log)
    }

    ghost function Attempts(): seq<Attempt>
      reads this
    {
      Loaded(config, Contents()).attempts
    }

    constructor (config: Config)
      ensures Valid() && this.config == config && log == [] && killAfter.None?
    {
      this.config := config;
      status, results := None, map[];
      killAfter := None;
      log := [];
    }

    // Still alive, or killed before one more write.
    twostate predicate Survived()
      reads this
    {
      old(killAfter).None? ==> killAfter.None?
    }

    // status.json, replaced in one step.
    method Replace(s: StatusFile, ghost w: Write) returns (ok: bool)
      requires Coherent() && Apply(config, Contents(), w) == Files(Some(s), results)
      modifies this
      ensures Coherent() && (old(Valid() && Enabled(config, Contents(), w)) ==> Valid())
      ensures Survived() && (ok <==> old(killAfter) != Some(0))
      ensures killAfter == if ok && old(killAfter).Some? then Some(old(killAfter).value - 1) else old(killAfter)
      ensures if ok then log == old(log) + [w] && Contents() == Apply(config, old(Contents()), w)
              else log == old(log) && Contents() == old(Contents())
    {
      ok := killAfter != Some(0);
      if ok {
        if killAfter.Some? {
          killAfter := Some(killAfter.value - 1);
        }
        status := Some(s);
        log := log + [w];
        assert log[..|log| - 1] == old(log);
      }
    }

    // A worker's own result file, replaced in one step.
    method ReceiveResult(ordinal: int, file: ResultFile)
      requires Valid() && Enabled(config, Contents(), Deliver(ordinal, file))
      modifies this`results, this`log
      ensures Valid() && log == old(log) + [Deliver(ordinal, file)]
      ensures Contents() == Apply(config, old(Contents()), Deliver(ordinal, file))
    {
      results := results[ordinal := file];
      log := log + [Deliver(ordinal, file)];
      assert log[..|log| - 1] == old(log);
    }

    // ----- journal.py -----

    // Never refused: the journal is this request's own.
    method LoadStatus() returns (res: Result<StatusFile, CollectError>)
      requires Valid()
      ensures res == Ok(Loaded(config, Contents()))
    {
      RunKeepsInv(config, log);
      var s := Loaded(config, Contents());
      res := if s.digest != config.digest then Err(RequestChanged) else Ok(s);
    }

    method BeginAttempt(launch: bool) returns (res: Result<int, CollectError>)
      requires Valid()
      modifies this
      // It does not look at the limit or at earlier successes: its callers do.
      ensures Coherent() && (old(Enabled(config, Contents(), Begin(launch))) ==> Valid())
      ensures Survived() && results == old(results)
      ensures if res.Ok? then log == old(log) + [Begin(launch)]
                              && Contents() == Apply(config, old(Contents()), Begin(launch))
              else log == old(log) && Contents() == old(Contents())
      ensures res == Ok(old(|Attempts()|) + 1) || (res == Err(Killed) && old(killAfter).Some?)
      // An orphan is interrupted, every other attempt is as it was, and one
      // more is running.
      ensures res.Ok? ==>
                && status.Some? && status.value.status.Running?
                && var a, b := old(Attempts()), status.value.attempts;
                && |b| == |a| + 1 && b[|a|] == Attempt(|a| + 1, Running, launch)
                && forall i :: 0 <= i < |a| ==>
                     b[i] == if i == |a| - 1 && a[i].status.Running? then a[i].(status := Interrupted) else a[i]
    {
      var loaded := LoadStatus();
      var s := loaded.value;
      var attempts := s.attempts;
      if |attempts| > 0 && attempts[|attempts| - 1].status == Running {
        attempts := attempts[|attempts| - 1 := attempts[|attempts| - 1].(status := Interrupted)];
      }
      var attempt := |attempts| + 1;
      attempts := attempts + [Attempt(attempt, Running, launch)];
      var ok := Replace(s.(status := Running, attempts := attempts), Begin(launch));
      res := if ok then Ok(attempt) else Err(Killed);
    }

    // Finish exactly the current running attempt.
    method FinishAttempt(attempt: int, outcome: CaseStatus, artifact: Option<Artifact>, corpus: Corpus)
        returns (res: Result<(), CollectError>)
      requires Valid()
      modifies this
      // It does not look at the worker's result: its callers do.
      ensures Coherent()
      ensures res.Err? || old(Enabled(config, Contents(), Finish(outcome, Stored(corpus, artifact)))) ==> Valid()
      ensures Survived() && results == old(results)
      ensures var w := Finish(outcome, Stored(corpus, artifact));
              if res.Ok? then log == old(log) + [w] && Contents() == Apply(config, old(Contents()), w)
              else log == old(log) && Contents() == old(Contents())
      ensures attempt != old(|Attempts()|) ==> res == Err(OrderingChanged)
      ensures attempt == old(|Attempts()|) && 0 < attempt && !LastRunning(old(Attempts())) ==> res == Err(NotRunning)
      ensures attempt == old(|Attempts()|) && LastRunning(old(Attempts())) ==>
                res == Ok(()) || (res == Err(Killed) && old(killAfter).Some?)
    {
      RunKeepsInv(config, log);
      var loaded := LoadStatus();
      var s := loaded.value;
      var attempts := s.attempts;
      if |attempts| == 0 || attempts[|attempts| - 1].ordinal != attempt {
        return Err(OrderingChanged);
      }
      var current := attempts[|attempts| - 1];
      if current.status != Running {
        return Err(NotRunning);
      }
      attempts := attempts[|attempts| - 1 := current.(status := outcome)];
      var stored := Stored(corpus, artifact);
      var ok := Replace(s.(status := outcome, artifact := stored, attempts := attempts), Finish(outcome, stored));
      res := if ok then Ok(()) else Err(Killed);
    }

    // ----- resume.py -----

    // The loop over the attempts, latest first.
    method PreviousSuccess(attempts: seq<Attempt>) returns (found: Option<Artifact>)
      ensures found == LatestSuccess(Contents(), attempts)
    {
      var i := |attempts|;
      assert attempts[..i] == attempts;
      while i > 0
        invariant 0 <= i <= |attempts|
        invariant LatestSuccess(Contents(), attempts) == LatestSuccess(Contents(), attempts[..i])
      {
        assert attempts[..i][..i - 1] == attempts[..i - 1];
        i := i - 1;
        var item := attempts[i];
        if item.status == Succeeded && item.ordinal in results {
          var result := results[item.ordinal];
          if result.Result? && result.passed && result.artifact.Some? {
            return result.artifact;
          }
        }
      }
      return None;
    }

    // The recorded artifact, or failing that the latest success's.
    method FindEvidence() returns (found: Option<Artifact>, recovered: bool)
      requires Valid()
      ensures found == Evidence(config, Contents())
      ensures found.Some? ==> (recovered <==> !Loaded(config, Contents()).status.Succeeded?)
    {
      RunKeepsInv(config, log);
      var loaded := LoadStatus();
      var s := loaded.value;
      if s.status == Succeeded && s.artifact.Some? {
        return s.artifact, false;
      }
      found := PreviousSuccess(s.attempts);
      return found, true;
    }

    // Validated evidence of completion, or an error when it no longer stands.
    method CompletedArtifact(corpus: Corpus) returns (res: Result<Option<Artifact>, CollectError>)
      requires Valid()
      modifies this
      ensures Valid() && Survived() && results == old(results)
      ensures var e := Evidence(config, old(Contents()));
              if e.None? then res == Ok(None) && Contents() == old(Contents()) && log == old(log)
              else if Standing(corpus, e.value).None? then
                res == Err(ArtifactInvalid) && Contents() == old(Contents()) && log == old(log)
              else
                && (res == Ok(Standing(corpus, e.value)) || (res == Err(Killed) && old(killAfter).Some?))
                && (res.Ok? ==> Contents() == Settled(config, old(Contents()), Standing(corpus, e.value).value))
                && (res.Err? ==> Contents() == old(Contents()))
                && (log == old(log) || log == old(log) + [Repair(Standing(corpus, e.value).value)])
                && (res.Ok? ==> Says(Contents(), res.value.value))
                && (res.Ok? ==> (log == old(log) <==> old(Says(Contents(), Standing(corpus, e.value).value))))
    {
      var raw, recovered := FindEvidence();
      if raw.None? {
        return Ok(None);
      }
      var found := Standing(corpus, raw.value);
      if found.None? {
        return Err(ArtifactInvalid);
      }
      var loaded := LoadStatus();
      if recovered || loaded.value.artifact != found {
        res := RepairStatus(raw.value, found.value);
        return;
      }
      return Ok(found);
    }

    method RepairStatus(ghost raw: Artifact, found: Artifact) returns (res: Result<Option<Artifact>, CollectError>)
      requires Valid() && Evidence(config, Contents()) == Some(raw) && Same(found, raw)
      modifies this
      ensures Valid() && Survived() && results == old(results)
      ensures res == Ok(Some(found)) || (res == Err(Killed) && old(killAfter).Some?)
      ensures if res.Ok? then log == old(log) + [Repair(found)]
                              && Contents() == Apply(config, old(Contents()), Repair(found))
              else log == old(log) && Contents() == old(Contents())
    {
      assert Enabled(config, Contents(), Repair(found)) by {
        RunKeepsInv(config, log);
        EvidenceIsTraced(config, Contents(), found);
      }
      var loaded := LoadStatus();
      var s := loaded.value;
      var ok := Replace(s.(status := Succeeded, artifact := Some(found), repairs := s.repairs + 1), Repair(found));
      res := if ok then Ok(Some(found)) else Err(Killed);
    }

    // ----- controller.py -----

    // Commit a result left by a worker whose controller was lost.
    method RecoverWorkerResult(corpus: Corpus) returns (res: Result<(), CollectError>)
      requires Valid()
      modifies this
      ensures Valid() && Survived() && results == old(results)
      ensures res == Ok(()) || (res == Err(Killed) && old(killAfter).Some?)
      ensures Contents() == if res.Ok? then Adopted(config, old(Contents()), corpus) else old(Contents())
      ensures old(log) <= log && (forall i :: |old(log)| <= i < |log| ==> log[i].Finish?)
    {
      RunKeepsInv(config, log);
      var loaded := LoadStatus();
      var s := loaded.value;
      if s.status != Running {
        return Ok(());
      }
      if |s.attempts| == 0 {
        return Err(NoAttempts);
      }
      var attempt := s.attempts[|s.attempts| - 1].ordinal;
      if attempt !in results {
        return Ok(());
      }
      AdoptionIsEnabled(config, Contents(), corpus);
      var (outcome, artifact) := Outcome(Some(results[attempt]), 0, corpus);
      res := FinishAttempt(attempt, outcome, artifact, corpus);
    }

    // An attempt of the controller's own, failed at once.
    method RecordControllerFailure(corpus: Corpus) returns (res: Result<(), CollectError>)
      requires Valid()
      modifies this
      ensures Valid() && Survived() && results == old(results)
      ensures res == Ok(()) || (res == Err(Killed) && old(killAfter).Some?)
      ensures res.Ok? ==> Contents() == Faulted(config, old(Contents()))
      ensures res.Ok? ==> EndsWith(config, old(Contents()), Contents(), Failed, None, false)
      ensures old(log) <= log && NoLaunchSince(|old(log)|)
    {
      var loaded := LoadStatus();
      var s := loaded.value;
      var nextAttempt := |s.attempts| + 1;
      var attempt :- BeginAttempt(false);
      if attempt != nextAttempt {
        return Err(AttemptChanged);
      }
      res := FinishAttempt(attempt, Failed, None, corpus);
    }

    // The result the worker of the attempt just begun leaves.
    method LeaveResult(attempt: int, result: Option<ResultFile>, ghost before: Files)
      requires Valid() && Inv(config, before) && Enabled(config, before, Begin(true))
      requires Contents() == Apply(config, before, Begin(true)) && attempt == |Loaded(config, before).attempts| + 1
      modifies this`results, this`log
      ensures Valid() && Contents() == Left(config, before, result)
      ensures log == old(log) + (if result.Some? then [Deliver(attempt, result.value)] else [])
    {
      if result.Some? {
        DeliveryIsEnabled(config, before, result.value);
        ReceiveResult(attempt, result.value);
      }
    }

    // The worker's result and the end of its attempt.
    method AwaitWorker(attempt: int, result: Option<ResultFile>, ending: Ending, corpus: Corpus, ghost before: Files)
      returns (res: Result<CaseStatus, CollectError>)
      requires Valid() && Inv(config, before) && Enabled(config, before, Begin(true))
      requires Contents() == Apply(config, before, Begin(true))
      requires attempt == |Loaded(config, before).attempts| + 1
      modifies this
      ensures Valid() && Survived() && old(log) <= log && NoLaunchSince(|old(log)|)
      ensures res == Ok(Executed(result, ending, corpus).0) || (res == Err(Killed) && old(killAfter).Some?)
      ensures res.Ok? ==> Contents() == Launched(config, before, Runs(result, ending), corpus)
    {
      LeaveResult(attempt, result, before);
      LaunchIsEnabled(config, before, Runs(result, ending), corpus);
      var (outcome, artifact) := Executed(result, ending, corpus);
      var finished := FinishAttempt(attempt, outcome, artifact, corpus);
      res := match finished case Ok(_) => Ok(outcome) case Err(e) => Err(e);
    }

    // No write after the first n launches a worker.
    ghost predicate NoLaunchSince(n: nat)
      reads this
    {
      forall i :: n <= i < |log| ==> log[i] != Begin(true)
    }

    // One worker, from its journal entry to its outcome.
    method RunOne(worker: Worker, corpus: Corpus) returns (res: Result<CaseStatus, CollectError>)
      requires Valid() && Enabled(config, Contents(), Begin(true))
      modifies this
      ensures Valid() && Survived() && old(log) <= log && NoLaunchSince(|old(log)| + 1)
      ensures res == Err(Killed) ==> old(killAfter).Some?
      ensures worker.LaunchFails? && res != Err(Killed) ==>
                res == Err(LaunchFailed) && Contents() == Apply(config, old(Contents()), Begin(true))
      ensures worker.Runs? && res != Err(Killed) ==>
                && Contents() == Launched(config, old(Contents()), worker, corpus)
                && (res == Err(KeyboardInterrupt) || (res.Ok? && !res.value.Interrupted?))
                && Concluded(config, old(Contents()), Contents(), worker, corpus,
                             if res.Ok? then res.value else Interrupted)
    {
      RunKeepsInv(config, log);
      var loaded := LoadStatus();
      var nextAttempt := |loaded.value.attempts| + 1;
      var attempt :- BeginAttempt(true);
      if attempt != nextAttempt {
        return Err(AttemptChanged);
      }
      if worker.LaunchFails? {
        return Err(LaunchFailed);
      }
      LaunchConcludes(config, old(Contents()), worker, corpus);
      res := AwaitWorker(attempt, worker.result, worker.ending, corpus, old(Contents()));
      if res == Ok(Interrupted) {
        res := Err(KeyboardInterrupt);
      }
    }

    // One turn of the controller's loop over the selected cases.
    method Collect(corpus: Corpus, worker: Worker, later: Corpus) returns (handled: Handled)
      requires Valid()
      modifies this
      ensures Valid() && Survived() && old(log) <= log
      ensures handled.Dead? ==> old(killAfter).Some?
      ensures !handled.Dead? ==> Decided(Adopted(config, old(Contents()), corpus), corpus, worker, later, handled)
      // A case that has succeeded, or succeeds by adoption, sees no worker.
      ensures Evidence(config, Adopted(config, old(Contents()), corpus)).Some? ==>
                NoLaunchSince(|old(log)|)
    {
      var recovered := RecoverWorkerResult(corpus);
      if recovered.Err? {
        return Dead;
      }
      handled := Decide(corpus, worker, later);
    }

    // The decisions after recovery: skip, stop at the limit, or launch.
    method Decide(corpus: Corpus, worker: Worker, later: Corpus) returns (handled: Handled)
      requires Valid()
      modifies this
      ensures Valid() && Survived() && old(log) <= log
      ensures handled.Dead? ==> old(killAfter).Some?
      ensures !handled.Dead? ==> Decided(old(Contents()), corpus, worker, later, handled)
      ensures Evidence(config, old(Contents())).Some? ==> NoLaunchSince(|old(log)|)
    {
      RunKeepsInv(config, log);
      EvidenceMeansSuccess(config, Contents());
      var artifact := CompletedArtifact(corpus);
      if artifact == Err(Killed) {
        return Dead;
      }
      if artifact.Err? {
        var recorded := RecordControllerFailure(corpus);
        return if recorded.Ok? then ControllerFailed else Dead;
      }
      if artifact.value.Some? {
        return Skipped;
      }
      var loaded := LoadStatus();
      if |loaded.value.attempts| >= config.maxAttempts {
        return AtLimit;
      }
      handled := Launch(worker, later);
    }

    method Launch(worker: Worker, corpus: Corpus) returns (handled: Handled)
      requires Valid() && Enabled(config, Contents(), Begin(true))
      modifies this
      ensures Valid() && Survived() && old(log) <= log
      ensures handled.Dead? ==> old(killAfter).Some?
      ensures !handled.Dead? ==> LaunchedAs(old(Contents()), worker, corpus, handled)
    {
      var outcome := RunOne(worker, corpus);
      if outcome == Err(Killed) {
        return Dead;
      }
      if outcome == Err(KeyboardInterrupt) {
        return Stopped;
      }
      if outcome.Err? {
        var recorded := RecordControllerFailure(corpus);
        return if recorded.Ok? then ControllerFailed else Dead;
      }
      return Ran(outcome.value);
    }

    ghost predicate LaunchedAs(f: Files, worker: Worker, corpus: Corpus, handled: Handled)
      reads this
    {
      if worker.LaunchFails? then
        && handled == ControllerFailed && Contents() == Faulted(config, Apply(config, f, Begin(true)))
        && EndsWith(config, Apply(config, f, Begin(true)), Contents(), Failed, None, false)
      else
        && (handled.Stopped? || (handled.Ran? && !handled.status.Interrupted?))
        && Contents() == Launched(config, f, worker, corpus)
        && Concluded(config, f, Contents(), worker, corpus, if handled.Ran? then handled.status else Interrupted)
    }

    // What a pass that was not killed decided on these files, and left.
    ghost predicate Decided(f: Files, corpus: Corpus, worker: Worker, later: Corpus, handled: Handled)
      reads this
    {
      var found := Evidence(config, f);
      if found.Some? then
        var standing := Standing(corpus, found.value);
        if standing.Some? then
          handled == Skipped && Contents() == Settled(config, f, standing.value) && Says(Contents(), standing.value)
        else
          && handled == ControllerFailed && Contents() == Faulted(config, f)
          && EndsWith(config, f, Contents(), Failed, None, false)
      else if |Loaded(config, f).attempts| >= config.maxAttempts then handled == AtLimit && Contents() == f
      else LaunchedAs(f, worker, later, handled)
    }
  }

  // The worker's steps are allowed after its attempt has begun.
  lemma DeliveryIsEnabled(c: Config, f: Files, file: ResultFile)
    requires Inv(c, f) && Enabled(c, f, Begin(true))
    ensures Enabled(c, Apply(c, f, Begin(true)), Deliver(|Loaded(c, f).attempts| + 1, file))
  {}

  lemma LaunchIsEnabled(c: Config, f: Files, w: Worker, corpus: Corpus)
    requires Inv(c, f) && Enabled(c, f, Begin(true)) && w.Runs?
    ensures Enabled(c, Left(c, f, w.result), Closing(w, corpus))
    ensures var a := Loaded(c, Left(c, f, w.result)).attempts;
            LastRunning(a) && |a| == |Loaded(c, f).attempts| + 1
  {
    var a, b := Loaded(c, f).attempts, Loaded(c, Apply(c, f, Begin(true))).attempts;
    forall i | 0 <= i < |b|
      ensures !b[i].status.Succeeded?
    {
      assert i < |a| ==> !a[i].status.Succeeded?;
    }
  }
}
