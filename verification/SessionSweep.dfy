// Worker sessions restarted after an out-of-memory failure until every case
// has an outcome (baselines/moe_layer/persistent.py).
module SessionSweep {
  import opened Wrappers

  datatype CaseName = CaseName(text: string)

  datatype Job = Job(name: CaseName, python: string, ranks: int, distributedTuning: bool)

  datatype CaseStatus = Completed | OutOfMemory | TimedOut | Failed | Interrupted | Earlier(status: string)

  datatype Entry = Entry(name: CaseName, status: CaseStatus)

  datatype SweepError =
    | TeardownFailed
    | CaseFailed(entry: Entry)
    | KeyboardInterrupt

  // What one turn of the polling loop finds: the job current.json names, for
  // each job in turn how many outcomes the workers had written when its
  // outcome was looked for, and what ends the watch. An interrupted turn may
  // not have looked for every outcome.
  datatype Poll = Poll(
    current: Option<Job>, seen: seq<nat>, exited: bool, allocatorFailed: bool, overdue: bool, interrupted: bool)

  // One worker session, as its controller can observe it: `completed` jobs are
  // finished, in order, by the time the process is gone.
  datatype Session = Session(polls: seq<Poll>, completed: nat, returncode: int, rankOutOfMemory: bool)

  // ----- Grouping -----

  function Backend(name: string): string {
    if |name| == 0 || name[0] == '/' then "" else [name[0]] + Backend(name[1..])
  }

  predicate SameGroup(a: Job, b: Job) {
    && a.python == b.python && a.ranks == b.ranks && a.distributedTuning == b.distributedTuning
    && Backend(a.name.text) == Backend(b.name.text)
  }

  // How many leading jobs itertools.groupby hands out together.
  function GroupLength(jobs: seq<Job>): (k: nat)
    requires |jobs| > 0
    ensures 1 <= k <= |jobs|
  {
    GroupFrom(jobs, 1)
  }

  function GroupFrom(jobs: seq<Job>, i: nat): (k: nat)
    requires 1 <= i <= |jobs|
    ensures i <= k <= |jobs|
    decreases |jobs| - i
  {
    if i < |jobs| && SameGroup(jobs[0], jobs[i]) then GroupFrom(jobs, i + 1) else i
  }

  // A group is all alike and stops only at a job that differs or at the end.
  lemma GroupIsMaximal(jobs: seq<Job>)
    requires |jobs| > 0
    ensures forall i :: 0 <= i < GroupLength(jobs) ==>
                          && jobs[i].python == jobs[0].python && jobs[i].ranks == jobs[0].ranks
                          && jobs[i].distributedTuning == jobs[0].distributedTuning
                          && Backend(jobs[i].name.text) == Backend(jobs[0].name.text)
    ensures GroupLength(jobs) < |jobs| ==>
              var next := jobs[GroupLength(jobs)];
              || next.python != jobs[0].python || next.ranks != jobs[0].ranks
              || next.distributedTuning != jobs[0].distributedTuning
              || Backend(next.name.text) != Backend(jobs[0].name.text)
  {
    GroupFromIsMaximal(jobs, 1);
  }

  // The backend is what stands before the first slash of a name.
  lemma {:induction false} BackendLeads(name: string)
    ensures '/' !in Backend(name) && Backend(name) <= name
    ensures Backend(name) == name || name[|Backend(name)|] == '/'
  {
    if |name| > 0 && name[0] != '/' {
      BackendLeads(name[1..]);
      assert name == [name[0]] + name[1..];
    }
  }

  lemma {:induction false} GroupFromIsMaximal(jobs: seq<Job>, i: nat)
    requires 1 <= i <= |jobs| && forall j :: 0 <= j < i ==> SameGroup(jobs[0], jobs[j])
    ensures forall j :: 0 <= j < GroupFrom(jobs, i) ==> SameGroup(jobs[0], jobs[j])
    ensures GroupFrom(jobs, i) < |jobs| ==> !SameGroup(jobs[0], jobs[GroupFrom(jobs, i)])
    decreases |jobs| - i
  {
    if i < |jobs| && SameGroup(jobs[0], jobs[i]) {
      GroupFromIsMaximal(jobs, i + 1);
    }
  }

  // ----- What a session may do -----

  // "NCCL EP: failed to allocate" is looked for only in that backend's log.
  predicate NativeFailure(p: Poll) {
    p.current.Some? && "ncclep/" <= p.current.value.name.text && p.allocatorFailed
  }

  predicate Ends(p: Poll) {
    p.interrupted || p.exited || NativeFailure(p) || p.overdue
  }

  // The workers write only "completed" outcomes, in job order, and the watch
  // ends: the process exits or is stopped.
  ghost predicate Observable(s: Session, jobs: seq<Job>) {
    && s.completed <= |jobs|
    && |s.polls| > 0 && Ends(s.polls[|s.polls| - 1])
    && forall i :: 0 <= i < |s.polls| ==>
                     && (s.polls[i].current.Some? ==> s.polls[i].current.value in jobs)
                     && |s.polls[i].seen| <= |jobs|
                     && (!s.polls[i].interrupted ==> |s.polls[i].seen| == |jobs|)
                     && forall j :: 0 <= j < |s.polls[i].seen| ==> s.polls[i].seen[j] <= s.completed
  }

  // Whatever session is run, on whatever jobs.
  ghost predicate AllObservable(sessions: Sessions) {
    forall k, jobs :: ObservableAt(sessions, k, jobs)
  }

  ghost predicate ObservableAt(sessions: Sessions, k: nat, jobs: seq<Job>) {
    Observable(sessions(k, jobs), jobs)
  }

  // ----- The record of cases -----

  ghost function JobNames(jobs: seq<Job>): set<CaseName> {
    if |jobs| == 0 then {} else JobNames(jobs[..|jobs| - 1]) + {jobs[|jobs| - 1].name}
  }

  ghost function EntryNames(entries: seq<Entry>): set<CaseName> {
    if |entries| == 0 then {} else EntryNames(entries[..|entries| - 1]) + {entries[|entries| - 1].name}
  }

  ghost function With(names: set<CaseName>, jobs: seq<Job>): set<CaseName> {
    names + JobNames(jobs)
  }

  // A set of names as one value, so that two of them are compared as a whole.
  datatype Names = Names(all: set<CaseName>)

  // Known are those from before and those of the jobs.
  ghost predicate Grown(known: set<CaseName>, before: set<CaseName>, jobs: seq<Job>) {
    Names(known) == Names(With(before, jobs))
  }

  // Jobs of distinct names, none of them among these.
  ghost predicate Fresh(jobs: seq<Job>, names: set<CaseName>) {
    DistinctJobs(jobs) && JobNames(jobs) !! names
  }

  // No name occurs twice.
  ghost predicate DistinctJobs(jobs: seq<Job>) {
    |jobs| == 0 || (DistinctJobs(jobs[..|jobs| - 1]) && jobs[|jobs| - 1].name !in JobNames(jobs[..|jobs| - 1]))
  }

  ghost predicate DistinctEntries(entries: seq<Entry>) {
    |entries| == 0
    || (DistinctEntries(entries[..|entries| - 1])
        && entries[|entries| - 1].name !in EntryNames(entries[..|entries| - 1]))
  }

  // An outcome after which the sweep goes on.
  predicate Settled(e: Entry) {
    e.status.Completed? || e.status.OutOfMemory? || e.status.Earlier?
  }

  // The cases recorded so far: one settled outcome for each known name.
  ghost predicate Records(cases: seq<Entry>, known: set<CaseName>) {
    DistinctEntries(cases) && EntryNames(cases) == known && forall e :: e in cases ==> Settled(e)
  }

  lemma NamesAppend(entries: seq<Entry>, e: Entry)
    ensures EntryNames(entries + [e]) == EntryNames(entries) + {e.name}
    ensures DistinctEntries(entries + [e]) <==> DistinctEntries(entries) && e.name !in EntryNames(entries)
  {
    assert (entries + [e])[..|entries|] == entries;
  }

  lemma {:induction false} EntryNamed(entries: seq<Entry>, name: CaseName)
    ensures name in EntryNames(entries) <==> exists i :: 0 <= i < |entries| && entries[i].name == name
  {
    if |entries| > 0 {
      EntryNamed(entries[..|entries| - 1], name);
    }
  }

  lemma {:induction false} JobNamed(jobs: seq<Job>, name: CaseName)
    ensures name in JobNames(jobs) <==> exists i :: 0 <= i < |jobs| && jobs[i].name == name
  {
    if |jobs| > 0 {
      JobNamed(jobs[..|jobs| - 1], name);
    }
  }

  lemma JobNamesNext(jobs: seq<Job>, i: int)
    requires 0 <= i < |jobs|
    ensures JobNames(jobs[..i + 1]) == JobNames(jobs[..i]) + {jobs[i].name}
  {
    assert jobs[..i + 1][..i] == jobs[..i];
  }

  lemma {:induction false} JobNamesSum(a: seq<Job>, b: seq<Job>)
    ensures JobNames(a + b) == JobNames(a) + JobNames(b)
  {
    if |b| == 0 {
      assert a + b == a;
    } else {
      JobNamesSum(a, b[..|b| - 1]);
      assert (a + b)[..|a + b| - 1] == a + b[..|b| - 1];
    }
  }

  lemma JobNamesSplit(jobs: seq<Job>, i: int)
    requires 0 <= i <= |jobs|
    ensures JobNames(jobs) == JobNames(jobs[..i]) + JobNames(jobs[i..])
  {
    assert jobs == jobs[..i] + jobs[i..];
    JobNamesSum(jobs[..i], jobs[i..]);
  }

  lemma WithSum(names: set<CaseName>, a: seq<Job>, b: seq<Job>)
    ensures With(With(names, a), b) == With(names, a + b)
  {
    JobNamesSum(a, b);
  }

  lemma RecordOne(cases: seq<Entry>, known: set<CaseName>, e: Entry)
    requires Records(cases, known) && e.name !in known && Settled(e)
    ensures Records(cases + [e], known + {e.name})
  {
    NamesAppend(cases, e);
  }

  // What is recorded of these jobs is that they completed.
  ghost predicate Finished(cases: seq<Entry>, jobs: seq<Job>) {
    forall e :: e in cases && e.name in JobNames(jobs) ==> e.status.Completed?
  }

  lemma NothingFinished(cases: seq<Entry>, known: set<CaseName>, jobs: seq<Job>)
    requires Records(cases, known) && JobNames(jobs) !! known
    ensures Finished(cases, jobs)
  {
    forall i | 0 <= i < |cases|
      ensures cases[i].name in known
    {
      EntryNamed(cases, cases[i].name);
    }
  }

  lemma FinishedNames(cases: seq<Entry>, known: set<CaseName>, jobs: seq<Job>, completed: nat)
    requires Records(cases, known) && Finished(cases, jobs) && completed <= |jobs|
    requires JobNames(jobs[..completed]) <= known
    ensures forall i :: 0 <= i < completed ==> Entry(jobs[i].name, Completed) in cases
  {
    forall i | 0 <= i < completed
      ensures Entry(jobs[i].name, Completed) in cases
    {
      EarlyName(jobs, completed, i);
      JobNamed(jobs, jobs[i].name);
      EntryNamed(cases, jobs[i].name);
      var n :| 0 <= n < |cases| && cases[n].name == jobs[i].name;
      assert cases[n] == Entry(jobs[i].name, Completed);
    }
  }

  lemma EarlyName(jobs: seq<Job>, completed: nat, i: nat)
    requires i < completed <= |jobs|
    ensures jobs[i].name in JobNames(jobs[..completed])
  {
    assert jobs[..completed][i] == jobs[i];
    JobNamed(jobs[..completed], jobs[i].name);
  }

  // Each of n distinct cases is recorded once: n entries.
  lemma {:induction false} OneEntryEach(entries: seq<Entry>)
    requires DistinctEntries(entries)
    ensures |EntryNames(entries)| == |entries|
  {
    if |entries| > 0 {
      OneEntryEach(entries[..|entries| - 1]);
    }
  }

  lemma {:induction false} OneNameEach(jobs: seq<Job>)
    requires DistinctJobs(jobs)
    ensures |JobNames(jobs)| == |jobs|
  {
    if |jobs| > 0 {
      OneNameEach(jobs[..|jobs| - 1]);
    }
  }

  lemma {:induction false} DistinctSplit(jobs: seq<Job>, k: int)
    requires DistinctJobs(jobs) && 0 <= k <= |jobs|
    ensures DistinctJobs(jobs[..k]) && DistinctJobs(jobs[k..]) && JobNames(jobs[..k]) !! JobNames(jobs[k..])
  {
    if k == |jobs| {
      assert jobs[..k] == jobs && jobs[k..] == [];
    } else {
      var front, last := jobs[..|jobs| - 1], jobs[|jobs| - 1];
      DistinctSplit(front, k);
      JobNamesSplit(front, k);
      assert front[..k] == jobs[..k] && front[k..] == jobs[k..][..|jobs| - k - 1];
    }
  }

  // ----- The controller -----

  // In the middle of a session: what was known before it, and some of the jobs
  // it has completed.
  ghost predicate Amid(cases: seq<Entry>, known: set<CaseName>, before: set<CaseName>, jobs: seq<Job>, completed: nat) {
    && completed <= |jobs| && Records(cases, known) && Finished(cases, jobs)
    && before <= known <= With(before, jobs[..completed])
  }

  method RecordCompleted(jobs: seq<Job>, i: nat, cases: seq<Entry>, known: set<CaseName>, ghost before: set<CaseName>,
                         ghost completed: nat)
      returns (now: seq<Entry>, knows: set<CaseName>)
    requires i < completed && Amid(cases, known, before, jobs, completed)
    ensures Amid(now, knows, before, jobs, completed) && cases <= now && knows == known + {jobs[i].name}
  {
    now, knows := cases, known;
    if jobs[i].name !in known {
      EarlyName(jobs, completed, i);
      RecordOne(cases, known, Entry(jobs[i].name, Completed));
      now, knows := cases + [Entry(jobs[i].name, Completed)], known + {jobs[i].name};
    }
  }

  // The loop over the remaining jobs in one turn of the watch.
  method Scan(jobs: seq<Job>, p: Poll, cases: seq<Entry>, known: set<CaseName>, ghost before: set<CaseName>,
              ghost completed: nat)
      returns (now: seq<Entry>, knows: set<CaseName>)
    requires |p.seen| <= |jobs| && forall j :: 0 <= j < |p.seen| ==> p.seen[j] <= completed
    requires Amid(cases, known, before, jobs, completed)
    ensures Amid(now, knows, before, jobs, completed) && cases <= now && known <= knows
    ensures forall j :: 0 <= j < |p.seen| && j < p.seen[j] ==> jobs[j].name in knows
  {
    now, knows := cases, known;
    for i := 0 to |p.seen|
      invariant Amid(now, knows, before, jobs, completed) && cases <= now && known <= knows
      invariant forall j :: 0 <= j < i && j < p.seen[j] ==> jobs[j].name in knows
    {
      var outcomeExists := i < p.seen[i];
      if outcomeExists {
        now, knows := RecordCompleted(jobs, i, now, knows, before, completed);
      }
    }
  }

  datatype Watched = Gone(timedOut: bool, nativeFailure: bool) | Stopped(current: Option<Job>)

  // How a watch ends: by the first turn with something to end it, an exit
  // being noticed before an allocator failure and that before the deadline.
  function EndOf(polls: seq<Poll>): Watched
    requires |polls| > 0 && Ends(polls[|polls| - 1])
  {
    var p := polls[0];
    if p.interrupted then Stopped(p.current)
    else if Ends(p) then Gone(!p.exited && !NativeFailure(p), !p.exited && NativeFailure(p))
    else EndOf(polls[1..])
  }

  // The polling loop of one session.
  method Watch(jobs: seq<Job>, s: Session, cases: seq<Entry>, known: set<CaseName>, ghost before: set<CaseName>)
      returns (watched: Watched, now: seq<Entry>, knows: set<CaseName>)
    requires Observable(s, jobs) && Amid(cases, known, before, jobs, s.completed)
    ensures Amid(now, knows, before, jobs, s.completed) && cases <= now
    ensures watched == EndOf(s.polls)
    ensures watched.Stopped? && watched.current.Some? ==> watched.current.value in jobs
  {
    now, knows := cases, known;
    var turn := 0;
    while true
      invariant turn < |s.polls| && EndOf(s.polls) == EndOf(s.polls[turn..])
      invariant Amid(now, knows, before, jobs, s.completed) && cases <= now
      decreases |s.polls| - turn
    {
      var p := s.polls[turn];
      now, knows := Scan(jobs, p, now, knows, before, s.completed);
      if p.interrupted {
        watched := Stopped(p.current);
        return;
      }
      if p.exited {
        watched := Gone(false, false);
        return;
      }
      if NativeFailure(p) {
        watched := Gone(false, true);
        return;
      }
      if p.overdue {
        watched := Gone(true, false);
        return;
      }
      turn := turn + 1;
    }
  }

  // After the process is gone: record the results that came late, and list the
  // jobs without one.
  method Collect(jobs: seq<Job>, completed: nat, cases: seq<Entry>, known: set<CaseName>, ghost before: set<CaseName>)
      returns (uncompleted: seq<Job>, now: seq<Entry>, knows: set<CaseName>)
    requires Amid(cases, known, before, jobs, completed)
    ensures uncompleted == jobs[completed..] && cases <= now
    ensures Records(now, knows) && knows == With(before, jobs[..completed])
    ensures forall i :: 0 <= i < completed ==> Entry(jobs[i].name, Completed) in now
  {
    now, knows, uncompleted := cases, known, [];
    for i := 0 to |jobs|
      invariant cases <= now && uncompleted == if i <= completed then [] else jobs[completed..i]
      invariant Amid(now, knows, before, jobs, completed)
      invariant JobNames(jobs[..if i <= completed then i else completed]) <= knows
    {
      if i < completed {
        JobNamesNext(jobs, i);
        now, knows := RecordCompleted(jobs, i, now, knows, before, completed);
      } else {
        uncompleted := uncompleted + [jobs[i]];
      }
    }
    FinishedNames(now, knows, jobs, completed);
  }

  function StatusOf(w: Watched, rankOutOfMemory: bool): CaseStatus
    requires w.Gone?
  {
    if w.timedOut then TimedOut
    else if rankOutOfMemory || w.nativeFailure then OutOfMemory
    else Failed
  }

  // ----- What the ending of a session means -----

  // The turn that ends a watch: the first that finds anything to end it.
  ghost predicate EndsAt(polls: seq<Poll>, i: int) {
    0 <= i < |polls| && Ends(polls[i]) && forall j :: 0 <= j < i ==> !Ends(polls[j])
  }

  // Which turn that is.
  function LastTurn(polls: seq<Poll>): (i: nat)
    requires |polls| > 0 && Ends(polls[|polls| - 1])
    ensures EndsAt(polls, i)
  {
    if Ends(polls[0]) then 0 else 1 + LastTurn(polls[1..])
  }

  lemma {:induction false} EndIsLastTurn(polls: seq<Poll>)
    requires |polls| > 0 && Ends(polls[|polls| - 1])
    ensures var p, end := polls[LastTurn(polls)], EndOf(polls);
            && (end.Stopped? <==> p.interrupted)
            && (end.Stopped? ==> end.current == p.current)
            && (end.Gone? ==> (end.timedOut <==> !p.exited && !NativeFailure(p))
                              && (end.nativeFailure <==> !p.exited && NativeFailure(p)))
  {
    if !Ends(polls[0]) {
      EndIsLastTurn(polls[1..]);
    }
  }

  // The verdict on the job a session died on, whose last turn was `p`: a
  // timeout only for a process that was still running without an allocator
  // failure; out of memory when a rank reported it, or when the allocator of
  // the job's backend failed under a running process; a failure otherwise.
  ghost function Verdict(p: Poll, rankOutOfMemory: bool): CaseStatus {
    var native := p.current.Some? && "ncclep/" <= p.current.value.name.text && p.allocatorFailed;
    if p.overdue && !p.exited && !native then TimedOut
    else if rankOutOfMemory || (native && !p.exited) then OutOfMemory
    else Failed
  }

  // Why the sweep ends with this session, if it does: an interrupt, a worker
  // that failed after its last job, or a job it died on other than out of memory.
  ghost function Ending(jobs: seq<Job>, s: Session): Option<SweepError> {
    if |s.polls| == 0 || !Ends(s.polls[|s.polls| - 1]) then None
    else
      var p := s.polls[LastTurn(s.polls)];
      if p.interrupted then Some(KeyboardInterrupt)
      else if s.completed >= |jobs| then (if s.returncode == 0 then None else Some(TeardownFailed))
      else
        var status := Verdict(p, s.rankOutOfMemory);
        if status == OutOfMemory then None else Some(CaseFailed(Entry(jobs[s.completed].name, status)))
  }

  // A session after which the sweep goes on: what it completed is recorded,
  // and the job it died on, if any, is out of memory.
  ghost predicate SessionTold(entries: seq<Entry>, jobs: seq<Job>, s: Session) {
    && Ending(jobs, s) == None && s.completed <= |jobs|
    && (forall i :: 0 <= i < s.completed ==> Entry(jobs[i].name, Completed) in entries)
    && (s.completed < |jobs| ==> Entry(jobs[s.completed].name, OutOfMemory) in entries)
  }

  // After an interrupt the case then running is recorded.
  ghost predicate CurrentRecorded(entries: seq<Entry>, s: Session) {
    |s.polls| > 0 && Ends(s.polls[|s.polls| - 1]) && s.polls[LastTurn(s.polls)].interrupted ==>
      var current := s.polls[LastTurn(s.polls)].current;
      current.Some? ==> current.value.name in EntryNames(entries)
  }

  // The jobs a session settles: those it completed and the one it died on.
  function SettledBy(jobs: seq<Job>, s: Session): nat {
    if s.completed < |jobs| then s.completed + 1 else |jobs|
  }

  type Sessions = (nat, seq<Job>) -> Session

  // A session takes the rest of its group; the next group starts when one is
  // settled.
  function Start(group: seq<Job>, rest: seq<Job>): (seq<Job>, seq<Job>) {
    if |group| > 0 || |rest| == 0 then (group, rest) else (rest[..GroupLength(rest)], rest[GroupLength(rest)..])
  }

  // The jobs session n is given, and those of the groups after it.
  function JobsFor(pending: seq<Job>, sessions: Sessions, n: nat): (seq<Job>, seq<Job>) {
    if n == 0 then Start([], pending)
    else
      var (jobs, rest) := JobsFor(pending, sessions, n - 1);
      Start(jobs[SettledBy(jobs, sessions(n - 1, jobs))..], rest)
  }

  // The record agrees with each of the first `used` sessions.
  ghost predicate Told(cases: seq<Entry>, pending: seq<Job>, sessions: Sessions, used: nat) {
    forall n: nat :: n < used ==> ToldAt(cases, pending, sessions, n)
  }

  ghost predicate ToldAt(cases: seq<Entry>, pending: seq<Job>, sessions: Sessions, n: nat) {
    SessionTold(cases, JobsFor(pending, sessions, n).0, sessions(n, JobsFor(pending, sessions, n).0))
  }

  lemma ToldStays(was: seq<Entry>, cases: seq<Entry>, pending: seq<Job>, sessions: Sessions, used: nat)
    requires was <= cases && Told(was, pending, sessions, used)
    ensures Told(cases, pending, sessions, used)
  {
    forall n: nat | n < used
      ensures ToldAt(cases, pending, sessions, n)
    {
      assert ToldAt(was, pending, sessions, n);
      StillTold(was, cases, JobsFor(pending, sessions, n).0, sessions(n, JobsFor(pending, sessions, n).0));
    }
  }

  lemma StillTold(was: seq<Entry>, cases: seq<Entry>, jobs: seq<Job>, s: Session)
    requires SessionTold(was, jobs, s) && was <= cases
    ensures SessionTold(cases, jobs, s)
  {
    assert forall e :: e in was ==> e in cases;
  }

  // How a raising call leaves the record: settled outcomes of some of the
  // cases, then at most the outcome it raised for.
  ghost predicate Raised(cases: seq<Entry>, all: set<CaseName>, error: SweepError) {
    && DistinctEntries(cases) && EntryNames(cases) <= all
    && match error
       case TeardownFailed => AllSettled(cases)
       case CaseFailed(e) =>
         |cases| > 0 && cases[|cases| - 1] == e && (e.status.Failed? || e.status.TimedOut?)
         && AllSettled(cases[..|cases| - 1])
       case KeyboardInterrupt =>
         AllSettled(cases)
         || (|cases| > 0 && cases[|cases| - 1].status.Interrupted? && AllSettled(cases[..|cases| - 1]))
  }

  ghost predicate AllSettled(cases: seq<Entry>) {
    forall e :: e in cases ==> Settled(e)
  }

  lemma RaiseWith(cases: seq<Entry>, known: set<CaseName>, e: Entry, all: set<CaseName>, error: SweepError)
    requires Records(cases, known) && e.name !in known && known + {e.name} <= all
    requires || (error == CaseFailed(e) && (e.status.Failed? || e.status.TimedOut?))
             || (error.KeyboardInterrupt? && e.status.Interrupted?)
    ensures Raised(cases + [e], all, error)
  {
    NamesAppend(cases, e);
    assert (cases + [e])[..|cases|] == cases;
  }

  // These jobs, new to the record, are what it lacks of all the names.
  ghost predicate Lacks(known: set<CaseName>, jobs: seq<Job>, all: set<CaseName>) {
    Fresh(jobs, known) && Grown(all, known, jobs)
  }

  // A session is over: the first of its jobs are settled and the others left.
  ghost predicate SessionOver(jobs: seq<Job>, s: Session, cases: seq<Entry>, known: set<CaseName>, left: seq<Job>,
                              all: set<CaseName>) {
    && s.completed <= |jobs| && left == jobs[SettledBy(jobs, s)..] && Lacks(known, left, all)
    && Records(cases, known) && SessionTold(cases, jobs, s)
  }

  // The rest of a session once its process is gone.
  method Settle(jobs: seq<Job>, s: Session, watched: Watched, cases: seq<Entry>, known: set<CaseName>,
                ghost before: set<CaseName>)
      returns (res: Result<seq<Job>, SweepError>, now: seq<Entry>, knows: set<CaseName>)
    requires |jobs| > 0 && Fresh(jobs, before) && Observable(s, jobs) && watched == EndOf(s.polls) && watched.Gone?
    requires Amid(cases, known, before, jobs, s.completed)
    ensures cases <= now
    ensures res.Ok? ==> SessionOver(jobs, s, now, knows, res.value, With(before, jobs))
    ensures res.Err? ==> Raised(now, With(before, jobs), res.error) && Ending(jobs, s) == Some(res.error)
  {
    SplitAt(jobs, s.completed, before);
    EndIsLastTurn(s.polls);
    var uncompleted;
    uncompleted, now, knows := Collect(jobs, s.completed, cases, known, before);
    if |uncompleted| == 0 {
      res := if s.returncode != 0 then Err(TeardownFailed) else Ok([]);
      return;
    }
    res, now, knows := Conclude(jobs, s, uncompleted, StatusOf(watched, s.rankOutOfMemory), now, knows, before);
  }

  // The verdict on the first job without a result.
  method Conclude(jobs: seq<Job>, s: Session, uncompleted: seq<Job>, status: CaseStatus, cases: seq<Entry>,
                  known: set<CaseName>, ghost before: set<CaseName>)
      returns (res: Result<seq<Job>, SweepError>, now: seq<Entry>, knows: set<CaseName>)
    requires Fresh(jobs, before) && s.completed < |jobs| && uncompleted == jobs[s.completed..]
    requires Records(cases, known) && known == With(before, jobs[..s.completed])
    requires forall i :: 0 <= i < s.completed ==> Entry(jobs[i].name, Completed) in cases
    requires |s.polls| > 0 && Ends(s.polls[|s.polls| - 1]) && !s.polls[LastTurn(s.polls)].interrupted
    requires status == Verdict(s.polls[LastTurn(s.polls)], s.rankOutOfMemory)
    ensures cases <= now
    ensures res.Ok? ==> SessionOver(jobs, s, now, knows, res.value, With(before, jobs))
    ensures res.Err? ==> Raised(now, With(before, jobs), res.error) && Ending(jobs, s) == Some(res.error)
  {
    var entry := Entry(uncompleted[0].name, status);
    FailedIsNew(jobs, s.completed, before);
    if entry.status == OutOfMemory {
      RecordOne(cases, known, entry);
      SplitAt(jobs, s.completed + 1, before);
      JobNamesNext(jobs, s.completed);
      res := Ok(uncompleted[1..]);
    } else {
      SplitAt(jobs, s.completed, before);
      RaiseWith(cases, known, entry, With(before, jobs), CaseFailed(entry));
      res := Err(CaseFailed(entry));
    }
    now, knows := cases + [entry], known + {entry.name};
  }

  lemma SplitAt(jobs: seq<Job>, n: int, before: set<CaseName>)
    requires 0 <= n <= |jobs| && Fresh(jobs, before)
    ensures JobNames(jobs[..n]) <= JobNames(jobs) && Lacks(With(before, jobs[..n]), jobs[n..], With(before, jobs))
  {
    assert jobs == jobs[..n] + jobs[n..];
    RemainingIsNew(jobs[..n], jobs[n..], before);
    JobNamesSum(jobs[..n], jobs[n..]);
  }

  lemma FailedIsNew(jobs: seq<Job>, completed: nat, before: set<CaseName>)
    requires completed < |jobs| && Fresh(jobs, before)
    ensures jobs[completed].name in JobNames(jobs)
    ensures jobs[completed].name !in With(before, jobs[..completed])
  {
    JobNamed(jobs, jobs[completed].name);
    DistinctSplit(jobs, completed + 1);
    assert jobs[..completed + 1][..completed] == jobs[..completed];
  }

  // One session, from launch to what it leaves for the next.
  method RunSession(jobs: seq<Job>, s: Session, cases: seq<Entry>, known: set<CaseName>)
      returns (res: Result<seq<Job>, SweepError>, now: seq<Entry>, knows: set<CaseName>)
    requires |jobs| > 0 && Fresh(jobs, known) && Observable(s, jobs) && Records(cases, known)
    ensures cases <= now
    ensures res.Ok? ==> SessionOver(jobs, s, now, knows, res.value, With(known, jobs))
    ensures res.Err? ==> Raised(now, With(known, jobs), res.error) && Ending(jobs, s) == Some(res.error)
    ensures CurrentRecorded(now, s)
  {
    var watched;
    EndIsLastTurn(s.polls);
    NothingFinished(cases, known, jobs);
    watched, now, knows := Watch(jobs, s, cases, known, known);
    if watched.Gone? {
      res, now, knows := Settle(jobs, s, watched, now, knows, known);
      return;
    }
    res := Err(KeyboardInterrupt);
    SplitAt(jobs, s.completed, known);
    if watched.current.Some? && watched.current.value.name !in knows {
      var entry := Entry(watched.current.value.name, Interrupted);
      JobNamed(jobs, entry.name);
      RaiseWith(now, knows, entry, With(known, jobs), KeyboardInterrupt);
      NamesAppend(now, entry);
      now := now + [entry];
    }
  }

  // The record, with `remaining` and then `rest` still to do for session `used`.
  ghost predicate State(cases: seq<Entry>, known: set<CaseName>, pending: seq<Job>, sessions: Sessions,
                        remaining: seq<Job>, rest: seq<Job>, used: nat) {
    && Records(cases, known) && Told(cases, pending, sessions, used)
    && JobsFor(pending, sessions, used) == Start(remaining, rest)
  }

  // The same, where the remaining jobs of a group are what the record lacks.
  ghost predicate InGroup(cases: seq<Entry>, known: set<CaseName>, all: set<CaseName>, pending: seq<Job>,
                          sessions: Sessions, remaining: seq<Job>, rest: seq<Job>, used: nat) {
    Lacks(known, remaining, all) && State(cases, known, pending, sessions, remaining, rest, used)
  }

  // The next session of a group.
  method NextSession(remaining: seq<Job>, s: Session, cases: seq<Entry>, known: set<CaseName>, ghost all: set<CaseName>,
                     ghost pending: seq<Job>, ghost sessions: Sessions, ghost rest: seq<Job>, ghost n: nat,
                     ghost used: nat)
      returns (res: Result<seq<Job>, SweepError>, now: seq<Entry>, knows: set<CaseName>)
    requires InGroup(cases, known, all, pending, sessions, remaining, rest, n) && |remaining| > 0
    requires s == sessions(n, remaining) && Observable(s, remaining) && used == n + 1
    ensures cases <= now
    ensures res.Ok? ==> |res.value| < |remaining|
    ensures res.Ok? ==> InGroup(now, knows, all, pending, sessions, res.value, rest, used)
    ensures res.Err? ==> Raised(now, all, res.error) && EndedBy(res.error, now, pending, sessions, used)
  {
    res, now, knows := RunSession(remaining, s, cases, known);
    if res.Ok? {
      Advance(cases, known, now, knows, pending, sessions, remaining, rest, n, res.value, all);
    } else {
      ToldStays(cases, now, pending, sessions, n);
    }
  }

  // The sweep was ended by the last of `used` sessions, and the record agrees
  // with all before it.
  ghost predicate EndedBy(error: SweepError, cases: seq<Entry>, pending: seq<Job>, sessions: Sessions, used: nat) {
    used > 0 && Told(cases, pending, sessions, used - 1) && EndingAt(pending, sessions, used - 1) == Some(error)
  }

  ghost function EndingAt(pending: seq<Job>, sessions: Sessions, n: nat): Option<SweepError> {
    var jobs := JobsFor(pending, sessions, n).0;
    Ending(jobs, sessions(n, jobs))
  }

  lemma Advance(was: seq<Entry>, knew: set<CaseName>, cases: seq<Entry>, known: set<CaseName>, pending: seq<Job>,
                sessions: Sessions, remaining: seq<Job>, rest: seq<Job>, used: nat, left: seq<Job>, all: set<CaseName>)
    requires State(was, knew, pending, sessions, remaining, rest, used) && |remaining| > 0
    requires was <= cases && SessionOver(remaining, sessions(used, remaining), cases, known, left, all)
    ensures State(cases, known, pending, sessions, left, rest, used + 1)
  {
    ToldStays(was, cases, pending, sessions, used);
    assert ToldAt(cases, pending, sessions, used);
  }

  // One group of jobs, in as many sessions as it takes. Sessions are numbered
  // over the whole sweep; each that ends without an exception either finishes
  // the group or settles the case it died on.
  method RunGroup(group: seq<Job>, sessions: Sessions, first: nat, cases: seq<Entry>, known: set<CaseName>,
                  ghost pending: seq<Job>, ghost rest: seq<Job>)
      returns (res: Result<(), SweepError>, now: seq<Entry>, knows: set<CaseName>, used: nat)
    requires |group| > 0 && Fresh(group, known) && AllObservable(sessions)
    requires State(cases, known, pending, sessions, group, rest, first)
    ensures cases <= now && first < used <= first + |group|
    ensures res.Ok? ==> Grown(knows, known, group) && State(now, knows, pending, sessions, [], rest, used)
    ensures res.Err? ==>
              Raised(now, With(known, group), res.error) && EndedBy(res.error, now, pending, sessions, used)
  {
    now, knows, used := cases, known, first;
    var remaining := group;
    while |remaining| > 0
      invariant cases <= now && first <= used && used + |remaining| <= first + |group|
      invariant |remaining| < |group| ==> first < used
      invariant InGroup(now, knows, With(known, group), pending, sessions, remaining, rest, used)
      decreases |remaining|
    {
      assert ObservableAt(sessions, used, remaining);
      var n := used;
      var left;
      used := used + 1;
      left, now, knows := NextSession(remaining, sessions(n, remaining), now, knows, With(known, group),
                                      pending, sessions, rest, n, used);
      if left.Err? {
        return Err(left.error), now, knows, used;
      }
      remaining := left.value;
    }
    NothingLacks(knows, With(known, group));
    res := Ok(());
  }

  lemma NothingLacks(known: set<CaseName>, all: set<CaseName>)
    requires Lacks(known, [], all)
    ensures known == all
  {}

  lemma RemainingIsNew(done: seq<Job>, remaining: seq<Job>, before: set<CaseName>)
    requires Fresh(done + remaining, before)
    ensures Fresh(done, before) && Fresh(remaining, With(before, done))
    ensures With(With(before, done), remaining) == With(before, done + remaining)
    ensures With(before, done) <= With(before, done + remaining)
  {
    WithSum(before, done, remaining);
    JobNamesSum(done, remaining);
    DistinctSum(done, remaining);
    DisjointParts(before, JobNames(done), JobNames(remaining));
  }

  lemma DistinctSum(a: seq<Job>, b: seq<Job>)
    requires DistinctJobs(a + b)
    ensures DistinctJobs(a) && DistinctJobs(b) && JobNames(a) !! JobNames(b)
  {
    DistinctSplit(a + b, |a|);
    assert (a + b)[..|a|] == a && (a + b)[|a|..] == b;
  }

  lemma DisjointParts(a: set<CaseName>, b: set<CaseName>, c: set<CaseName>)
    requires a !! b + c && b !! c
    ensures c !! a + b && b !! a
  {}

  // Group after group.
  method RunGroups(pending: seq<Job>, sessions: Sessions, base: seq<Entry>, known: set<CaseName>)
      returns (res: Result<(), SweepError>, cases: seq<Entry>, knows: set<CaseName>, used: nat)
    requires Fresh(pending, known) && AllObservable(sessions) && State(base, known, pending, sessions, [], pending, 0)
    ensures base <= cases && used <= |pending|
    ensures res.Ok? ==> Grown(knows, known, pending) && State(cases, knows, pending, sessions, [], [], used)
    ensures res.Err? ==>
              Raised(cases, With(known, pending), res.error) && EndedBy(res.error, cases, pending, sessions, used)
  {
    cases, knows, used, res := base, known, 0, Ok(());
    var rest := pending;
    while |rest| > 0
      invariant base <= cases && used + |rest| <= |pending|
      invariant BetweenGroups(cases, knows, With(known, pending), pending, sessions, rest, used)
      decreases |rest|
    {
      var k := GroupLength(rest);
      res, cases, knows, used :=
        RunNextGroup(rest[..k], rest[k..], sessions, used, cases, knows, With(known, pending), pending, rest);
      if res.Err? {
        return;
      }
      rest := rest[k..];
    }
    NothingLacks(knows, With(known, pending));
    res := Ok(());
  }

  // The whole sweep. It ends after at most one session per case. A normal
  // return leaves exactly one outcome for every pending case, after those
  // already there: the outcome its sessions determine, whatever each poll
  // happened to see. A raising one never records a case twice, settles all but
  // the last it records, and raises what its last session is to blame for.
  method Run(pending: seq<Job>, base: seq<Entry>, sessions: Sessions)
      returns (res: Result<(), SweepError>, cases: seq<Entry>, used: nat)
    requires Fresh(pending, EntryNames(base)) && DistinctEntries(base)
    requires AllSettled(base) && AllObservable(sessions)
    ensures base <= cases && used <= |pending|
    ensures res.Ok? ==> Complete(base, cases, pending, sessions, used)
    ensures res.Err? ==> Raised(cases, With(EntryNames(base), pending), res.error)
    ensures res.Err? ==> EndedBy(res.error, cases, pending, sessions, used)
  {
    var known := KnownNames(base);
    var knows;
    res, cases, knows, used := RunGroups(pending, sessions, base, known);
    if res.Ok? {
      SweepEnds(pending, base, cases, knows, sessions, used);
    }
  }

  // One settled outcome for every case there was and every pending one, as the
  // sessions tell it; no session is left to run.
  ghost predicate Complete(base: seq<Entry>, cases: seq<Entry>, pending: seq<Job>, sessions: Sessions, used: nat) {
    && DistinctEntries(cases) && AllSettled(cases)
    && EntryNames(cases) == With(EntryNames(base), pending) && |cases| == |base| + |pending|
    && Told(cases, pending, sessions, used) && JobsFor(pending, sessions, used) == ([], [])
  }

  // The next group has not started.
  ghost predicate BetweenGroups(cases: seq<Entry>, known: set<CaseName>, all: set<CaseName>, pending: seq<Job>,
                                sessions: Sessions, rest: seq<Job>, used: nat) {
    Lacks(known, rest, all) && State(cases, known, pending, sessions, [], rest, used)
  }

  method RunNextGroup(group: seq<Job>, ghost others: seq<Job>, sessions: Sessions, first: nat, cases: seq<Entry>,
                      known: set<CaseName>, ghost all: set<CaseName>, ghost pending: seq<Job>, ghost rest: seq<Job>)
      returns (res: Result<(), SweepError>, now: seq<Entry>, knows: set<CaseName>, used: nat)
    requires AllObservable(sessions) && BetweenGroups(cases, known, all, pending, sessions, rest, first)
    requires |rest| > 0 && group == rest[..GroupLength(rest)] && others == rest[GroupLength(rest)..]
    ensures cases <= now && used <= first + |group|
    ensures res.Ok? ==> BetweenGroups(now, knows, all, pending, sessions, others, used)
    ensures res.Err? ==> Raised(now, all, res.error) && EndedBy(res.error, now, pending, sessions, used)
  {
    SplitAt(rest, GroupLength(rest), known);
    GroupStarts(group, others, rest, known);
    res, now, knows, used := RunGroup(group, sessions, first, cases, known, pending, others);
    if res.Err? {
      RaisedWithin(now, With(known, group), all, res.error);
    }
  }

  lemma GroupStarts(group: seq<Job>, others: seq<Job>, rest: seq<Job>, known: set<CaseName>)
    requires |rest| > 0 && group == rest[..GroupLength(rest)] && others == rest[GroupLength(rest)..]
    requires Fresh(rest, known)
    ensures Start([], rest) == Start(group, others) && Fresh(group, known)
    ensures With(known, group) <= With(known, rest)
  {
    assert rest == group + others;
    RemainingIsNew(group, others, known);
  }

  lemma RaisedWithin(cases: seq<Entry>, names: set<CaseName>, all: set<CaseName>, error: SweepError)
    requires Raised(cases, names, error) && names <= all
    ensures Raised(cases, all, error)
  {}

  lemma SweepEnds(pending: seq<Job>, base: seq<Entry>, cases: seq<Entry>, known: set<CaseName>, sessions: Sessions,
                  used: nat)
    requires Fresh(pending, EntryNames(base)) && DistinctEntries(base)
    requires Grown(known, EntryNames(base), pending) && State(cases, known, pending, sessions, [], [], used)
    ensures Complete(base, cases, pending, sessions, used)
  {
    OneEntryEach(cases);
    OneEntryEach(base);
    OneNameEach(pending);
  }

  // {case["case"] for case in cases}
  method KnownNames(cases: seq<Entry>) returns (known: set<CaseName>)
    ensures known == EntryNames(cases)
  {
    known := {};
    for i := 0 to |cases|
      invariant known == EntryNames(cases[..i])
    {
      assert cases[..i + 1][..i] == cases[..i];
      known := known + {cases[i].name};
    }
    assert cases[..|cases|] == cases;
  }
}
