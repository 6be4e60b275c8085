// One job queue, one thread per GPU, one event queue and one recorder
// (benchmarking/stage_traces/queue.py), as interleaved atomic steps.
module TraceQueue {
  import opened Wrappers

  // A case is its position in the case list; trace_case returns an outcome.
  type Case = nat

  datatype Outcome = Outcome(job: Case, status: string)

  datatype Event = Start(gpu: nat, job: Case) | End(gpu: nat, outcome: Outcome)

  // A thread before testing `stopping`, before taking a job, with a job whose
  // start it has not posted, tracing, or gone (through a sentinel or not).
  datatype Thread = Ready | Waiting | Holding(job: Case) | Tracing(job: Case) | Exited(sentinel: bool)

  // The recorder in its loop, between a timeout and the liveness test, leaving
  // the loop, and past `stopping.set()`.
  datatype Recorder = Looping | Checking | Leaving(raised: bool) | Stopped(raised: bool)

  datatype State = State(
    jobs: seq<Option<Case>>,
    events: seq<Event>,
    threads: seq<Thread>,
    active: map<nat, Case>,
    finished: seq<Outcome>,
    stopping: bool,
    recorder: Recorder,
    total: nat)

  datatype Step =
    | TestStop(gpu: nat)
    | Take(gpu: nat)
    | PostStart(gpu: nat)
    | PostEnd(gpu: nat, status: string)
    | Record
    | Timeout
    | TestAlive
    | LeaveLoop
    | Interrupt
    | SetStopping

  predicate AllExited(s: State) {
    forall i :: 0 <= i < |s.threads| ==> s.threads[i].Exited?
  }

  predicate Enabled(s: State, step: Step) {
    match step
    case TestStop(g) => g < |s.threads| && s.threads[g].Ready?
    case Take(g) => g < |s.threads| && s.threads[g].Waiting? && |s.jobs| > 0
    case PostStart(g) => g < |s.threads| && s.threads[g].Holding?
    case PostEnd(g, _) => g < |s.threads| && s.threads[g].Tracing?
    case Record => s.recorder.Looping? && |s.finished| < s.total && |s.events| > 0
    case Timeout => s.recorder.Looping? && |s.finished| < s.total && |s.events| == 0
    case TestAlive => s.recorder.Checking?
    case LeaveLoop => s.recorder.Looping? && |s.finished| >= s.total
    case Interrupt => s.recorder.Looping? || s.recorder.Checking?
    case SetStopping => s.recorder.Leaving?
  }

  function Recorded(s: State, e: Event): State {
    match e
    case Start(g, c) => s.(active := s.active[g := c])
    case End(g, o) => s.(active := s.active - {g}, finished := s.finished + [o])
  }

  function Next(s: State, step: Step): State
    requires Enabled(s, step)
  {
    match step
    case TestStop(g) => s.(threads := s.threads[g := if s.stopping then Exited(false) else Waiting])
    case Take(g) =>
      s.(jobs := s.jobs[1..],
         threads := s.threads[g := if s.jobs[0].Some? then Holding(s.jobs[0].value) else Exited(true)])
    case PostStart(g) =>
      s.(threads := s.threads[g := Tracing(s.threads[g].job)], events := s.events + [Start(g, s.threads[g].job)])
    case PostEnd(g, status) =>
      s.(threads := s.threads[g := Ready], events := s.events + [End(g, Outcome(s.threads[g].job, status))])
    case Record => Recorded(s, s.events[0]).(events := s.events[1..])
    case Timeout => s.(recorder := Checking)
    case TestAlive => s.(recorder := if AllExited(s) then Leaving(true) else Looping)
    case LeaveLoop => s.(recorder := Leaving(false))
    case Interrupt => s.(recorder := Leaving(true))
    case SetStopping => s.(recorder := Stopped(s.recorder.raised), stopping := true)
  }

  // ----- Starting states -----

  function Queued(pending: seq<Case>): seq<Option<Case>> {
    seq(|pending|, i requires 0 <= i < |pending| => Some(pending[i]))
  }

  function Initial(pending: seq<Case>, prior: seq<Outcome>, gpus: nat): State {
    State(Queued(pending) + seq(gpus, _ => None), [], seq(gpus, _ => Ready), map[], prior, false, Looping,
          |pending| + |prior|)
  }

  // A run: every state of any interleaving from the start.
  ghost predicate Run(pending: seq<Case>, prior: seq<Outcome>, gpus: nat, steps: seq<Step>, states: seq<State>) {
    && |states| == |steps| + 1
    && states[0] == Initial(pending, prior, gpus)
    && forall i :: 0 <= i < |steps| ==> Enabled(states[i], steps[i]) && states[i + 1] == Next(states[i], steps[i])
  }

  // ----- Where the cases are -----

  // Counts take the case to count, or None to count every case.
  function One(x: Case, c: Option<Case>): nat {
    if c.None? || c.value == x then 1 else 0
  }

  function InCases(cases: seq<Case>, c: Option<Case>): nat {
    if |cases| == 0 then 0 else One(cases[0], c) + InCases(cases[1..], c)
  }

  function InJobs(jobs: seq<Option<Case>>, c: Option<Case>): nat {
    if |jobs| == 0 then 0 else (if jobs[0].Some? then One(jobs[0].value, c) else 0) + InJobs(jobs[1..], c)
  }

  function HeldBy(t: Thread, c: Option<Case>): nat {
    if t.Holding? || t.Tracing? then One(t.job, c) else 0
  }

  function Held(threads: seq<Thread>, c: Option<Case>): nat {
    if |threads| == 0 then 0 else HeldBy(threads[0], c) + Held(threads[1..], c)
  }

  function EndOf(e: Event, c: Option<Case>): nat {
    if e.End? then One(e.outcome.job, c) else 0
  }

  function Ended(events: seq<Event>, c: Option<Case>): nat {
    if |events| == 0 then 0 else EndOf(events[0], c) + Ended(events[1..], c)
  }

  function InOutcomes(finished: seq<Outcome>, c: Option<Case>): nat {
    if |finished| == 0 then 0
    else InOutcomes(finished[..|finished| - 1], c) + One(finished[|finished| - 1].job, c)
  }

  function Places(s: State, c: Option<Case>): nat {
    InJobs(s.jobs, c) + Held(s.threads, c) + Ended(s.events, c) + InOutcomes(s.finished, c)
  }

  function Sentinels(jobs: seq<Option<Case>>): nat {
    if |jobs| == 0 then 0 else (if jobs[0].None? then 1 else 0) + Sentinels(jobs[1..])
  }

  function Released(threads: seq<Thread>): nat {
    if |threads| == 0 then 0 else (if threads[0] == Exited(true) then 1 else 0) + Released(threads[1..])
  }

  // ----- What the recorder will learn about one GPU -----

  // Reading `events` from `current` alternates starts with the ends of the
  // started case, and leaves `left` on the GPU.
  predicate Reads(events: seq<Event>, g: nat, current: Option<Case>, left: Option<Case>) {
    if |events| == 0 then current == left
    else
      var e := events[0];
      if e.gpu != g then Reads(events[1..], g, current, left)
      else match e
           case Start(_, c) => current.None? && Reads(events[1..], g, Some(c), left)
           case End(_, o) => current == Some(o.job) && Reads(events[1..], g, None, left)
  }

  function Current(s: State, g: nat): Option<Case> {
    if g in s.active then Some(s.active[g]) else None
  }

  function Left(t: Thread): Option<Case> {
    if t.Tracing? then Some(t.job) else None
  }

  // ----- What every interleaving keeps -----

  ghost predicate Conserved(pending: seq<Case>, prior: seq<Outcome>, s: State) {
    forall c :: Places(s, c) == InCases(pending, c) + InOutcomes(prior, c)
  }

  // Sentinels follow the cases, one for each thread not yet released by one.
  ghost predicate SentinelInv(s: State) {
    && (forall i, j :: 0 <= i < j < |s.jobs| && s.jobs[i].None? ==> s.jobs[j].None?)
    && Sentinels(s.jobs) + Released(s.threads) == |s.threads|
    && ((exists i :: 0 <= i < |s.threads| && s.threads[i] == Exited(true)) ==> InJobs(s.jobs, None) == 0)
  }

  // The recorder is a delayed observer of every GPU.
  ghost predicate ObserverInv(s: State) {
    && (forall g :: 0 <= g < |s.threads| ==> Reads(s.events, g, Current(s, g), Left(s.threads[g])))
    && (forall i :: 0 <= i < |s.events| ==> s.events[i].gpu < |s.threads|)
    && (forall g :: g in s.active ==> g < |s.threads|)
  }

  ghost predicate ControlInv(s: State) {
    && (s.stopping <==> s.recorder.Stopped?)
    && (s.recorder == Leaving(false) || s.recorder == Stopped(false) ==> |s.finished| >= s.total)
    && (s.recorder.Checking? ==> |s.finished| < s.total)
    && ((exists i :: 0 <= i < |s.threads| && s.threads[i] == Exited(false)) ==> s.stopping)
  }

  ghost predicate Inv(pending: seq<Case>, prior: seq<Outcome>, s: State) {
    && s.total == |pending| + |prior|
    && Conserved(pending, prior, s) && SentinelInv(s) && ObserverInv(s) && ControlInv(s)
  }

  // ----- One thread changed, one event posted or read -----

  lemma HeldUpdate(threads: seq<Thread>, i: nat, t: Thread, c: Option<Case>)
    requires i < |threads|
    ensures Held(threads[i := t], c) + HeldBy(threads[i], c) == Held(threads, c) + HeldBy(t, c)
  {
    if i > 0 {
      HeldUpdate(threads[1..], i - 1, t, c);
      assert threads[i := t][1..] == threads[1..][i - 1 := t];
    } else {
      assert threads[i := t][1..] == threads[1..];
    }
  }

  lemma ReleasedUpdate(threads: seq<Thread>, i: nat, t: Thread)
    requires i < |threads|
    ensures Released(threads[i := t]) + (if threads[i] == Exited(true) then 1 else 0)
            == Released(threads) + (if t == Exited(true) then 1 else 0)
  {
    if i > 0 {
      ReleasedUpdate(threads[1..], i - 1, t);
      assert threads[i := t][1..] == threads[1..][i - 1 := t];
    } else {
      assert threads[i := t][1..] == threads[1..];
    }
  }

  lemma EndedAppend(events: seq<Event>, e: Event, c: Option<Case>)
    ensures Ended(events + [e], c) == Ended(events, c) + EndOf(e, c)
  {
    if |events| > 0 {
      EndedAppend(events[1..], e, c);
      assert (events + [e])[1..] == events[1..] + [e];
    } else {
      assert (events + [e])[1..] == [];
    }
  }

  lemma ReadsAppend(events: seq<Event>, e: Event, g: nat, current: Option<Case>, left: Option<Case>)
    requires Reads(events, g, current, left)
    requires e.gpu == g ==> if e.Start? then left.None? else left == Some(e.outcome.job)
    ensures Reads(events + [e], g, current, if e.gpu != g then left else if e.Start? then Some(e.job) else None)
  {
    if |events| > 0 {
      assert (events + [e])[1..] == events[1..] + [e];
      var h := events[0];
      ReadsAppend(events[1..], e, g, if h.gpu != g then current else if h.Start? then Some(h.job) else None, left);
    } else {
      assert (events + [e])[1..] == [];
    }
  }

  lemma NoCaseLeft(jobs: seq<Option<Case>>)
    requires |jobs| > 0 ==> jobs[0].None?
    requires forall i, j :: 0 <= i < j < |jobs| && jobs[i].None? ==> jobs[j].None?
    ensures InJobs(jobs, None) == 0
  {
    if |jobs| > 0 {
      NoCaseLeft(jobs[1..]);
    }
  }

  // ----- The start -----

  lemma JobsAppend(a: seq<Option<Case>>, b: seq<Option<Case>>, c: Option<Case>)
    ensures InJobs(a + b, c) == InJobs(a, c) + InJobs(b, c)
    ensures Sentinels(a + b) == Sentinels(a) + Sentinels(b)
  {
    if |a| == 0 {
      assert a + b == b;
    } else {
      assert (a + b)[1..] == a[1..] + b && (a + b)[0] == a[0];
      JobsAppend(a[1..], b, c);
    }
  }

  lemma QueuedCases(pending: seq<Case>, c: Option<Case>)
    ensures InJobs(Queued(pending), c) == InCases(pending, c) && Sentinels(Queued(pending)) == 0
  {
    if |pending| > 0 {
      QueuedCases(pending[1..], c);
      assert Queued(pending)[1..] == Queued(pending[1..]);
    }
  }

  lemma OnlySentinels(tail: seq<Option<Case>>, c: Option<Case>)
    requires forall i :: 0 <= i < |tail| ==> tail[i].None?
    ensures Sentinels(tail) == |tail| && InJobs(tail, c) == 0
  {}

  lemma AllReady(threads: seq<Thread>, c: Option<Case>)
    requires forall i :: 0 <= i < |threads| ==> threads[i].Ready?
    ensures Held(threads, c) == 0 && Released(threads) == 0
  {}

  lemma InitialInv(pending: seq<Case>, prior: seq<Outcome>, gpus: nat)
    ensures Inv(pending, prior, Initial(pending, prior, gpus))
  {
    var s := Initial(pending, prior, gpus);
    var tail: seq<Option<Case>> := seq(gpus, _ => None);
    assert s.jobs == Queued(pending) + tail;
    forall c
      ensures Places(s, c) == InCases(pending, c) + InOutcomes(prior, c)
      ensures Sentinels(s.jobs) + Released(s.threads) == |s.threads|
    {
      JobsAppend(Queued(pending), tail, c);
      QueuedCases(pending, c);
      OnlySentinels(tail, c);
      AllReady(s.threads, c);
    }
    var any: Option<Case> := None;
    assert Places(s, any) == Places(s, any);
    JobsAppend(Queued(pending), tail, any);
    QueuedCases(pending, any);
    OnlySentinels(tail, any);
    AllReady(s.threads, any);
  }

  // ----- The steps -----

  lemma StepConserves(pending: seq<Case>, prior: seq<Outcome>, s: State, step: Step)
    requires Conserved(pending, prior, s) && Enabled(s, step)
    ensures Conserved(pending, prior, Next(s, step))
  {
    var s' := Next(s, step);
    forall c
      ensures Places(s', c) == InCases(pending, c) + InOutcomes(prior, c)
    {
      assert Places(s, c) == InCases(pending, c) + InOutcomes(prior, c);
      match step
      case TestStop(g) => HeldUpdate(s.threads, g, s'.threads[g], c);
      case Take(g) => HeldUpdate(s.threads, g, s'.threads[g], c);
      case PostStart(g) =>
        HeldUpdate(s.threads, g, s'.threads[g], c);
        EndedAppend(s.events, s'.events[|s.events|], c);
      case PostEnd(g, _) =>
        HeldUpdate(s.threads, g, s'.threads[g], c);
        EndedAppend(s.events, s'.events[|s.events|], c);
      case Record =>
        if s.events[0].End? {
          assert s'.finished[..|s'.finished| - 1] == s.finished;
        }
      case _ =>
    }
  }

  lemma StepKeepsSentinels(s: State, step: Step)
    requires SentinelInv(s) && Enabled(s, step)
    ensures SentinelInv(Next(s, step))
  {
    var s' := Next(s, step);
    if step.TestStop? || step.Take? || step.PostStart? || step.PostEnd? {
      ReleasedUpdate(s.threads, step.gpu, s'.threads[step.gpu]);
      if step.Take? {
        if s.jobs[0].None? {
          NoCaseLeft(s.jobs);
        }
      }
    } else if step.Record? {
      assert s'.threads == s.threads;
    }
  }

  lemma StepKeepsObserver(s: State, step: Step)
    requires ObserverInv(s) && Enabled(s, step)
    ensures ObserverInv(Next(s, step))
  {
    var s' := Next(s, step);
    forall h | 0 <= h < |s.threads|
      ensures Reads(s'.events, h, Current(s', h), Left(s'.threads[h]))
    {
      assert Reads(s.events, h, Current(s, h), Left(s.threads[h]));
      if step.PostStart? || step.PostEnd? {
        ReadsAppend(s.events, s'.events[|s.events|], h, Current(s, h), Left(s.threads[h]));
      }
    }
  }

  lemma StepKeepsInv(pending: seq<Case>, prior: seq<Outcome>, s: State, step: Step)
    requires Inv(pending, prior, s) && Enabled(s, step)
    ensures Inv(pending, prior, Next(s, step))
  {
    StepConserves(pending, prior, s, step);
    StepKeepsSentinels(s, step);
    StepKeepsObserver(s, step);
  }

  lemma {:induction false} RunKeepsInv(pending: seq<Case>, prior: seq<Outcome>, gpus: nat, steps: seq<Step>,
                                       states: seq<State>, k: nat)
    requires Run(pending, prior, gpus, steps, states) && k < |states|
    ensures Inv(pending, prior, states[k]) && |states[k].threads| == gpus
  {
    if k == 0 {
      InitialInv(pending, prior, gpus);
    } else {
      RunKeepsInv(pending, prior, gpus, steps, states, k - 1);
      StepKeepsInv(pending, prior, states[k - 1], steps[k - 1]);
    }
  }

  // ----- What holds in every interleaving -----

  ghost predicate Reachable(pending: seq<Case>, prior: seq<Outcome>, gpus: nat, s: State) {
    exists steps, states, k :: Run(pending, prior, gpus, steps, states) && 0 <= k < |states| && states[k] == s
  }

  lemma ReachableInv(pending: seq<Case>, prior: seq<Outcome>, gpus: nat, s: State)
    requires Reachable(pending, prior, gpus, s)
    ensures Inv(pending, prior, s) && |s.threads| == gpus
  {
    var steps, states, k :| Run(pending, prior, gpus, steps, states) && 0 <= k < |states| && states[k] == s;
    RunKeepsInv(pending, prior, gpus, steps, states, k);
  }

  lemma CountOfDistinct(cases: seq<Case>, c: Case)
    requires forall i, j :: 0 <= i < j < |cases| ==> cases[i] != cases[j]
    ensures InCases(cases, Some(c)) == if c in cases then 1 else 0
  {
    if |cases| > 0 {
      CountOfDistinct(cases[1..], c);
      assert c in cases <==> c == cases[0] || c in cases[1..];
      assert cases[0] !in cases[1..];
    }
  }

  lemma CountOfAbsent(finished: seq<Outcome>, c: Case)
    requires forall i :: 0 <= i < |finished| ==> finished[i].job != c
    ensures InOutcomes(finished, Some(c)) == 0
  {}

  // A pending case is in exactly one place: queued, on one GPU, in one unread
  // end event, or finished.
  lemma EachCaseInOnePlace(pending: seq<Case>, prior: seq<Outcome>, gpus: nat, s: State, c: Case)
    requires Reachable(pending, prior, gpus, s) && c in pending
    requires forall i, j :: 0 <= i < j < |pending| ==> pending[i] != pending[j]
    requires forall i :: 0 <= i < |prior| ==> prior[i].job != c
    ensures InJobs(s.jobs, Some(c)) + Held(s.threads, Some(c)) + Ended(s.events, Some(c))
            + InOutcomes(s.finished, Some(c)) == 1
  {
    ReachableInv(pending, prior, gpus, s);
    CountOfDistinct(pending, c);
    CountOfAbsent(prior, c);
    assert Places(s, Some(c)) == 1;
  }

  lemma ReleasedBound(threads: seq<Thread>, i: nat)
    requires i < |threads|
    ensures Released(threads) <= |threads|
    ensures threads[i] != Exited(true) ==> Released(threads) < |threads|
  {
    if i > 0 {
      ReleasedBound(threads[1..], i - 1);
    } else if |threads| > 1 {
      ReleasedBound(threads[1..], 0);
    }
  }

  // jobs.get() never blocks, and hands out a sentinel only once no case is queued.
  lemma TakingNeverBlocks(pending: seq<Case>, prior: seq<Outcome>, gpus: nat, s: State, g: nat)
    requires Reachable(pending, prior, gpus, s) && g < gpus
    ensures g < |s.threads| && (s.threads[g].Waiting? ==> Enabled(s, Take(g)))
    ensures |s.jobs| > 0 && s.jobs[0].None? ==> InJobs(s.jobs, None) == 0
  {
    ReachableInv(pending, prior, gpus, s);
    ReleasedBound(s.threads, g);
    if |s.jobs| > 0 && s.jobs[0].None? {
      NoCaseLeft(s.jobs);
    }
  }

  lemma CountIsLength(pending: seq<Case>, finished: seq<Outcome>)
    ensures InCases(pending, None) == |pending| && InOutcomes(finished, None) == |finished|
  {
    FinishedLength(finished);
    PendingLength(pending);
  }

  lemma FinishedLength(finished: seq<Outcome>)
    ensures InOutcomes(finished, None) == |finished|
  {}

  lemma PendingLength(pending: seq<Case>)
    ensures InCases(pending, None) == |pending|
  {}

  lemma NothingHeld(threads: seq<Thread>, g: nat)
    requires Held(threads, None) == 0 && g < |threads|
    ensures !threads[g].Holding? && !threads[g].Tracing?
  {
    if g > 0 {
      NothingHeld(threads[1..], g - 1);
    }
  }

  lemma NothingUnread(events: seq<Event>, g: nat, current: Option<Case>)
    requires Ended(events, None) == 0 && Reads(events, g, current, None)
    ensures current.None? && forall i :: 0 <= i < |events| ==> events[i].gpu != g
  {
    if |events| > 0 {
      NothingUnread(events[1..], g, if events[0].gpu == g && events[0].Start? then Some(events[0].job) else current);
    }
  }

  // Leaving the loop normally means one outcome per case, nothing queued, on a
  // GPU or unread, and an empty `active`.
  lemma NormalExit(pending: seq<Case>, prior: seq<Outcome>, gpus: nat, s: State)
    requires Reachable(pending, prior, gpus, s)
    requires s.recorder == Leaving(false) || s.recorder == Stopped(false)
    ensures forall c :: InOutcomes(s.finished, c) == InCases(pending, c) + InOutcomes(prior, c)
    ensures s.events == [] && s.active == map[]
    ensures InJobs(s.jobs, None) == 0 && Held(s.threads, None) == 0
  {
    ReachableInv(pending, prior, gpus, s);
    CountIsLength(pending, prior);
    CountIsLength(pending, s.finished);
    assert Places(s, None) == |pending| + |prior|;
    forall g | 0 <= g < |s.threads|
      ensures g !in s.active && forall i :: 0 <= i < |s.events| ==> s.events[i].gpu != g
    {
      NothingHeld(s.threads, g);
      NothingUnread(s.events, g, Current(s, g));
    }
    if |s.events| > 0 {
      var g := s.events[0].gpu;
      NothingHeld(s.threads, g);
      NothingUnread(s.events, g, Current(s, g));
    }
    forall c
      ensures InOutcomes(s.finished, c) == InCases(pending, c) + InOutcomes(prior, c)
    {
      assert Places(s, c) == InCases(pending, c) + InOutcomes(prior, c);
      NothingCounted(s, c);
    }
  }

  lemma NothingCounted(s: State, c: Option<Case>)
    requires InJobs(s.jobs, None) == 0 && Held(s.threads, None) == 0 && Ended(s.events, None) == 0
    ensures InJobs(s.jobs, c) == 0 && Held(s.threads, c) == 0 && Ended(s.events, c) == 0
  {
    JobsBelowAll(s.jobs, c);
    HeldBelowAll(s.threads, c);
    EndedBelowAll(s.events, c);
  }

  lemma JobsBelowAll(jobs: seq<Option<Case>>, c: Option<Case>)
    ensures InJobs(jobs, c) <= InJobs(jobs, None)
  {}

  lemma HeldBelowAll(threads: seq<Thread>, c: Option<Case>)
    ensures Held(threads, c) <= Held(threads, None)
  {}

  lemma EndedBelowAll(events: seq<Event>, c: Option<Case>)
    ensures Ended(events, c) <= Ended(events, None)
  {}

  lemma ExitedHoldNothing(threads: seq<Thread>)
    requires forall i :: 0 <= i < |threads| ==> threads[i].Exited?
    ensures Held(threads, None) == 0
  {}

  lemma AllGone(s: State)
    requires SentinelInv(s) && ControlInv(s) && !s.stopping && AllExited(s) && |s.threads| > 0
    ensures InJobs(s.jobs, None) == 0 && Held(s.threads, None) == 0
  {
    ExitedHoldNothing(s.threads);
    assert s.threads[0] == Exited(true);
  }

  // While outcomes are missing and nothing is unread, some thread can step:
  // the recorder never waits on a queue nobody will fill.
  lemma RecorderNeverStarves(pending: seq<Case>, prior: seq<Outcome>, gpus: nat, s: State)
    requires Reachable(pending, prior, gpus, s) && gpus > 0
    requires (s.recorder.Looping? && |s.finished| < s.total) || s.recorder.Checking?
    requires s.events == []
    ensures exists g :: 0 <= g < |s.threads| && !s.threads[g].Exited?
                        && (|| Enabled(s, TestStop(g)) || Enabled(s, Take(g))
                            || Enabled(s, PostStart(g)) || Enabled(s, PostEnd(g, "")))
  {
    ReachableInv(pending, prior, gpus, s);
    CountIsLength(pending, prior);
    CountIsLength(pending, s.finished);
    assert Places(s, None) == |pending| + |prior|;
    if AllExited(s) {
      AllGone(s);
      assert false;
    } else {
      var g :| 0 <= g < |s.threads| && !s.threads[g].Exited?;
      TakingNeverBlocks(pending, prior, gpus, s, g);
    }
  }

  // The recorder itself is never stuck: it reads, times out, leaves its loop or
  // goes on to stop, and it leaves exactly when every outcome is recorded.
  lemma RecorderCanStep(pending: seq<Case>, prior: seq<Outcome>, gpus: nat, s: State)
    requires Reachable(pending, prior, gpus, s) && !s.recorder.Stopped?
    ensures || Enabled(s, Record) || Enabled(s, Timeout) || Enabled(s, TestAlive) || Enabled(s, LeaveLoop)
            || Enabled(s, SetStopping)
    ensures Enabled(s, LeaveLoop) <==> s.recorder.Looping? && |s.finished| == |pending| + |prior|
  {
    ReachableInv(pending, prior, gpus, s);
    CountIsLength(pending, prior);
    CountIsLength(pending, s.finished);
    assert Places(s, None) == |pending| + |prior|;
  }

  // "workers exited before every assignment reported" is raised only when every
  // outcome was posted and some are merely unread: at the liveness test with
  // every thread gone, each missing outcome is an unread end event, posted
  // between the timeout and the test, and no case is queued or on a GPU.
  lemma RaiseOnlyInRace(pending: seq<Case>, prior: seq<Outcome>, gpus: nat, s: State)
    requires Reachable(pending, prior, gpus, s) && gpus > 0
    requires s.recorder.Checking? && AllExited(s)
    ensures Ended(s.events, None) > 0 && |s.finished| + Ended(s.events, None) == s.total
    ensures InJobs(s.jobs, None) == 0 && Held(s.threads, None) == 0
    ensures forall c :: Ended(s.events, c) + InOutcomes(s.finished, c) == InCases(pending, c) + InOutcomes(prior, c)
  {
    ReachableInv(pending, prior, gpus, s);
    AllGone(s);
    CountIsLength(pending, prior);
    CountIsLength(pending, s.finished);
    assert Places(s, None) == |pending| + |prior|;
    forall c
      ensures Ended(s.events, c) + InOutcomes(s.finished, c) == InCases(pending, c) + InOutcomes(prior, c)
    {
      assert Places(s, c) == InCases(pending, c) + InOutcomes(prior, c);
      JobsBelowAll(s.jobs, c);
      HeldBelowAll(s.threads, c);
    }
  }

  // A recorder that raised by itself: every thread had gone, nothing was queued
  // or on a GPU, and every outcome was recorded or posted and still unread.
  ghost predicate RaiseInv(s: State) {
    s.recorder == Leaving(true) || s.recorder == Stopped(true) ==>
      && (forall g :: 0 <= g < |s.threads| ==> s.threads[g].Exited?)
      && InJobs(s.jobs, None) == 0 && Held(s.threads, None) == 0
      && Ended(s.events, None) > 0 && |s.finished| + Ended(s.events, None) == s.total
  }

  lemma StepKeepsRaise(pending: seq<Case>, prior: seq<Outcome>, gpus: nat, s: State, step: Step)
    requires Reachable(pending, prior, gpus, s) && gpus > 0 && RaiseInv(s)
    requires Enabled(s, step) && !step.Interrupt?
    ensures RaiseInv(Next(s, step))
  {
    ReachableInv(pending, prior, gpus, s);
    if step.TestAlive? && AllExited(s) {
      RaiseOnlyInRace(pending, prior, gpus, s);
    }
  }

  // In every run that is not interrupted: the recorder raises only after every
  // thread has gone and every outcome has been posted.
  lemma {:induction false} NeverRaisesEarly(pending: seq<Case>, prior: seq<Outcome>, gpus: nat, steps: seq<Step>,
                                            states: seq<State>, k: nat)
    requires Run(pending, prior, gpus, steps, states) && k < |states| && gpus > 0
    requires forall i :: 0 <= i < k ==> !steps[i].Interrupt?
    ensures RaiseInv(states[k])
  {
    if k > 0 {
      NeverRaisesEarly(pending, prior, gpus, steps, states, k - 1);
      assert Reachable(pending, prior, gpus, states[k - 1]);
      StepKeepsRaise(pending, prior, gpus, states[k - 1], steps[k - 1]);
    }
  }

  lemma ReachableStep(pending: seq<Case>, prior: seq<Outcome>, gpus: nat, s: State, step: Step)
    requires Reachable(pending, prior, gpus, s) && Enabled(s, step)
    ensures Reachable(pending, prior, gpus, Next(s, step))
  {
    var steps, states, k :| Run(pending, prior, gpus, steps, states) && 0 <= k < |states| && states[k] == s;
    var steps', states' := steps[..k] + [step], states[..k + 1] + [Next(s, step)];
    assert Run(pending, prior, gpus, steps', states') && states'[k + 1] == Next(s, step);
  }

  lemma ReachableStart(pending: seq<Case>, prior: seq<Outcome>, gpus: nat)
    ensures Reachable(pending, prior, gpus, Initial(pending, prior, gpus))
  {
    var states := [Initial(pending, prior, gpus)];
    assert Run(pending, prior, gpus, [], states) && states[0] == Initial(pending, prior, gpus);
  }

  // The race: one GPU, one case, an outcome posted just after the timeout.
  lemma RaiseCanLoseAnOutcome() returns (s: State)
    ensures Reachable([0], [], 1, s)
    ensures s.recorder == Leaving(true) && s.finished == []
    ensures |s.events| == 1 && s.events[0] == End(0, Outcome(0, "completed"))
  {
    s := RaceBegins();
    s := Then(s, PostEnd(0, "completed"));
    s := Then(s, TestStop(0));
    s := Then(s, Take(0));
    s := Then(s, TestAlive);
  }

  lemma RaceBegins() returns (s: State)
    ensures Reachable([0], [], 1, s)
    ensures s == State([None], [], [Tracing(0)], map[0 := 0], [], false, Checking, 1)
  {
    ReachableStart([0], [], 1);
    s := Initial([0], [], 1);
    assert s == State([Some(0), None], [], [Ready], map[], [], false, Looping, 1);
    s := Then(s, TestStop(0));
    s := Then(s, Take(0));
    assert s.jobs == [None] && s.threads == [Holding(0)];
    s := Then(s, PostStart(0));
    s := Then(s, Record);
    assert s.events == [] && s.threads == [Tracing(0)];
    s := Then(s, Timeout);
  }

  lemma Then(s: State, step: Step) returns (s': State)
    requires Reachable([0], [], 1, s) && Enabled(s, step)
    ensures Reachable([0], [], 1, s') && s' == Next(s, step)
  {
    ReachableStep([0], [], 1, s, step);
    s' := Next(s, step);
  }
}
