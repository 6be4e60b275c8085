// The mutable queues, dictionary and list of benchmarking/stage_traces/queue.py.
// Every method is one atomic step of the state machine in TraceQueue.
module TraceRunner {
  import opened Wrappers
  import opened TraceQueue

  // What select_attempts finds in a case's directory: how many attempts, and
  // the outcome of the last one when it wrote one.
  datatype Listed = Listed(attempts: nat, last: Option<string>)

  datatype Job = Job(position: nat, attempt: nat)

  predicate Settled(c: Listed, retryFailed: bool) {
    c.last.Some? && (c.last.value == "completed" || !retryFailed)
  }

  // Positions count from 1. Every case is either finished or pending, in
  // order; a pending case gets the attempt number after its last one.
  method SelectAttempts(cases: seq<Listed>, retryFailed: bool) returns (pending: seq<Job>, finished: seq<Outcome>)
    ensures |pending| + |finished| == |cases|
    ensures forall i, j :: 0 <= i < j < |pending| ==> pending[i].position < pending[j].position
    ensures forall i, j :: 0 <= i < j < |finished| ==> finished[i].job < finished[j].job
    ensures forall j :: 0 <= j < |pending| ==>
                          var p := pending[j].position;
                          && 1 <= p <= |cases| && pending[j].attempt == cases[p - 1].attempts + 1
                          && (cases[p - 1].last.None? || (cases[p - 1].last.value != "completed" && retryFailed))
    ensures forall j :: 0 <= j < |finished| ==>
                          var p := finished[j].job;
                          && 1 <= p <= |cases| && cases[p - 1].last == Some(finished[j].status)
                          && (finished[j].status == "completed" || !retryFailed)
  {
    pending, finished := [], [];
    for i := 0 to |cases|
      invariant |pending| + |finished| == i
      invariant forall a, b :: 0 <= a < b < |pending| ==> pending[a].position < pending[b].position
      invariant forall a, b :: 0 <= a < b < |finished| ==> finished[a].job < finished[b].job
      invariant forall j :: 0 <= j < |pending| ==>
                              var p := pending[j].position;
                              && 1 <= p <= i && !Settled(cases[p - 1], retryFailed)
                              && pending[j].attempt == cases[p - 1].attempts + 1
      invariant forall j :: 0 <= j < |finished| ==>
                              var p := finished[j].job;
                              && 1 <= p <= i && Settled(cases[p - 1], retryFailed)
                              && finished[j].status == cases[p - 1].last.value
    {
      var c := cases[i];
      if c.last.Some? && (c.last.value == "completed" || !retryFailed) {
        finished := finished + [Outcome(i + 1, c.last.value)];
      } else {
        pending := pending + [Job(i + 1, c.attempts + 1)];
      }
    }
  }

  class Queues {
    var jobs: seq<Option<Case>>
    var events: seq<Event>
    var threads: seq<Thread>
    var active: map<nat, Case>
    var finished: seq<Outcome>
    var stopping: bool
    var recorder: Recorder
    const total: nat

    function State(): State
      reads this
    {
      TraceQueue.State(jobs, events, threads, active, finished, stopping, recorder, total)
    }

    constructor (pending: seq<Case>, prior: seq<Outcome>, gpus: nat)
      ensures State() == Initial(pending, prior, gpus)
    {
      jobs := Queued(pending) + seq(gpus, _ => None);
      events, active, finished := [], map[], prior;
      threads := seq(gpus, _ => Ready);
      stopping, recorder := false, Looping;
      total := |pending| + |prior|;
    }

    method TestThenTake(g: nat, take: bool)
      requires if take then Enabled(State(), Take(g)) else Enabled(State(), TestStop(g))
      modifies this
      ensures State() == Next(old(State()), if take then Take(g) else TestStop(g))
    {
      if !take {
        threads := threads[g := if stopping then Exited(false) else Waiting];
      } else {
        var job := jobs[0];
        jobs := jobs[1..];
        threads := threads[g := if job.Some? then Holding(job.value) else Exited(true)];
      }
    }

    method Post(g: nat, status: Option<string>)
      requires if status.Some? then Enabled(State(), PostEnd(g, status.value)) else Enabled(State(), PostStart(g))
      modifies this
      ensures State() == Next(old(State()), if status.Some? then PostEnd(g, status.value) else PostStart(g))
    {
      var job := threads[g].job;
      if status.None? {
        events := events + [Start(g, job)];
        threads := threads[g := Tracing(job)];
      } else {
        events := events + [End(g, Outcome(job, status.value))];
        threads := threads[g := Ready];
      }
    }

    // record_event on the event the recorder just received.
    method RecordEvent()
      requires Enabled(State(), Record)
      modifies this
      ensures State() == Next(old(State()), Record)
    {
      var event := events[0];
      events := events[1..];
      match event
      case Start(g, job) => active := active[g := job];
      case End(g, outcome) =>
        active := active - {g};
        finished := finished + [outcome];
    }

    method Supervise(step: Step)
      requires Enabled(State(), step)
      requires step.Timeout? || step.TestAlive? || step.LeaveLoop? || step.Interrupt? || step.SetStopping?
      modifies this
      ensures State() == Next(old(State()), step)
    {
      match step
      case Timeout => recorder := Checking;
      case TestAlive =>
        var alive := false;
        for i := 0 to |threads|
          invariant alive <==> exists j :: 0 <= j < i && !threads[j].Exited?
          invariant unchanged(this)
        {
          alive := alive || !threads[i].Exited?;
        }
        recorder := if alive then Looping else Leaving(true);
      case LeaveLoop => recorder := Leaving(false);
      case Interrupt => recorder := Leaving(true);
      case SetStopping =>
        recorder := Stopped(recorder.raised);
        stopping := true;
    }

    method Perform(step: Step)
      requires Enabled(State(), step)
      modifies this
      ensures State() == Next(old(State()), step)
    {
      match step
      case TestStop(g) => TestThenTake(g, false);
      case Take(g) => TestThenTake(g, true);
      case PostStart(g) => Post(g, None);
      case PostEnd(g, status) => Post(g, Some(status));
      case Record => RecordEvent();
      case _ => Supervise(step);
    }
  }

  // run_queue under any schedule: steps that are not enabled are skipped.
  method RunQueue(pending: seq<Case>, prior: seq<Outcome>, gpus: nat, schedule: seq<Step>) returns (q: Queues)
    ensures fresh(q) && Reachable(pending, prior, gpus, q.State())
    ensures q.recorder == Stopped(false) ==>
              && (forall c :: InOutcomes(q.finished, c) == InCases(pending, c) + InOutcomes(prior, c))
              && q.events == [] && q.active == map[]
    ensures gpus > 0 && (forall i :: 0 <= i < |schedule| ==> !schedule[i].Interrupt?) ==> RaiseInv(q.State())
  {
    q := new Queues(pending, prior, gpus);
    ReachableStart(pending, prior, gpus);
    for i := 0 to |schedule|
      invariant fresh(q) && Reachable(pending, prior, gpus, q.State())
      invariant gpus > 0 && (forall j :: 0 <= j < i ==> !schedule[j].Interrupt?) ==> RaiseInv(q.State())
    {
      if Enabled(q.State(), schedule[i]) {
        if gpus > 0 && RaiseInv(q.State()) && !schedule[i].Interrupt? {
          StepKeepsRaise(pending, prior, gpus, q.State(), schedule[i]);
        }
        ReachableStep(pending, prior, gpus, q.State(), schedule[i]);
        q.Perform(schedule[i]);
      }
    }
    if q.recorder == Stopped(false) {
      NormalExit(pending, prior, gpus, q.State());
    }
  }
}
