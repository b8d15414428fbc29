/**
 * Services/EmailWorker.cs: the background worker that runs the queued mail
 * jobs. One step takes the head job, runs it once, and on failure puts the
 * same job back at the tail; there is no retry limit. Whether a run
 * succeeds is a parameter of the step.
 */
module EmailWorkers {
  import opened Wrappers
  import opened EmailQueues

  class EmailWorker<T> {
    const queue: EmailQueue<T>

    constructor (queue: EmailQueue<T>)
      ensures this.queue == queue
    {
      this.queue := queue;
    }

    /** One iteration of the worker loop: returns the job that was run, or
        None when the wait was cancelled. */
    method Step(cancelled: bool, succeeded: bool) returns (ran: Option<T>)
      requires queue.Valid()
      requires cancelled || queue.signal > 0
      modifies queue
      ensures queue.Valid()
      ensures cancelled ==> ran.None? && queue.workItems == old(queue.workItems)
      ensures !cancelled ==>
        ran == Some(old(queue.workItems)[0]) &&
        queue.workItems == Requeue(old(queue.workItems), succeeded)
    {
      ran := queue.Dequeue(cancelled);
      if ran.Some? && !succeeded {
        queue.QueueEmail(ran.value);
      }
    }

    /** The worker loop, one step per outcome while jobs are waiting: it
        runs the jobs `Schedule` says, in that order. */
    method RunSteps(outcomes: seq<bool>) returns (attempts: seq<T>, delivered: seq<T>)
      requires queue.Valid()
      modifies queue
      ensures queue.Valid()
      ensures Schedule(old(queue.workItems), outcomes) == Run(attempts, delivered, queue.workItems)
    {
      ghost var start := queue.workItems;
      attempts, delivered := [], [];
      var i := 0;
      while i < |outcomes| && queue.signal > 0
        invariant 0 <= i <= |outcomes|
        invariant queue.Valid()
        invariant Schedule(start, outcomes) == After(attempts, delivered, Schedule(queue.workItems, outcomes[i..]))
      {
        ghost var pending := queue.workItems;
        var ran := Step(false, outcomes[i]);
        var done := if outcomes[i] then [ran.value] else [];
        ScheduleStep(pending, outcomes[i..]);
        assert outcomes[i..][1..] == outcomes[i + 1..];
        AfterAfter(attempts, delivered, [ran.value], done, Schedule(queue.workItems, outcomes[i + 1..]));
        attempts := attempts + [ran.value];
        delivered := delivered + done;
        i := i + 1;
      }
      assert Schedule(queue.workItems, outcomes[i..]) == Run([], [], queue.workItems);
      assert attempts + [] == attempts && delivered + [] == delivered;
    }
  }

  /** What a run of the worker did: the jobs it ran in order, those of them
      that succeeded, and the jobs still queued. */
  datatype Run<T> = Run(attempts: seq<T>, delivered: seq<T>, remaining: seq<T>)

  /** `run` preceded by the given attempts and deliveries. */
  function After<T>(attempts: seq<T>, delivered: seq<T>, run: Run<T>): Run<T> {
    Run(attempts + run.attempts, delivered + run.delivered, run.remaining)
  }

  lemma AfterAfter<T>(attempts: seq<T>, delivered: seq<T>, attempts': seq<T>, delivered': seq<T>, run: Run<T>)
    ensures After(attempts, delivered, After(attempts', delivered', run)) == After(attempts + attempts', delivered + delivered', run)
  {
    assert attempts + (attempts' + run.attempts) == (attempts + attempts') + run.attempts;
    assert delivered + (delivered' + run.delivered) == (delivered + delivered') + run.delivered;
  }

  /** The queue after one attempt on its head job. */
  function Requeue<T>(pending: seq<T>, succeeded: bool): seq<T>
    requires |pending| > 0
  {
    pending[1..] + (if succeeded then [] else [pending[0]])
  }

  /** The worker as a function of the queue contents and the outcome of each
      successive attempt; it stops when the outcomes run out or the queue is empty. */
  function Schedule<T>(pending: seq<T>, outcomes: seq<bool>): Run<T>
    decreases |outcomes|
  {
    if |outcomes| == 0 || |pending| == 0 then Run([], [], pending)
    else
      After([pending[0]], if outcomes[0] then [pending[0]] else [],
        Schedule(Requeue(pending, outcomes[0]), outcomes[1..]))
  }

  lemma ScheduleStep<T>(pending: seq<T>, outcomes: seq<bool>)
    requires |pending| > 0 && |outcomes| > 0
    ensures Schedule(pending, outcomes) ==
      After([pending[0]], if outcomes[0] then [pending[0]] else [],
        Schedule(Requeue(pending, outcomes[0]), outcomes[1..]))
  {
  }

  /** Queues the jobs on a fresh queue and lets a worker step once per outcome
      while jobs are waiting; the worker does what `Schedule` says. */
  method RunWorker<T>(jobs: seq<T>, outcomes: seq<bool>) returns (run: Run<T>)
    ensures run == Schedule(jobs, outcomes)
  {
    var queue := new EmailQueue<T>();
    for i := 0 to |jobs|
      invariant queue.Valid()
      invariant queue.workItems == jobs[..i]
    {
      queue.QueueEmail(jobs[i]);
    }
    assert jobs[..|jobs|] == jobs;
    var worker := new EmailWorker(queue);
    var attempts, delivered := worker.RunSteps(outcomes);
    run := Run(attempts, delivered, queue.workItems);
  }

  /** No job is ever lost: every queued job has either been delivered or is
      still waiting. */
  lemma {:induction false} ScheduleConserves<T>(pending: seq<T>, outcomes: seq<bool>)
    ensures multiset(Schedule(pending, outcomes).delivered) + multiset(Schedule(pending, outcomes).remaining)
      == multiset(pending)
    decreases |outcomes|
  {
    if |outcomes| > 0 && |pending| > 0 {
      var next := Requeue(pending, outcomes[0]);
      ScheduleConserves(next, outcomes[1..]);
      RequeueConserves(pending, outcomes[0]);
    }
  }

  lemma RequeueConserves<T>(pending: seq<T>, succeeded: bool)
    requires |pending| > 0
    ensures multiset(Requeue(pending, succeeded)) + (if succeeded then multiset{pending[0]} else multiset{})
      == multiset(pending)
  {
    assert pending == [pending[0]] + pending[1..];
  }

  /** Each outcome is spent on exactly one attempt while jobs are waiting,
      and the run succeeds on exactly as many jobs as outcomes say. */
  lemma {:induction false} ScheduleAttempts<T>(pending: seq<T>, outcomes: seq<bool>)
    ensures var run := Schedule(pending, outcomes);
      |run.attempts| <= |outcomes| && |run.delivered| <= |run.attempts| &&
      (|run.attempts| < |outcomes| ==> run.remaining == [])
    decreases |outcomes|
  {
    if |outcomes| > 0 && |pending| > 0 {
      ScheduleAttempts(Requeue(pending, outcomes[0]), outcomes[1..]);
    }
  }

  /** Under any number of consecutive failures nothing is delivered and the
      queue keeps its length: the failing jobs rotate through it. */
  lemma {:induction false} FailuresKeepQueue<T>(pending: seq<T>, outcomes: seq<bool>)
    requires forall i :: 0 <= i < |outcomes| ==> !outcomes[i]
    ensures var run := Schedule(pending, outcomes);
      run.delivered == [] && |run.remaining| == |pending| &&
      multiset(run.remaining) == multiset(pending)
    decreases |outcomes|
  {
    if |outcomes| > 0 && |pending| > 0 {
      FailuresKeepQueue(Requeue(pending, false), outcomes[1..]);
      RequeueConserves(pending, false);
    }
  }
}
