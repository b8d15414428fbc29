/**
 * Services/EmailQueue.cs: the queue of pending mail jobs. The jobs wait in a
 * first-in first-out queue beside a counting signal that is raised once per
 * job put in and lowered once per job taken out, so in a sequential run the
 * count equals the queue length.
 */
module EmailQueues {
  import opened Wrappers

  class EmailQueue<T> {
    var workItems: seq<T>
    var signal: nat

    /** The signal counts exactly the waiting jobs. */
    predicate Valid()
      reads this
    {
      signal == |workItems|
    }

    constructor ()
      ensures Valid()
      ensures workItems == [] && signal == 0
    {
      workItems := [];
      signal := 0;
    }

    /** Puts a job at the tail and raises the signal; it cannot fail. */
    method QueueEmail(workItem: T)
      modifies this
      ensures workItems == old(workItems) + [workItem]
      ensures signal == old(signal) + 1
      ensures old(Valid()) ==> Valid()
    {
      workItems := workItems + [workItem];
      signal := signal + 1;
    }

    /** Waits for the signal and takes the head job. A cancelled wait takes
        nothing (None) and leaves queue and count as they were. Blocking on an
        empty queue is not modelled: without cancellation the signal must be up. */
    method Dequeue(cancelled: bool) returns (workItem: Option<T>)
      requires Valid()
      requires cancelled || signal > 0
      modifies this
      ensures Valid()
      ensures cancelled ==> workItem.None? && workItems == old(workItems) && signal == old(signal)
      ensures !cancelled ==>
        workItem == Some(old(workItems)[0]) && workItems == old(workItems)[1..] &&
        signal == old(signal) - 1
    {
      if cancelled {
        return None;
      }
      signal := signal - 1;
      workItem := Some(workItems[0]);
      workItems := workItems[1..];
    }
  }

  /** Queues the jobs one by one on a fresh queue and takes them all out
      again: they come out in the order they went in. */
  method DrainInOrder<T>(jobs: seq<T>) returns (taken: seq<T>)
    ensures taken == jobs
  {
    var queue := new EmailQueue<T>();
    for i := 0 to |jobs|
      invariant queue.Valid()
      invariant queue.workItems == jobs[..i]
    {
      queue.QueueEmail(jobs[i]);
    }
    taken := [];
    while queue.signal > 0
      invariant queue.Valid()
      invariant taken + queue.workItems == jobs
      decreases queue.signal
    {
      var job := queue.Dequeue(false);
      taken := taken + [job.value];
    }
  }
}
