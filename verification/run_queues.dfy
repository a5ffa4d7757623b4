/**
 * The run queue both scheduling policies share, and the scheduling fields of
 * a process record (time slice, resched flag, run link, stride, priority).
 * The run list is a circular doubly linked list in the kernel; here it is the
 * sequence of processes from the first to the last link after the head.
 */
module RunQueues {
  import opened Common

  /** The scheduling part of a process record. */
  class Proc {
    var timeSlice: int
    var needResched: bool
    /** The queue the process was last enqueued on (never cleared on dequeue). */
    var rq: RunQueue?
    /** Whether the process's run link is inside a list (`!list_empty(&proc->run_link)`). */
    var linked: bool
    var stride: u32
    var priority: u32

    constructor(timeSlice: int, stride: u32, priority: u32)
      ensures this.timeSlice == timeSlice && this.stride == stride && this.priority == priority
      ensures !needResched && rq == null && !linked
    {
      this.timeSlice := timeSlice;
      this.stride := stride;
      this.priority := priority;
      needResched := false;
      rq := null;
      linked := false;
    }
  }

  class RunQueue {
    var runList: seq<Proc>
    var procNum: int
    const maxTimeSlice: int

    /**
     * The queue is consistent: proc_num counts the list, no process is
     * listed twice, and every listed process has its link in use and its rq
     * pointing here.
     */
    ghost predicate Valid()
      reads this, runList
    {
      && procNum == |runList|
      && Distinct(runList)
      && (forall p :: p in runList ==> p.linked && p.rq == this)
    }

    constructor(maxTimeSlice: int)
      ensures Valid() && runList == [] && this.maxTimeSlice == maxTimeSlice
    {
      runList := [];
      procNum := 0;
      this.maxTimeSlice := maxTimeSlice;
    }
  }

  /** The time slice an enqueued process gets: a fresh maximum when it was used up (0) or out of range. */
  ghost predicate Refilled(before: int, after: int, max: int)
  {
    after == if before == 0 || before > max then max else before
  }

  /** With a positive maximum, an enqueued process holds a usable slice in (0, max]. */
  lemma RefilledInRange(before: int, after: int, max: int)
    requires Refilled(before, after, max)
    requires 0 <= before && 0 < max
    ensures 0 < after <= max
    ensures after == max <==> before == 0 || before >= max
  {
  }

  /** The time slice after one clock tick: it counts down and stops at 0. */
  ghost predicate Ticked(before: int, after: int)
  {
    after == if before > 0 then before - 1 else before
  }

  /** The slice left after k ticks. */
  function SliceAfter(slice: int, k: nat): (r: int)
    ensures slice >= 0 ==> 0 <= r <= slice
  {
    if k == 0 then slice else if slice > 0 then SliceAfter(slice - 1, k - 1) else SliceAfter(slice, k - 1)
  }

  /** A slice s >= 0 stays positive for its first s - 1 ticks and is exhausted from tick s on. */
  lemma {:induction false} SliceRunsOut(slice: nat, k: nat)
    ensures SliceAfter(slice, k) == 0 <==> k >= slice
    ensures SliceAfter(slice, k) == if k >= slice then 0 else slice - k
  {
    if k > 0 {
      if slice > 0 {
        SliceRunsOut(slice - 1, k - 1);
      } else {
        SliceRunsOut(slice, k - 1);
      }
    }
  }
}
