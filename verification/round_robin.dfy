/**
 * The round-robin policy: a FIFO run queue. Enqueue appends at the tail and
 * refills a used-up time slice, pick_next looks at the head, dequeue unlinks
 * a given process, and each clock tick counts the running process's slice
 * down, asking for a reschedule once it reaches 0.
 */
module RoundRobin {
  import opened Common
  import opened RunQueues

  /** RR_init: an empty run list and proc_num 0. */
  method Init(rq: RunQueue)
    modifies rq
    ensures rq.Valid() && rq.runList == [] && rq.procNum == 0
  {
    rq.runList := [];
    rq.procNum := 0;
  }

  /** RR_enqueue: the process, whose run link must be unused, joins the tail. */
  method Enqueue(rq: RunQueue, proc: Proc)
    requires rq.Valid()
    requires !proc.linked
    modifies rq, proc
    ensures rq.Valid()
    ensures rq.runList == old(rq.runList) + [proc]
    ensures rq.procNum == old(rq.procNum) + 1
    ensures proc.linked && proc.rq == rq
    ensures Refilled(old(proc.timeSlice), proc.timeSlice, rq.maxTimeSlice)
    ensures proc.needResched == old(proc.needResched)
    ensures proc.stride == old(proc.stride) && proc.priority == old(proc.priority)
  {
    rq.runList := rq.runList + [proc];
    proc.linked := true;
    if proc.timeSlice == 0 || proc.timeSlice > rq.maxTimeSlice {
      proc.timeSlice := rq.maxTimeSlice;
    }
    proc.rq := rq;
    rq.procNum := rq.procNum + 1;
  }

  /** RR_dequeue: the process, which must be on this queue, is unlinked; the others keep their order. */
  method Dequeue(rq: RunQueue, proc: Proc)
    requires rq.Valid()
    requires proc in rq.runList
    modifies rq, proc
    ensures rq.Valid()
    ensures rq.runList == Remove(old(rq.runList), proc)
    ensures proc !in rq.runList && |rq.runList| == |old(rq.runList)| - 1
    ensures rq.procNum == old(rq.procNum) - 1
    ensures !proc.linked && proc.rq == old(proc.rq)
    ensures proc.timeSlice == old(proc.timeSlice) && proc.needResched == old(proc.needResched)
    ensures proc.stride == old(proc.stride) && proc.priority == old(proc.priority)
  {
    RemoveDistinct(rq.runList, proc);
    rq.runList := Remove(rq.runList, proc);
    proc.linked := false;
    rq.procNum := rq.procNum - 1;
  }

  /** RR_pick_next: the head of the queue, left in place, or null for an empty queue. */
  method PickNext(rq: RunQueue) returns (next: Proc?)
    ensures next == null <==> rq.runList == []
    ensures next != null ==> next == rq.runList[0]
  {
    if rq.runList != [] {
      next := rq.runList[0];
    } else {
      next := null;
    }
  }

  /** RR_proc_tick: count the slice down while positive; ask for a reschedule once it is 0. */
  method ProcTick(rq: RunQueue, proc: Proc)
    modifies proc
    ensures Ticked(old(proc.timeSlice), proc.timeSlice)
    ensures proc.needResched == (old(proc.needResched) || proc.timeSlice == 0)
    ensures proc.rq == old(proc.rq) && proc.linked == old(proc.linked)
    ensures proc.stride == old(proc.stride) && proc.priority == old(proc.priority)
  {
    if proc.timeSlice > 0 {
      proc.timeSlice := proc.timeSlice - 1;
    }
    if proc.timeSlice == 0 {
      proc.needResched := true;
    }
  }

  /**
   * One scheduling round as the dispatcher runs it: pick the head, dequeue it
   * and enqueue it again. The queue rotates by one place.
   */
  method Rotate(rq: RunQueue) returns (ran: Proc)
    requires rq.Valid() && rq.runList != []
    modifies rq, rq.runList[0]
    ensures rq.Valid()
    ensures ran == old(rq.runList[0])
    ensures rq.runList == Rotated(old(rq.runList)) && rq.procNum == old(rq.procNum)
    ensures ran.linked && ran.rq == rq
    ensures Refilled(old(ran.timeSlice), ran.timeSlice, rq.maxTimeSlice)
    ensures ran.needResched == old(ran.needResched)
    ensures ran.stride == old(ran.stride) && ran.priority == old(ran.priority)
  {
    ghost var s: seq<Proc> := rq.runList;
    var next := PickNext(rq);
    ran := next;
    RemoveAt(s, ran, 0);
    Dequeue(rq, ran);
    assert rq.runList == s[1..];
    Enqueue(rq, ran);
  }

  /** The queue after its head has been moved to the tail. */
  function Rotated<T>(s: seq<T>): (r: seq<T>)
    ensures |r| == |s|
    ensures multiset(r) == multiset(s)
  {
    if s == [] then [] else assert s == [s[0]] + s[1..]; s[1..] + [s[0]]
  }

  /** The queue after k rounds. */
  function RotatedTimes<T>(s: seq<T>, k: nat): (r: seq<T>)
    ensures |r| == |s|
  {
    if k == 0 then s else Rotated(RotatedTimes(s, k - 1))
  }

  /**
   * After k <= |s| rounds the queue starts at the element k places on and
   * wraps around: heads come out A, B, C, ... and after |s| rounds the queue
   * is back as it was.
   */
  lemma {:induction false} RoundsVisitInOrder<T>(s: seq<T>, k: nat)
    requires k <= |s|
    ensures RotatedTimes(s, k) == s[k..] + s[..k]
  {
    if k > 0 {
      RoundsVisitInOrder(s, k - 1);
      RotateStep(s, k);
    }
  }

  /** Rotating the queue that starts at place k - 1 gives the one that starts at place k. */
  lemma RotateStep<T>(s: seq<T>, k: nat)
    requires 0 < k <= |s|
    ensures Rotated(s[k - 1..] + s[..k - 1]) == s[k..] + s[..k]
  {
    var prev := s[k - 1..] + s[..k - 1];
    assert prev[0] == s[k - 1];
    assert prev[1..] == s[k..] + s[..k - 1];
    assert s[..k] == s[..k - 1] + [s[k - 1]];
  }

  /** |s| rounds bring the queue back to where it started. */
  lemma FullCycle<T>(s: seq<T>)
    ensures RotatedTimes(s, |s|) == s
  {
    RoundsVisitInOrder(s, |s|);
    assert s[|s|..] + s[..|s|] == s;
  }
}
