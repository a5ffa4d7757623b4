/**
 * The pid allocator of get_pid. Pids are handed out in the cycle
 * 1, 2, ..., MAX_PID - 1, 1, ... (0 belongs to idle). The allocator keeps a
 * window (last_pid, next_safe) of pids known to be free and only rescans
 * the process list when the next candidate leaves the window. Here the
 * process list is given by the sequence of its pids, in list order.
 */
module PidAlloc {
  import opened Common

  /** The candidate after x: x + 1, wrapping from MAX_PID back to 1. */
  function Next(x: int, maxPid: int): int
  {
    if x + 1 >= maxPid then 1 else x + 1
  }

  /** The i-th candidate of a scan that starts at s. */
  function Cand(s: int, i: nat, maxPid: int): int
  {
    if i == 0 then s else Next(Cand(s, i - 1, maxPid), maxPid)
  }

  /** The first candidate after last_pid, as get_pid's increment-and-wrap computes it. */
  function CycleStart(lastPid: int, maxPid: int): (r: int)
    requires 0 <= lastPid && 1 < maxPid
    ensures 1 <= r < maxPid
  {
    if lastPid + 1 >= maxPid then 1 else lastPid + 1
  }

  /** Within one turn of the cycle the candidates are s, s + 1, ... up to MAX_PID - 1 and then 1, 2, .... */
  lemma {:induction false} CandClosedForm(s: int, i: nat, maxPid: int)
    requires 1 <= s < maxPid && i < maxPid - 1
    ensures Cand(s, i, maxPid) == if s + i < maxPid then s + i else s + i - (maxPid - 1)
  {
    if i > 0 {
      CandClosedForm(s, i - 1, maxPid);
    }
  }

  /** No candidate comes up twice within one turn of the cycle. */
  lemma CandDistinct(s: int, i: nat, j: nat, maxPid: int)
    requires 1 <= s < maxPid && i < j < maxPid - 1
    ensures Cand(s, i, maxPid) != Cand(s, j, maxPid)
    ensures 1 <= Cand(s, j, maxPid) < maxPid
  {
    CandClosedForm(s, i, maxPid);
    CandClosedForm(s, j, maxPid);
  }

  /**
   * The first n candidates from s are all in use: then there are no more of
   * them than pids in use, as long as n stays within one turn of the cycle.
   */
  lemma Pigeonhole(pids: seq<int>, s: int, n: nat, maxPid: int)
    requires 1 <= s < maxPid && n <= maxPid - 1
    requires forall i :: 0 <= i < n ==> Cand(s, i, maxPid) in pids
    ensures n <= |pids|
  {
    var a := seq(n, (i: int) requires 0 <= i => Cand(s, i, maxPid));
    forall i, j | 0 <= i < j < |a|
      ensures a[i] != a[j]
    {
      CandDistinct(s, i, j, maxPid);
    }
    DistinctWithin(a, pids);
  }

  /**
   * pid is the first candidate from s that no process holds: every
   * candidate before it is in use.
   */
  ghost predicate FirstFree(pids: seq<int>, s: int, maxPid: int, pid: int)
  {
    exists n: nat :: n < maxPid - 1 && pid == Cand(s, n, maxPid) && pid !in pids
      && forall i :: 0 <= i < n ==> Cand(s, i, maxPid) in pids
  }

  /** FirstFree names at most one pid. */
  lemma FirstFreeUnique(pids: seq<int>, s: int, maxPid: int, p: int, q: int)
    requires FirstFree(pids, s, maxPid, p) && FirstFree(pids, s, maxPid, q)
    ensures p == q
  {
    var n: nat :| n < maxPid - 1 && p == Cand(s, n, maxPid) && p !in pids
      && forall i :: 0 <= i < n ==> Cand(s, i, maxPid) in pids;
    var m: nat :| m < maxPid - 1 && q == Cand(s, m, maxPid) && q !in pids
      && forall i :: 0 <= i < m ==> Cand(s, i, maxPid) in pids;
    assert n < m ==> Cand(s, n, maxPid) in pids;
    assert m < n ==> Cand(s, m, maxPid) in pids;
  }

  /** No pid in use lies strictly between last_pid and next_safe. */
  ghost predicate WindowFree(pids: seq<int>, lastPid: int, nextSafe: int)
  {
    forall j :: 0 <= j < |pids| ==> !(lastPid < pids[j] < nextSafe)
  }

  /**
   * The rescan of get_pid, from `inside:` on: next_safe restarts at MAX_PID
   * and the list is walked from its head; a candidate found in use is
   * replaced by the next one (wrapping to 1 at MAX_PID), and when it reaches
   * next_safe the walk starts over (`goto repeat`); a pid above the
   * candidate lowers next_safe. It finds the first free candidate and a
   * window above it that is free as well.
   */
  method Rescan(pids: seq<int>, maxPid: int, s: int) returns (lastPid: int, nextSafe: int)
    requires 1 <= s < maxPid && |pids| < maxPid - 1
    ensures 1 <= lastPid < nextSafe <= maxPid
    ensures FirstFree(pids, s, maxPid, lastPid)
    ensures WindowFree(pids, lastPid, nextSafe)
  {
    lastPid, nextSafe := s, maxPid;
    ghost var n: nat := 0;
    var k := 0;
    while k < |pids|
      invariant 0 <= k <= |pids| && n <= |pids|
      invariant 1 <= lastPid < nextSafe <= maxPid
      invariant lastPid == Cand(s, n, maxPid)
      invariant forall i :: 0 <= i < n ==> Cand(s, i, maxPid) in pids
      invariant forall j :: 0 <= j < k ==> pids[j] < lastPid || pids[j] >= nextSafe
      decreases |pids| - n, |pids| - k
    {
      if pids[k] == lastPid {
        lastPid := lastPid + 1;
        n := n + 1;
        Pigeonhole(pids, s, n, maxPid);
        if lastPid >= nextSafe {
          if lastPid >= maxPid {
            lastPid := 1;
          }
          nextSafe := maxPid;
          k := 0;
          continue;
        }
      } else if pids[k] > lastPid && nextSafe > pids[k] {
        nextSafe := pids[k];
      }
      k := k + 1;
    }
    assert lastPid !in pids;
  }
}
