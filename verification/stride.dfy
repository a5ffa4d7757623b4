/**
 * The stride policy. Every process carries a 32-bit stride; pick_next runs
 * the process with the least stride and advances that stride by its pass,
 * BIG_STRIDE / priority (BIG_STRIDE for priority 0). Strides wrap around, so
 * they are compared through the signed reading of their 32-bit difference.
 * The pool is the run list scanned front to back (the list variant of
 * pick_next); enqueue, dequeue and tick keep the time-slice bookkeeping of the
 * round-robin policy.
 */
module Stride {
  import opened Common
  import opened RunQueues

  /** The largest value of int32_t: no pass exceeds it. */
  const BIG_STRIDE: u32 := 0x7FFF_FFFF

  // ---------------------------------------------------------------------------
  // 32-bit stride arithmetic
  // ---------------------------------------------------------------------------

  /** `a - b` computed in uint32_t. */
  function Sub(a: u32, b: u32): (r: u32)
    ensures (a as int - b as int - r as int) % TWO_32 == 0
    ensures a as int >= b as int ==> r as int == a as int - b as int
  {
    ((a as int - b as int) % TWO_32) as u32
  }

  /** The int32_t reading of a 32-bit word (two's complement). */
  function ToSigned(x: u32): (r: int)
    ensures -0x8000_0000 <= r < 0x8000_0000
    ensures (r - x as int) % TWO_32 == 0
  {
    if x < 0x8000_0000 then x as int else x as int - TWO_32
  }

  /** `(int32_t)(a - b) < 0`: stride a comes before stride b. */
  predicate Less(a: u32, b: u32)
  {
    ToSigned(Sub(a, b)) < 0
  }

  /** proc_stride_comp_f: the sign of the signed 32-bit difference of two strides. */
  function Compare(a: u32, b: u32): (c: int)
    ensures c == -1 || c == 0 || c == 1
    ensures c == 0 <==> a == b
    ensures c == -1 <==> Less(a, b)
  {
    var d := ToSigned(Sub(a, b));
    if d > 0 then 1 else if d == 0 then 0 else -1
  }

  /** The distance from `base` forward to `x`, counting around the 32-bit circle. */
  function Offset(x: u32, base: u32): (r: int)
    ensures 0 <= r < TWO_32
    ensures (x as int - base as int - r) % TWO_32 == 0
  {
    Sub(x, base) as int
  }

  /**
   * Wrap-around is harmless inside a window of BIG_STRIDE: when a and b both
   * lie at most BIG_STRIDE past some base, the comparator orders them by
   * their true distance from that base, whether or not either has wrapped.
   */
  lemma CompareAcrossWrap(a: u32, b: u32, base: u32)
    requires Offset(a, base) <= BIG_STRIDE as int && Offset(b, base) <= BIG_STRIDE as int
    ensures Less(a, b) <==> Offset(a, base) < Offset(b, base)
    ensures Compare(a, b) == if Offset(a, base) < Offset(b, base) then -1 else if a == b then 0 else 1
    ensures Offset(b, base) <= Offset(a, base) ==> Offset(a, b) == Offset(a, base) - Offset(b, base)
  {
    var d := Offset(a, base) - Offset(b, base);
    ModUnique(a as int - b as int, Sub(a, b) as int, if d >= 0 then d else d + TWO_32);
  }

  /** Two representatives in [0, 2^32) of the same residue are equal. */
  lemma ModUnique(x: int, r1: int, r2: int)
    requires 0 <= r1 < TWO_32 && 0 <= r2 < TWO_32
    requires (x - r1) % TWO_32 == 0 && (x - r2) % TWO_32 == 0
    ensures r1 == r2
  {
    var q1, q2 := (x - r1) / TWO_32, (x - r2) / TWO_32;
    assert x - r1 == q1 * TWO_32;
    assert x - r2 == q2 * TWO_32;
    assert (q2 - q1) * TWO_32 == r1 - r2;
  }

  /** At distance exactly 2^31 the comparator puts each stride before the other. */
  lemma CompareAtHalfCircle()
    ensures Less(0, 0x8000_0000) && Less(0x8000_0000, 0)
  {
  }

  /** A stride that has wrapped past 2^32 - 1 still comes after one just below the wrap point. */
  lemma WrapExample()
    ensures Less(0xFFFF_FFF0, 0x10) && !Less(0x10, 0xFFFF_FFF0)
    ensures Compare(0x10, 0xFFFF_FFF0) == 1
  {
  }

  // ---------------------------------------------------------------------------
  // Pass and the stride window
  // ---------------------------------------------------------------------------

  /** The pass of a process: BIG_STRIDE / priority, with priority 0 treated as the lowest priority. */
  function Pass(priority: u32): (r: u32)
    ensures r <= BIG_STRIDE
    ensures priority <= 1 ==> r == BIG_STRIDE
    ensures priority > 1 ==> r as int * priority as int <= BIG_STRIDE as int < (r as int + 1) * priority as int
  {
    if priority == 0 then BIG_STRIDE else BIG_STRIDE / priority
  }

  /** A higher priority never gets a longer pass. */
  lemma PassDecreasing(p: u32, q: u32)
    requires 1 <= p <= q
    ensures Pass(q) <= Pass(p)
  {
    var x, y := Pass(q) as int, Pass(p) as int;
    if p > 1 {
      // x * p <= x * q <= BIG_STRIDE < (y + 1) * p, so x < y + 1
      MulMonotone(p as int, q as int, x);
      MulMonotone(y + 1, x, p as int);
    }
  }

  lemma {:induction false} MulMonotone(a: int, b: int, c: nat)
    ensures a <= b ==> a * c <= b * c
  {
    if c > 0 && a <= b {
      MulMonotone(a, b, c - 1);
      assert a * c == a * (c - 1) + a;
      assert b * c == b * (c - 1) + b;
    }
  }

  /** `stride += pass` in uint32_t. */
  function Advance(stride: u32, priority: u32): (r: u32)
    ensures Offset(r, stride) == Pass(priority) as int
  {
    var r := ((stride as int + Pass(priority) as int) % TWO_32) as u32;
    ModUnique(r as int - stride as int, Sub(r, stride) as int, Pass(priority) as int);
    r
  }

  /** Every stride lies at most BIG_STRIDE past `base`. */
  ghost predicate InWindow(s: seq<u32>, base: u32)
  {
    forall i :: 0 <= i < |s| ==> Offset(s[i], base) <= BIG_STRIDE as int
  }

  // ---------------------------------------------------------------------------
  // The scan of pick_next
  // ---------------------------------------------------------------------------

  /**
   * The position pick_next holds after scanning the first k strides: it
   * starts at the first and moves to a later one only when that one is Less.
   * No later position it has passed is Less than the one it holds.
   */
  function PickUpTo(s: seq<u32>, k: nat): (r: nat)
    requires 1 <= k <= |s|
    ensures r < k
    ensures forall j {:trigger Less(s[j], s[r])} :: r < j < k ==> !Less(s[j], s[r])
  {
    if k == 1 then 0
    else
      var p := PickUpTo(s, k - 1);
      if Less(s[k - 1], s[p]) then k - 1 else p
  }

  /** The position pick_next chooses in a non-empty pool. */
  function PickIndex(s: seq<u32>): (r: nat)
    requires s != []
    ensures r < |s|
  {
    PickUpTo(s, |s|)
  }

  /**
   * Inside a window the scan finds a least stride, and the first of several
   * equal least strides.
   */
  lemma {:induction false} PickUpToFirstMinimum(s: seq<u32>, base: u32, k: nat)
    requires 1 <= k <= |s| && InWindow(s, base)
    ensures forall j :: 0 <= j < k ==> Offset(s[PickUpTo(s, k)], base) <= Offset(s[j], base)
    ensures forall j :: 0 <= j < PickUpTo(s, k) ==> Offset(s[PickUpTo(s, k)], base) < Offset(s[j], base)
  {
    if k > 1 {
      PickUpToFirstMinimum(s, base, k - 1);
      var p := PickUpTo(s, k - 1);
      CompareAcrossWrap(s[k - 1], s[p], base);
    }
  }

  lemma PickFirstMinimum(s: seq<u32>, base: u32)
    requires s != [] && InWindow(s, base)
    ensures forall j :: 0 <= j < |s| ==> Offset(s[PickIndex(s)], base) <= Offset(s[j], base)
    ensures forall j :: 0 <= j < PickIndex(s) ==> Offset(s[PickIndex(s)], base) < Offset(s[j], base)
  {
    PickUpToFirstMinimum(s, base, |s|);
  }

  /**
   * The stride invariant: if every stride lies within BIG_STRIDE of some base,
   * then after pick_next advances the chosen stride, every stride lies within
   * BIG_STRIDE of the chosen stride's old value. So the window, and with it
   * the comparator's correctness, survives any number of picks.
   */
  lemma PickKeepsWindow(s: seq<u32>, base: u32, priority: u32)
    requires s != [] && InWindow(s, base)
    ensures var i := PickIndex(s);
      InWindow(s[i := Advance(s[i], priority)], s[i])
  {
    var i := PickIndex(s);
    PickFirstMinimum(s, base);
    var s' := s[i := Advance(s[i], priority)];
    forall j | 0 <= j < |s'|
      ensures Offset(s'[j], s[i]) <= BIG_STRIDE as int
    {
      if j != i {
        CompareAcrossWrap(s[j], s[i], base);
      }
    }
  }

  // ---------------------------------------------------------------------------
  // The policy
  // ---------------------------------------------------------------------------

  /** The strides of a list of processes, in list order. */
  ghost function Strides(ps: seq<Proc>): (r: seq<u32>)
    reads set p | p in ps
    ensures |r| == |ps|
    ensures forall i :: 0 <= i < |ps| ==> r[i] == ps[i].stride
  {
    if ps == [] then [] else [ps[0].stride] + Strides(ps[1..])
  }

  /** stride_init: an empty pool and proc_num 0. */
  method Init(rq: RunQueue)
    modifies rq
    ensures rq.Valid() && rq.runList == [] && rq.procNum == 0
  {
    rq.runList := [];
    rq.procNum := 0;
  }

  /** stride_enqueue: the process joins the pool with a refilled time slice. */
  method Enqueue(rq: RunQueue, proc: Proc)
    requires rq.Valid()
    requires !proc.linked
    modifies rq, proc
    ensures rq.Valid()
    ensures rq.runList == old(rq.runList) + [proc]
    ensures rq.procNum == old(rq.procNum) + 1
    ensures proc.linked && proc.rq == rq
    ensures Refilled(old(proc.timeSlice), proc.timeSlice, rq.maxTimeSlice)
    ensures proc.needResched == old(proc.needResched)
    ensures proc.stride == old(proc.stride) && proc.priority == old(proc.priority)
  {
    rq.runList := rq.runList + [proc];
    proc.linked := true;
    if proc.timeSlice == 0 || proc.timeSlice > rq.maxTimeSlice {
      proc.timeSlice := rq.maxTimeSlice;
    }
    proc.rq := rq;
    rq.procNum := rq.procNum + 1;
  }

  /** stride_dequeue: exactly that process leaves the pool. */
  method Dequeue(rq: RunQueue, proc: Proc)
    requires rq.Valid()
    requires proc in rq.runList
    modifies rq, proc
    ensures rq.Valid()
    ensures rq.runList == Remove(old(rq.runList), proc)
    ensures proc !in rq.runList && |rq.runList| == |old(rq.runList)| - 1
    ensures rq.procNum == old(rq.procNum) - 1
    ensures !proc.linked && proc.rq == old(proc.rq)
    ensures proc.timeSlice == old(proc.timeSlice) && proc.needResched == old(proc.needResched)
    ensures proc.stride == old(proc.stride) && proc.priority == old(proc.priority)
  {
    RemoveDistinct(rq.runList, proc);
    rq.runList := Remove(rq.runList, proc);
    proc.linked := false;
    rq.procNum := rq.procNum - 1;
  }

  /** The scanning loop of stride_pick_next over a non-empty pool: it changes nothing. */
  method Scan(s: seq<Proc>) returns (best: nat)
    requires s != []
    ensures best == PickIndex(Strides(s))
  {
    ghost var strides := Strides(s);
    best := 0;
    var i := 1;
    while i < |s|
      invariant 1 <= i <= |s|
      invariant best == PickUpTo(strides, i)
    {
      assert strides[i] == s[i].stride && strides[best] == s[best].stride;
      if Less(s[i].stride, s[best].stride) {
        best := i;
      }
      i := i + 1;
    }
  }

  /**
   * stride_pick_next: null for an empty pool; otherwise the process the scan
   * chooses, which stays in the pool with its stride advanced by its pass.
   * No other stride changes.
   */
  method PickNext(rq: RunQueue) returns (next: Proc?)
    requires rq.Valid()
    modifies set p | p in rq.runList
    ensures next == null <==> rq.runList == []
    ensures next != null ==>
      var i := PickIndex(old(Strides(rq.runList)));
      && next == rq.runList[i]
      && next.stride == Advance(old(next.stride), next.priority)
      && forall j :: 0 <= j < |rq.runList| && j != i ==> rq.runList[j].stride == old(rq.runList[j].stride)
    ensures forall p :: p in rq.runList ==>
      p.priority == old(p.priority) && p.timeSlice == old(p.timeSlice) && p.needResched == old(p.needResched)
      && p.linked == old(p.linked) && p.rq == old(p.rq)
    ensures rq.Valid()
  {
    var s := rq.runList;
    if s == [] {
      return null;
    }
    var best := Scan(s);
    next := s[best];
    next.stride := Advance(next.stride, next.priority);
  }

  /** stride_proc_tick: the same countdown as the round-robin policy. */
  method ProcTick(rq: RunQueue, proc: Proc)
    modifies proc
    ensures Ticked(old(proc.timeSlice), proc.timeSlice)
    ensures proc.needResched == (old(proc.needResched) || proc.timeSlice == 0)
    ensures proc.rq == old(proc.rq) && proc.linked == old(proc.linked)
    ensures proc.stride == old(proc.stride) && proc.priority == old(proc.priority)
  {
    if proc.timeSlice > 0 {
      proc.timeSlice := proc.timeSlice - 1;
    }
    if proc.timeSlice == 0 {
      proc.needResched := true;
    }
  }
}
