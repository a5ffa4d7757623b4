/**
 * The process table of the kernel, as a value: the records of all processes
 * (an arena addressed by index), the list of processes other than idle
 * (newest first), the pid index, the process count, the pid allocator's
 * window and the family tree; the invariants the lifecycle operations keep,
 * and the lemmas that show each step keeps them.
 *
 * A record's family links are kept apart from its other fields, in a map of
 * their own (see module Family); both maps have the same domain. Records
 * that are freed leave the arena; indices are not reused.
 */
module ProcTable {
  import opened Common
  import opened Family
  import opened PidAlloc

  datatype ProcState = Uninit | Sleeping | Runnable | Zombie

  /** The fields of a process record other than its family links. */
  datatype Proc = Proc(
    state: ProcState,
    pid: int,
    runs: int,
    /** Whether a kernel stack is allocated. */
    kstack: bool,
    needResched: bool,
    flags: bv32,
    waitState: bv32,
    exitCode: int,
    name: string)

  /** A record as alloc_proc hands it out: uninitialised, pid -1, every field cleared. */
  const FreshProc := Proc(Uninit, -1, 0, false, false, 0, 0, 0, "")

  /**
   * wakeup_proc: the record becomes runnable. Whether it also clears
   * wait_state is not part of this model (sched.c is not), so that choice is
   * the parameter `clears`.
   */
  function Wakeup(r: Proc, clears: bool): (w: Proc)
    ensures w.state == Runnable
    ensures w.waitState == if clears then 0 else r.waitState
    ensures w.(state := r.state, waitState := r.waitState) == r
  {
    r.(state := Runnable, waitState := if clears then 0 else r.waitState)
  }

  /** Waking a record a second time changes nothing more. */
  lemma WakeupTwice(r: Proc, clears: bool)
    ensures Wakeup(Wakeup(r, clears), clears) == Wakeup(r, clears)
  {
  }

  /** The pids of the listed processes, in list order. */
  function PidsOf(procs: map<Idx, Proc>, l: seq<Idx>): (r: seq<int>)
    requires forall i :: 0 <= i < |l| ==> l[i] in procs
    ensures |r| == |l|
    ensures forall i :: 0 <= i < |l| ==> r[i] == procs[l[i]].pid
  {
    if l == [] then [] else [procs[l[0]].pid] + PidsOf(procs, l[1..])
  }

  /** Records that keep their pids leave the pid list unchanged. */
  lemma PidsOfFrame(procs: map<Idx, Proc>, procs': map<Idx, Proc>, l: seq<Idx>)
    requires forall i :: 0 <= i < |l| ==> l[i] in procs && l[i] in procs' && procs'[l[i]].pid == procs[l[i]].pid
    ensures PidsOf(procs', l) == PidsOf(procs, l)
  {
  }

  /**
   * The state the lifecycle operations share. `children` is the family
   * tree as sequences (youngest first) of idle and every listed process;
   * `current` is the running process and `idle` the first one.
   */
  datatype Table = Table(
    procs: map<Idx, Proc>,
    links: map<Idx, Link>,
    procList: seq<Idx>,
    children: map<Idx, seq<Idx>>,
    nrProcess: int,
    hash: map<int, Idx>,
    lastPid: int,
    nextSafe: int,
    nextIdx: Idx,
    idle: Idx,
    current: Idx)

  /**
   * The arena and the list agree: idle is a record but not listed, listed
   * processes are records without repetition, the family map covers exactly
   * idle and the listed processes, nr_process counts idle and the list, and
   * the next fresh index is above every record.
   */
  ghost predicate TableOk(t: Table)
  {
    && t.idle in t.procs && t.idle !in t.procList && Distinct(t.procList)
    && t.procs.Keys == t.links.Keys
    && (forall i :: 0 <= i < |t.procList| ==> t.procList[i] in t.procs)
    && (forall q :: q in t.children <==> q == t.idle || q in t.procList)
    && t.nrProcess == |t.procList| + 1
    && (forall q :: q in t.procs ==> q < t.nextIdx)
  }

  /**
   * The family tree: its chains are consistent, idle has no parent, every
   * listed process has one, and a zombie has no children left.
   */
  ghost predicate TreeOk(t: Table)
  {
    && FamilyOk(t.links, t.children)
    && t.idle in t.links && t.links[t.idle].parent == None
    && (forall q :: q in t.procList ==> q in t.links && t.links[q].parent.Some?)
    && (forall q :: q in t.children && q in t.procs && t.procs[q].state == Zombie ==> t.children[q] == [])
  }

  /**
   * The pid index: every listed process has a pid in [1, MAX_PID) under
   * which it is indexed, and the index holds nothing else.
   */
  ghost predicate IndexOk(t: Table, maxPid: int)
  {
    && (forall q :: q in t.procList ==>
          q in t.procs && 1 <= t.procs[q].pid < maxPid && t.procs[q].pid in t.hash && t.hash[t.procs[q].pid] == q)
    && (forall pid :: pid in t.hash ==> t.hash[pid] in t.procList && t.hash[pid] in t.procs && t.procs[t.hash[pid]].pid == pid)
  }

  /** get_pid's window: no listed pid lies strictly between last_pid and next_safe. */
  ghost predicate WindowOk(t: Table, maxPid: int)
  {
    && (forall i :: 0 <= i < |t.procList| ==> t.procList[i] in t.procs)
    && 1 <= t.lastPid <= t.nextSafe <= maxPid
    && WindowFree(PidsOf(t.procs, t.procList), t.lastPid, t.nextSafe)
  }

  /** Everything the lifecycle operations keep. */
  ghost predicate CoreOf(t: Table, maxPid: int, maxProcess: int)
  {
    && 1 < maxProcess < maxPid
    && TableOk(t) && TreeOk(t) && IndexOk(t, maxPid) && WindowOk(t, maxPid)
    && t.procs[t.idle].pid == 0
    && t.current in t.children
  }

  /** initproc: listed with pid 1, a child of idle, and never a zombie (it cannot exit). */
  ghost predicate InitOk(t: Table, init: Idx)
  {
    && init in t.procList && init in t.procs && init in t.links
    && t.procs[init].pid == 1 && t.links[init].parent == Some(t.idle) && t.procs[init].state != Zombie
  }

  // ---------------------------------------------------------------------------
  // Spare records: allocated, but neither listed nor in the tree
  // ---------------------------------------------------------------------------

  /** The two tables agree on every record other than p, and on everything else. */
  ghost predicate SameBut(t: Table, t': Table, p: Idx)
  {
    && t' == t.(procs := t'.procs, links := t'.links, nextIdx := t'.nextIdx)
    && t.nextIdx <= t'.nextIdx && p < t'.nextIdx
    && (p in t'.procs <==> p in t'.links)
    && (forall q :: q != p ==> (q in t'.procs <==> q in t.procs) && (q in t'.links <==> q in t.links))
    && (forall q :: q != p && q in t.procs ==> t'.procs[q] == t.procs[q])
    && (forall q :: q != p && q in t.links ==> t'.links[q] == t.links[q])
  }

  /**
   * A record that is neither listed nor in the tree may be allocated,
   * changed or freed: the table stays consistent, and the listed pids are
   * the same.
   */
  lemma SpareChanged(t: Table, t': Table, p: Idx, init: Idx, maxPid: int, maxProcess: int)
    requires CoreOf(t, maxPid, maxProcess) && p !in t.children && p !in t.procList
    requires SameBut(t, t', p)
    ensures CoreOf(t', maxPid, maxProcess)
    ensures PidsOf(t'.procs, t'.procList) == PidsOf(t.procs, t.procList)
    ensures InitOk(t, init) ==> InitOk(t', init)
  {
    SpareTable(t, t', p);
    SpareTree(t, t', p);
    SpareIndex(t, t', p, maxPid);
    SpareWindow(t, t', p, maxPid);
  }

  lemma SpareWindow(t: Table, t': Table, p: Idx, maxPid: int)
    requires WindowOk(t, maxPid) && p !in t.procList
    requires SameBut(t, t', p)
    ensures WindowOk(t', maxPid)
    ensures PidsOf(t'.procs, t'.procList) == PidsOf(t.procs, t.procList)
  {
    PidsOfFrame(t.procs, t'.procs, t.procList);
  }

  lemma SpareTable(t: Table, t': Table, p: Idx)
    requires TableOk(t) && p !in t.children && p !in t.procList
    requires SameBut(t, t', p)
    ensures TableOk(t')
  {
  }

  lemma SpareIndex(t: Table, t': Table, p: Idx, maxPid: int)
    requires IndexOk(t, maxPid) && p !in t.procList
    requires SameBut(t, t', p)
    ensures IndexOk(t', maxPid)
  {
  }

  lemma SpareTree(t: Table, t': Table, p: Idx)
    requires TableOk(t) && TreeOk(t) && p !in t.children && p !in t.procList
    requires SameBut(t, t', p)
    ensures TreeOk(t')
  {
    assert t'.children == t.children && t'.procList == t.procList && t'.idle == t.idle;
    forall q | q in t.children
      ensures q in t'.links && t'.links[q] == t.links[q]
    {
      assert q != p && q in t.procs;
    }
    FamilyOutside(t.links, t'.links, t.children);
  }

  // ---------------------------------------------------------------------------
  // Changes to one record
  // ---------------------------------------------------------------------------

  /**
   * A record may change in any field but its pid, provided it does not
   * become a zombie while it still has children: the table stays consistent,
   * and so does initproc unless it is the one turned into a zombie.
   */
  lemma RecordChanged(t: Table, q: Idx, r: Proc, maxPid: int, maxProcess: int)
    requires CoreOf(t, maxPid, maxProcess) && q in t.procs && r.pid == t.procs[q].pid
    requires r.state == Zombie && q in t.children ==> t.children[q] == []
    ensures CoreOf(t.(procs := t.procs[q := r]), maxPid, maxProcess)
  {
    RecordTable(t, q, r);
    RecordTree(t, q, r);
    RecordIndex(t, q, r, maxPid);
    RecordWindow(t, q, r, maxPid);
  }

  lemma RecordTable(t: Table, q: Idx, r: Proc)
    requires TableOk(t) && q in t.procs
    ensures TableOk(t.(procs := t.procs[q := r]))
  {
  }

  lemma RecordTree(t: Table, q: Idx, r: Proc)
    requires TreeOk(t) && q in t.procs
    requires r.state == Zombie && q in t.children ==> t.children[q] == []
    ensures TreeOk(t.(procs := t.procs[q := r]))
  {
  }

  lemma RecordIndex(t: Table, q: Idx, r: Proc, maxPid: int)
    requires IndexOk(t, maxPid) && q in t.procs && r.pid == t.procs[q].pid
    ensures IndexOk(t.(procs := t.procs[q := r]), maxPid)
  {
  }

  lemma RecordWindow(t: Table, q: Idx, r: Proc, maxPid: int)
    requires WindowOk(t, maxPid) && q in t.procs && r.pid == t.procs[q].pid
    ensures WindowOk(t.(procs := t.procs[q := r]), maxPid)
  {
    PidsOfFrame(t.procs, t.procs[q := r], t.procList);
  }

  /** initproc stays as it was unless it is the record that became a zombie. */
  lemma RecordInit(t: Table, q: Idx, r: Proc, init: Idx)
    requires InitOk(t, init) && q in t.procs && r.pid == t.procs[q].pid && (init == q ==> r.state != Zombie)
    ensures InitOk(t.(procs := t.procs[q := r]), init)
  {
  }

  // ---------------------------------------------------------------------------
  // do_fork
  // ---------------------------------------------------------------------------

  /** The kernel's error codes that the lifecycle operations return (their numeric values are not part of this model). */
  datatype Errno = NoFreeProc | NoMem | Inval | BadProc | Killed

  datatype ForkResult =
    | Forked(pid: int)
    | ForkFailed(err: Errno)
    /** `assert(current->wait_state == 0)` failed: the kernel stops. */
    | ForkPanicked

  /** alloc_proc's cleared record at the next fresh index, whose parent is the running process. */
  function Spawned(t: Table): (t': Table)
    ensures t'.procList == t.procList && t'.children == t.children && t'.nextIdx == t.nextIdx + 1
    ensures t'.procs == t.procs[t.nextIdx := FreshProc] && t'.procs[t.nextIdx].waitState == 0
    ensures t'.links == t.links[t.nextIdx := NoLinks.(parent := Some(t.current))]
  {
    t.(procs := t.procs[t.nextIdx := FreshProc], links := t.links[t.nextIdx := NoLinks.(parent := Some(t.current))],
       nextIdx := t.nextIdx + 1)
  }

  /** The record of a child that do_fork has set up: runnable, with a kernel stack and the pid get_pid chose. */
  function ForkedProc(pid: int): (r: Proc)
    ensures r.state == Runnable && r.pid == pid && r.kstack && r.waitState == 0
  {
    FreshProc.(pid := pid, kstack := true, state := Runnable)
  }

  /**
   * What do_fork does to the table t, as t'. It fails without a change
   * when nr_process has reached MAX_PROCESS or kmalloc fails; it stops the
   * kernel, the record allocated and linked to its parent, when the
   * caller's wait_state is not 0; when the kernel stack or the address
   * space cannot be set up the record is released again (its index is
   * spent). Otherwise the child has the first pid after last_pid that no
   * listed process holds, get_pid's window above it is free, and the child
   * is listed, indexed and linked as the caller's youngest child.
   */
  ghost predicate ForkOutcome(t: Table, t': Table, r: ForkResult, kmallocOk: bool, kstackOk: bool, copyMmOk: bool,
                              maxPid: int, maxProcess: int)
    requires TableOk(t) && t.current in t.children
  {
    if t.nrProcess >= maxProcess then r == ForkFailed(NoFreeProc) && t' == t
    else if !kmallocOk then r == ForkFailed(NoMem) && t' == t
    else if t.procs[t.current].waitState != 0 then r == ForkPanicked && t' == Spawned(t)
    else if !(kstackOk && copyMmOk) then r == ForkFailed(NoMem) && t' == t.(nextIdx := t.nextIdx + 1)
    else
      && r.Forked? && 1 <= r.pid < maxPid && r.pid == t'.lastPid && t'.lastPid < t'.nextSafe <= maxPid
      && 0 <= t.lastPid
      && FirstFree(PidsOf(t.procs, t.procList), CycleStart(t.lastPid, maxPid), maxPid, r.pid)
      && WindowFree(PidsOf(t.procs, t.procList), t'.lastPid, t'.nextSafe)
      && t' == Published(Spawned(t), t.nextIdx, ForkedProc(r.pid), t'.lastPid, t'.nextSafe)
  }

  /**
   * do_fork once record p is allocated, from table t1: p's parent is the
   * caller; a caller whose wait_state is not 0 stops the kernel; when
   * setup_kstack or copy_mm fails p is freed again; otherwise p is
   * published under the first free pid get_pid finds.
   */
  ghost predicate ForkChildOutcome(t1: Table, t2: Table, p: Idx, r: ForkResult, kstackOk: bool, copyMmOk: bool,
                                   maxPid: int)
    requires t1.current in t1.procs && t1.current in t1.links && t1.current in t1.children
    requires forall i :: 0 <= i < |t1.procList| ==> t1.procList[i] in t1.procs
    requires 0 <= t1.lastPid
  {
    var linked := t1.(links := t1.links[p := NoLinks.(parent := Some(t1.current))]);
    if t1.procs[t1.current].waitState != 0 then r == ForkPanicked && t2 == linked
    else if !(kstackOk && copyMmOk) then
      r == ForkFailed(NoMem) && t2 == t1.(procs := t1.procs - {p}, links := t1.links - {p})
    else
      && r.Forked? && 1 <= r.pid < maxPid && r.pid == t2.lastPid && t2.lastPid < t2.nextSafe <= maxPid
      && FirstFree(PidsOf(t1.procs, t1.procList), CycleStart(t1.lastPid, maxPid), maxPid, r.pid)
      && WindowFree(PidsOf(t1.procs, t1.procList), t2.lastPid, t2.nextSafe)
      && t2 == Published(linked, p, ForkedProc(r.pid), t2.lastPid, t2.nextSafe)
  }

  /** ForkOutcome from alloc_proc's effect followed by ForkChildOutcome. */
  lemma ForkOutcomeOf(t0: Table, t1: Table, t2: Table, p: Idx, r: ForkResult, kstackOk: bool, copyMmOk: bool,
                      maxPid: int, maxProcess: int)
    requires TableOk(t0) && t0.current in t0.children && t0.nrProcess < maxProcess && 0 <= t0.lastPid
    requires p == t0.nextIdx && t1 == t0.(procs := t0.procs[p := FreshProc], links := t0.links[p := NoLinks], nextIdx := p + 1)
    requires ForkChildOutcome(t1, t2, p, r, kstackOk, copyMmOk, maxPid)
    ensures ForkOutcome(t0, t2, r, true, kstackOk, copyMmOk, maxPid, maxProcess)
  {
    assert p !in t0.procs && p !in t0.links && p != t0.current;
    PidsOfFrame(t0.procs, t1.procs, t0.procList);
    assert t1.links[p := NoLinks.(parent := Some(t0.current))] == t0.links[p := NoLinks.(parent := Some(t0.current))];
    if t1.procs[t1.current].waitState == 0 && !(kstackOk && copyMmOk) {
      FreedAgain(t0.procs, p, FreshProc, t2.procs);
      FreedAgain(t0.links, p, NoLinks, t2.links);
    }
  }

  /** Publishing overwrites p's record, so what p held before does not matter. */
  lemma PublishedOverwrites(t: Table, p: Idx, x: Proc, r: Proc, lastPid: int, nextSafe: int)
    requires p in t.links && t.links[p].parent.Some? && t.links[p].parent.value in t.links
    requires t.links[p].parent.value in t.children
    ensures Published(t.(procs := t.procs[p := x]), p, r, lastPid, nextSafe) == Published(t, p, r, lastPid, nextSafe)
  {
    assert t.procs[p := x][p := r] == t.procs[p := r];
  }

  /** A record allocated and then freed again leaves the maps as they were. */
  lemma FreedAgain<V>(m: map<Idx, V>, k: Idx, v: V, m': map<Idx, V>)
    requires k !in m && m' == m[k := v] - {k}
    ensures m' == m
  {
  }

  /** do_fork keeps the table consistent, and initproc as it was, when the caller is not a zombie. */
  lemma ForkKeeps(t: Table, t': Table, r: ForkResult, kmallocOk: bool, kstackOk: bool, copyMmOk: bool,
                  init: Idx, maxPid: int, maxProcess: int)
    requires CoreOf(t, maxPid, maxProcess) && t.procs[t.current].state != Zombie
    requires ForkOutcome(t, t', r, kmallocOk, kstackOk, copyMmOk, maxPid, maxProcess)
    ensures CoreOf(t', maxPid, maxProcess)
    ensures InitOk(t, init) ==> InitOk(t', init)
    ensures t'.current == t.current && t'.idle == t.idle
  {
    if t.nrProcess < maxProcess && kmallocOk {
      var c := t.nextIdx;
      var s := Spawned(t);
      SpareChanged(t, s, c, init, maxPid, maxProcess);
      if t.procs[t.current].waitState == 0 {
        if !(kstackOk && copyMmOk) {
          SpareChanged(t, t', c, init, maxPid, maxProcess);
        } else {
          ForkPublished(s, c, ForkedProc(r.pid), t'.lastPid, t'.nextSafe, init, maxPid, maxProcess);
        }
      }
    }
  }

  /** The table once do_fork has listed, indexed and linked spare record p, now holding r. */
  function Published(t: Table, p: Idx, r: Proc, lastPid: int, nextSafe: int): (t': Table)
    requires p in t.links && t.links[p].parent.Some? && t.links[p].parent.value in t.links
    requires t.links[p].parent.value in t.children
    ensures t'.procList == [p] + t.procList && t'.nrProcess == t.nrProcess + 1
    ensures t'.procs == t.procs[p := r] && t'.hash == t.hash[r.pid := p]
  {
    var par := t.links[p].parent.value;
    t.(procs := t.procs[p := r], links := LinkIn(t.links, p), procList := [p] + t.procList,
       children := t.children[par := [p] + t.children[par]][p := []], nrProcess := t.nrProcess + 1,
       hash := t.hash[r.pid := p], lastPid := lastPid, nextSafe := nextSafe)
  }

  /** A spare record about to be published: linked only to its parent, the running process. */
  ghost predicate Publishable(t: Table, p: Idx)
  {
    && p in t.procs && p in t.links && p !in t.children && p !in t.procList
    && t.current in t.children && t.current in t.links
    && t.links[p] == NoLinks.(parent := Some(t.current))
  }

  /**
   * Publishing a spare record whose only link is its parent, the running
   * process, under a pid no listed process holds and that get_pid left as
   * last_pid, keeps the table consistent.
   */
  lemma ForkPublished(t: Table, p: Idx, r: Proc, lastPid: int, nextSafe: int, init: Idx, maxPid: int, maxProcess: int)
    requires CoreOf(t, maxPid, maxProcess) && Publishable(t, p)
    requires t.procs[t.current].state != Zombie && r.state != Zombie
    requires r.pid == lastPid && 1 <= lastPid < nextSafe <= maxPid
    requires r.pid !in PidsOf(t.procs, t.procList) && WindowFree(PidsOf(t.procs, t.procList), lastPid, nextSafe)
    ensures CoreOf(Published(t, p, r, lastPid, nextSafe), maxPid, maxProcess)
    ensures InitOk(t, init) ==> InitOk(Published(t, p, r, lastPid, nextSafe), init)
  {
    LinkInParents(t.links, p);
    ForkTable(t, p, r, lastPid, nextSafe);
    ForkTree(t, p, r, lastPid, nextSafe);
    ForkIndex(t, p, r, lastPid, nextSafe, maxPid);
    ForkWindow(t, p, r, lastPid, nextSafe);
  }

  lemma ForkTable(t: Table, p: Idx, r: Proc, lastPid: int, nextSafe: int)
    requires TableOk(t) && Publishable(t, p)
    ensures var t' := Published(t, p, r, lastPid, nextSafe);
      TableOk(t') && t'.procs[t'.idle] == t.procs[t.idle] && t'.current in t'.children
  {
    var t' := Published(t, p, r, lastPid, nextSafe);
    forall i | 0 <= i < |t'.procList|
      ensures t'.procList[i] in t'.procs
    {
      assert i > 0 ==> t'.procList[i] == t.procList[i - 1];
    }
  }

  lemma ForkTree(t: Table, p: Idx, r: Proc, lastPid: int, nextSafe: int)
    requires TableOk(t) && TreeOk(t) && Publishable(t, p)
    requires t.procs[t.current].state != Zombie && r.state != Zombie
    ensures TreeOk(Published(t, p, r, lastPid, nextSafe))
  {
    LinkInOk(t.links, t.children, p);
    LinkInParents(t.links, p);
    ForkZombies(t.procs, t.children, p, t.current, r);
  }

  lemma ForkZombies(procs: map<Idx, Proc>, ch: map<Idx, seq<Idx>>, p: Idx, cur: Idx, r: Proc)
    requires forall q :: q in ch && q in procs && procs[q].state == Zombie ==> ch[q] == []
    requires cur in ch && cur in procs && procs[cur].state != Zombie && r.state != Zombie
    ensures var ch' := ch[cur := [p] + ch[cur]][p := []];
      forall q :: q in ch' && q in procs[p := r] && procs[p := r][q].state == Zombie ==> ch'[q] == []
  {
  }

  lemma ForkIndex(t: Table, p: Idx, r: Proc, lastPid: int, nextSafe: int, maxPid: int)
    requires IndexOk(t, maxPid) && Publishable(t, p)
    requires forall i :: 0 <= i < |t.procList| ==> t.procList[i] in t.procs
    requires 1 <= r.pid < maxPid && r.pid !in PidsOf(t.procs, t.procList)
    ensures IndexOk(Published(t, p, r, lastPid, nextSafe), maxPid)
  {
    forall pid | pid in t.hash
      ensures pid != r.pid
    {
      var i :| 0 <= i < |t.procList| && t.procList[i] == t.hash[pid];
      assert PidsOf(t.procs, t.procList)[i] == pid;
    }
  }

  /** The pid that get_pid handed out is last_pid itself, so the window above it stays free. */
  lemma ForkWindow(t: Table, p: Idx, r: Proc, lastPid: int, nextSafe: int)
    requires forall i :: 0 <= i < |t.procList| ==> t.procList[i] in t.procs
    requires Publishable(t, p)
    requires r.pid == lastPid && lastPid < nextSafe
    requires WindowFree(PidsOf(t.procs, t.procList), lastPid, nextSafe)
    ensures var t' := Published(t, p, r, lastPid, nextSafe);
      && (forall i :: 0 <= i < |t'.procList| ==> t'.procList[i] in t'.procs)
      && WindowFree(PidsOf(t'.procs, t'.procList), lastPid, nextSafe)
  {
    var t' := Published(t, p, r, lastPid, nextSafe);
    PidsOfFrame(t.procs, t'.procs, t.procList);
    assert t'.procList[1..] == t.procList;
  }

  // ---------------------------------------------------------------------------
  // do_exit
  // ---------------------------------------------------------------------------

  /** Whether one of the records cs is a zombie. */
  ghost predicate HasZombie(procs: map<Idx, Proc>, cs: seq<Idx>)
  {
    exists j :: 0 <= j < |cs| && cs[j] in procs && procs[cs[j]].state == Zombie
  }

  /**
   * The wake-ups of do_exit's loop: init is woken once a moved child is a
   * zombie, provided init is waiting for a child.
   */
  ghost function InitWoken(procs: map<Idx, Proc>, init: Idx, moved: seq<Idx>, wtChild: bv32, clears: bool): (r: map<Idx, Proc>)
    ensures r.Keys == procs.Keys
    ensures forall q :: q in procs && q != init ==> r[q] == procs[q]
    ensures init in procs ==> r[init] == procs[init] || r[init] == Wakeup(procs[init], clears)
  {
    if init in procs && procs[init].waitState == wtChild && HasZombie(procs, moved)
    then procs[init := Wakeup(procs[init], clears)]
    else procs
  }

  /** One iteration's wake-up: init is woken when child c is a zombie and init waits for a child. */
  function WakeInit(procs: map<Idx, Proc>, c: Idx, init: Idx, wtChild: bv32, clears: bool): (r: map<Idx, Proc>)
    requires c in procs && init in procs
    ensures r.Keys == procs.Keys && forall q :: q in procs && q != init ==> r[q] == procs[q]
  {
    if procs[c].state == Zombie && procs[init].waitState == wtChild then procs[init := Wakeup(procs[init], clears)] else procs
  }

  /**
   * One more iteration of the loop: the child moved is checked against the
   * records as they are now. Waking init a second time changes nothing,
   * and once wakeup_proc has cleared wait_state there is no second time.
   */
  lemma InitWokenStep(procs: map<Idx, Proc>, init: Idx, cs: seq<Idx>, k: nat, wtChild: bv32, clears: bool)
    requires k < |cs| && init !in cs && wtChild != 0 && cs[k] in procs && init in procs
    ensures var w := InitWoken(procs, init, cs[..k], wtChild, clears);
      cs[k] in w && init in w && InitWoken(procs, init, cs[..k + 1], wtChild, clears) == WakeInit(w, cs[k], init, wtChild, clears)
  {
    assert cs[..k + 1] == cs[..k] + [cs[k]];
    assert HasZombie(procs, cs[..k + 1]) <==> HasZombie(procs, cs[..k]) || procs[cs[k]].state == Zombie by {
      if procs[cs[k]].state == Zombie {
        assert cs[..k + 1][k] == cs[k];
      }
      if HasZombie(procs, cs[..k]) {
        var j :| 0 <= j < k && cs[..k][j] in procs && procs[cs[..k][j]].state == Zombie;
        assert cs[..k + 1][j] == cs[..k][j];
      }
      if HasZombie(procs, cs[..k + 1]) {
        var j :| 0 <= j < k + 1 && cs[..k + 1][j] in procs && procs[cs[..k + 1][j]].state == Zombie;
        if j < k {
          assert cs[..k][j] == cs[..k + 1][j];
        }
      }
    }
    WakeupTwice(procs[init], clears);
  }

  /**
   * Where do_exit's loop stands after k iterations, started from links m0
   * and records p0 with the caller cur's chain as in ch: the links are
   * Reparented, cur's cptr is its k-th child if any, and init has been
   * woken if one of the children moved so far is a zombie.
   */
  ghost predicate ExitLoop(links: map<Idx, Link>, procs: map<Idx, Proc>, m0: map<Idx, Link>, p0: map<Idx, Proc>,
                           ch: map<Idx, seq<Idx>>, cur: Idx, init: Idx, wtChild: bv32, clears: bool, k: nat)
  {
    && FamilyOk(m0, ch) && cur in ch && init in ch && cur != init && init !in ch[cur]
    && p0.Keys == m0.Keys && wtChild != 0 && k <= |ch[cur]|
    && links == Reparented(m0, cur, init, k) && cur in links && links[cur].cptr == Head(ch[cur][k..])
    && procs == InitWoken(p0, init, ch[cur][..k], wtChild, clears)
  }

  /** The loop's first state. */
  lemma ExitLoopStart(m0: map<Idx, Link>, p0: map<Idx, Proc>, ch: map<Idx, seq<Idx>>, cur: Idx, init: Idx,
                      wtChild: bv32, clears: bool)
    requires FamilyOk(m0, ch) && cur in ch && init in ch && cur != init && init !in ch[cur]
    requires p0.Keys == m0.Keys && wtChild != 0
    ensures ExitLoop(m0, p0, m0, p0, ch, cur, init, wtChild, clears, 0)
  {
    assert ch[cur][..0] == [];
    ReparentedNext(m0, ch, cur, init, 0);
  }

  /** One more iteration: cur's first child is its k-th, it moves to init, and init may be woken. */
  lemma ExitLoopNext(links: map<Idx, Link>, procs: map<Idx, Proc>, m0: map<Idx, Link>, p0: map<Idx, Proc>,
                     ch: map<Idx, seq<Idx>>, cur: Idx, init: Idx, wtChild: bv32, clears: bool, k: nat)
    requires ExitLoop(links, procs, m0, p0, ch, cur, init, wtChild, clears, k) && k < |ch[cur]|
    ensures CanMove(links, cur, init) && links[cur].cptr.value == ch[cur][k]
    ensures ch[cur][k] in procs && init in procs
    ensures ExitLoop(MoveChild(links, cur, init), WakeInit(procs, ch[cur][k], init, wtChild, clears),
                     m0, p0, ch, cur, init, wtChild, clears, k + 1)
  {
    ReparentedMove(m0, ch, cur, init, k);
    assert links.Keys == m0.Keys;
    InitWokenStep(p0, init, ch[cur], k, wtChild, clears);
  }

  /** Once cur has no child left, the loop has moved all of them. */
  lemma ExitLoopDone(links: map<Idx, Link>, procs: map<Idx, Proc>, m0: map<Idx, Link>, p0: map<Idx, Proc>,
                     ch: map<Idx, seq<Idx>>, cur: Idx, init: Idx, wtChild: bv32, clears: bool, k: nat)
    requires ExitLoop(links, procs, m0, p0, ch, cur, init, wtChild, clears, k) && links[cur].cptr.None?
    ensures links == Reparented(m0, cur, init, |ch[cur]|) && procs == InitWoken(p0, init, ch[cur], wtChild, clears)
  {
    assert ch[cur][..k] == ch[cur];
  }

  /** What do_exit reads of the table: the caller, its parent (unless it is idle) and init. */
  ghost predicate ExitReady(t: Table, init: Idx)
  {
    && t.current in t.procs && t.current in t.links && t.current in t.children
    && init in t.children && init in t.procs
    && (t.current != t.idle ==> t.links[t.current].parent.Some? && t.links[t.current].parent.value in t.procs)
  }

  /**
   * The records after do_exit by a process other than idle: the caller is
   * a zombie with the exit code, its parent is woken if it waits for a
   * child, and so is init when one of the children handed to it is a zombie.
   */
  ghost function ExitedProcs(t: Table, code: int, init: Idx, wtChild: bv32, clears: bool): map<Idx, Proc>
    requires ExitReady(t, init) && t.current != t.idle
  {
    var cur := t.current;
    var par := t.links[cur].parent.value;
    var p1 := t.procs[cur := t.procs[cur].(state := Zombie, exitCode := code)];
    var p2 := if p1[par].waitState == wtChild then p1[par := Wakeup(p1[par], clears)] else p1;
    InitWoken(p2, init, t.children[cur], wtChild, clears)
  }

  /**
   * The table after do_exit by a process other than idle: the records are
   * ExitedProcs, and the caller's children, youngest first, have moved one
   * by one to the front of init's chain, which therefore starts with them
   * oldest first.
   */
  ghost function Exited(t: Table, code: int, init: Idx, wtChild: bv32, clears: bool): Table
    requires ExitReady(t, init) && t.current != t.idle
  {
    var cs := t.children[t.current];
    t.(procs := ExitedProcs(t, code, init, wtChild, clears), links := Reparented(t.links, t.current, init, |cs|),
       children := t.children[t.current := []][init := Reversed(cs) + t.children[init]])
  }

  /** do_exit: it stops the kernel when idle or init calls it, and otherwise leaves the table Exited. */
  ghost predicate ExitOutcome(t: Table, t': Table, panicked: bool, code: int, init: Idx, wtChild: bv32, clears: bool)
  {
    && ExitReady(t, init)
    && if t.current == t.idle || t.current == init then panicked && t' == t
       else !panicked && t' == Exited(t, code, init, wtChild, clears)
  }

  /** A consistent table is ready for do_exit. */
  lemma ExitReadyOf(t: Table, init: Idx, maxPid: int, maxProcess: int)
    requires CoreOf(t, maxPid, maxProcess) && InitOk(t, init)
    ensures ExitReady(t, init) && init != t.idle
  {
    if t.current != t.idle {
      assert t.current in t.procList;
      assert t.links[t.current].parent.value in t.children;
    }
  }

  /**
   * The caller's place in a consistent tree: its parent is another process
   * and not a zombie, and neither the caller, idle nor init is among its
   * children.
   */
  lemma ExitParent(t: Table, init: Idx, maxPid: int, maxProcess: int)
    requires CoreOf(t, maxPid, maxProcess) && InitOk(t, init) && t.current != t.idle && t.current != init
    ensures ExitReady(t, init)
    ensures var par := t.links[t.current].parent.value;
      par != t.current && t.procs[par].state != Zombie
    ensures var cs := t.children[t.current];
      t.current !in cs && t.idle !in cs && init !in cs && init != t.idle
    ensures forall c :: c in t.children[t.current] ==> c in t.procs
  {
    ExitReadyOf(t, init, maxPid, maxProcess);
    var cur := t.current;
    var par := t.links[cur].parent.value;
    assert par in t.children && cur in t.children[par];
    assert ChainOk(t.links, par, t.children[par], None);
    assert ChainOk(t.links, cur, t.children[cur], None);
  }

  /** Whether one of cs is a zombie only depends on the records of cs. */
  lemma HasZombieFrame(procs: map<Idx, Proc>, procs': map<Idx, Proc>, cs: seq<Idx>)
    requires forall j :: 0 <= j < |cs| ==> cs[j] in procs && cs[j] in procs'
    requires forall j :: 0 <= j < |cs| ==> (procs'[cs[j]].state == Zombie <==> procs[cs[j]].state == Zombie)
    ensures HasZombie(procs', cs) == HasZombie(procs, cs)
  {
  }

  /**
   * The records after do_exit: the caller is a zombie with the exit code,
   * its parent is woken when it waits for a child, init also when one of
   * the caller's children is a zombie, and no other record changes.
   */
  lemma ExitProcs(t: Table, code: int, init: Idx, wtChild: bv32, clears: bool)
    requires ExitReady(t, init) && t.current != t.idle && t.current != init
    requires var par := t.links[t.current].parent.value;
      par != t.current && t.procs[par].state != Zombie
    requires t.current !in t.children[t.current]
    requires forall c :: c in t.children[t.current] ==> c in t.procs
    ensures var procs' := ExitedProcs(t, code, init, wtChild, clears);
      var cur := t.current;
      var par := t.links[cur].parent.value;
      && procs'.Keys == t.procs.Keys
      && procs'[cur] == t.procs[cur].(state := Zombie, exitCode := code)
      && (par != init ==>
            procs'[par] == if t.procs[par].waitState == wtChild then Wakeup(t.procs[par], clears) else t.procs[par])
      && procs'[init] ==
           (if t.procs[init].waitState == wtChild && (init == par || HasZombie(t.procs, t.children[cur]))
            then Wakeup(t.procs[init], clears) else t.procs[init])
      && (forall q :: q in t.procs && q != cur && q != par && q != init ==> procs'[q] == t.procs[q])
  {
    var cur := t.current;
    var par := t.links[cur].parent.value;
    var cs := t.children[cur];
    var p1 := t.procs[cur := t.procs[cur].(state := Zombie, exitCode := code)];
    var p2 := if p1[par].waitState == wtChild then p1[par := Wakeup(p1[par], clears)] else p1;
    HasZombieFrame(t.procs, p2, cs);
    WakeupTwice(t.procs[init], clears);
  }

  /** Only the caller becomes a zombie, init does not, and every pid stays. */
  lemma ExitRecords(t: Table, code: int, init: Idx, wtChild: bv32, clears: bool)
    requires ExitReady(t, init) && t.current != t.idle && t.current != init
    requires var par := t.links[t.current].parent.value;
      par != t.current && t.procs[par].state != Zombie
    requires t.current !in t.children[t.current] && t.procs[init].state != Zombie
    requires forall c :: c in t.children[t.current] ==> c in t.procs
    ensures var procs' := ExitedProcs(t, code, init, wtChild, clears);
      && procs'.Keys == t.procs.Keys
      && (forall q :: q in t.procs ==> procs'[q].pid == t.procs[q].pid)
      && (forall q :: q in t.procs && procs'[q].state == Zombie ==> q == t.current || t.procs[q].state == Zombie)
      && procs'[init].state != Zombie
  {
    var cur := t.current;
    var par := t.links[cur].parent.value;
    var p1 := t.procs[cur := t.procs[cur].(state := Zombie, exitCode := code)];
    var p2 := if p1[par].waitState == wtChild then p1[par := Wakeup(p1[par], clears)] else p1;
    var procs' := ExitedProcs(t, code, init, wtChild, clears);
    assert procs' == InitWoken(p2, init, t.children[cur], wtChild, clears);
    forall q | q in t.procs
      ensures procs'[q].pid == t.procs[q].pid
      ensures procs'[q].state == Zombie ==> q == cur || t.procs[q].state == Zombie
    {
      assert procs'[q] == p2[q] || procs'[q] == Wakeup(p2[q], clears);
    }
  }

  /** After do_exit the tree is consistent again, and only the moved children have a new parent, init. */
  lemma ExitFamily(t: Table, init: Idx)
    requires FamilyOk(t.links, t.children)
    requires t.current in t.children && init in t.children && t.current != init && init !in t.children[t.current]
    ensures var cs := t.children[t.current];
      var links' := Reparented(t.links, t.current, init, |cs|);
      && FamilyOk(links', t.children[t.current := []][init := Reversed(cs) + t.children[init]])
      && (forall q :: q in t.links ==> links'[q].parent == if q in cs then Some(init) else t.links[q].parent)
  {
    var cs := t.children[t.current];
    ReparentedOk(t.links, t.children, t.current, init, |cs|);
    MovedAll(t.children, t.current, init);
    FamilyExceptDone(Reparented(t.links, t.current, init, |cs|), Moved(t.children, t.current, init, |cs|),
                     t.current, Stale(cs, |cs|));
    assert cs[..|cs|] == cs;
  }

  /** Moving every child: the general iteration count gives Exited's chains. */
  lemma MovedAll(ch: map<Idx, seq<Idx>>, cur: Idx, init: Idx)
    requires cur in ch && init in ch && cur != init
    ensures Moved(ch, cur, init, |ch[cur]|) == ch[cur := []][init := Reversed(ch[cur]) + ch[init]]
  {
    assert ch[cur][|ch[cur]|..] == [] && ch[cur][..|ch[cur]|] == ch[cur];
  }

  /** The facts about a table after do_exit that its consistency rests on. */
  ghost predicate ExitShape(t: Table, t': Table, init: Idx)
    requires t.current in t.children && init in t.children
  {
    var cs := t.children[t.current];
    && t' == t.(procs := t'.procs, links := t'.links, children := t'.children)
    && t'.procs.Keys == t.procs.Keys && t'.links.Keys == t.links.Keys
    && (forall q :: q in t.procs ==> t'.procs[q].pid == t.procs[q].pid)
    && (forall q :: q in t.procs && t'.procs[q].state == Zombie ==> q == t.current || t.procs[q].state == Zombie)
    && (init in t'.procs ==> t'.procs[init].state != Zombie)
    && t'.children == t.children[t.current := []][init := Reversed(cs) + t.children[init]]
    && FamilyOk(t'.links, t'.children)
    && (forall q :: q in t.links ==> t'.links[q].parent == if q in cs then Some(init) else t.links[q].parent)
  }

  /** do_exit keeps the table consistent, and initproc as it was. */
  lemma ExitKeeps(t: Table, t': Table, panicked: bool, code: int, init: Idx, wtChild: bv32, clears: bool,
                  maxPid: int, maxProcess: int)
    requires CoreOf(t, maxPid, maxProcess) && InitOk(t, init) && wtChild != 0
    requires ExitOutcome(t, t', panicked, code, init, wtChild, clears)
    ensures CoreOf(t', maxPid, maxProcess) && InitOk(t', init)
  {
    if !panicked {
      ExitParent(t, init, maxPid, maxProcess);
      ExitRecords(t, code, init, wtChild, clears);
      ExitFamily(t, init);
      assert ExitShape(t, t', init);
      ExitTable(t, t', init);
      ExitZombies(t, t', init);
      ExitTree(t, t', init);
      ExitIndex(t, t', init, maxPid);
    }
  }

  lemma ExitTable(t: Table, t': Table, init: Idx)
    requires TableOk(t) && t.current in t.children && init in t.children
    requires ExitShape(t, t', init)
    ensures TableOk(t')
  {
  }

  lemma ExitZombies(t: Table, t': Table, init: Idx)
    requires t.current in t.children && init in t.children && t.current != init
    requires forall q :: q in t.children && q in t.procs && t.procs[q].state == Zombie ==> t.children[q] == []
    requires ExitShape(t, t', init)
    ensures forall q :: q in t'.children && q in t'.procs && t'.procs[q].state == Zombie ==> t'.children[q] == []
  {
    forall q | q in t'.children && q in t'.procs && t'.procs[q].state == Zombie
      ensures t'.children[q] == []
    {
      if q != t.current {
        assert q != init && t'.children[q] == t.children[q];
      }
    }
  }

  lemma ExitTree(t: Table, t': Table, init: Idx)
    requires t.current in t.children && init in t.children && t.idle !in t.children[t.current]
    requires t.idle in t.links && t.links[t.idle].parent == None
    requires forall q :: q in t.procList ==> q in t.links && t.links[q].parent.Some?
    requires InitOk(t, init) && init !in t.children[t.current]
    requires ExitShape(t, t', init)
    requires forall q :: q in t'.children && q in t'.procs && t'.procs[q].state == Zombie ==> t'.children[q] == []
    ensures TreeOk(t') && InitOk(t', init)
  {
  }

  lemma ExitIndex(t: Table, t': Table, init: Idx, maxPid: int)
    requires IndexOk(t, maxPid) && WindowOk(t, maxPid) && t.current in t.children && init in t.children
    requires ExitShape(t, t', init)
    ensures IndexOk(t', maxPid) && WindowOk(t', maxPid)
  {
    PidsOfFrame(t.procs, t'.procs, t.procList);
  }

  /**
   * What do_exit promises: the caller is a zombie with the exit code and
   * has no child left; every former child has init as its parent and is in
   * init's chain; the parent is woken exactly when it waits for a child,
   * and init also when a former child is a zombie; no other record changes,
   * and the process list, the count and the pid index stay as they were.
   */
  lemma ExitDone(t: Table, t': Table, code: int, init: Idx, wtChild: bv32, clears: bool, maxPid: int, maxProcess: int)
    requires CoreOf(t, maxPid, maxProcess) && InitOk(t, init) && wtChild != 0
    requires ExitOutcome(t, t', false, code, init, wtChild, clears)
    ensures t'.procs[t.current].state == Zombie && t'.procs[t.current].exitCode == code
    ensures t.current in t'.links && t'.links[t.current].cptr == None
    ensures forall c :: c in t.children[t.current] ==>
      c in t'.links && t'.links[c].parent == Some(init) && c in t'.children[init]
    ensures var par := t.links[t.current].parent.value;
      par != init ==>
        t'.procs[par] == if t.procs[par].waitState == wtChild then Wakeup(t.procs[par], clears) else t.procs[par]
    ensures var par := t.links[t.current].parent.value;
      t'.procs[init] ==
        if t.procs[init].waitState == wtChild && (init == par || HasZombie(t.procs, t.children[t.current]))
        then Wakeup(t.procs[init], clears) else t.procs[init]
    ensures forall q :: q in t.procs && q != t.current && q != t.links[t.current].parent.value && q != init ==>
      t'.procs[q] == t.procs[q]
    ensures t'.procList == t.procList && t'.nrProcess == t.nrProcess && t'.hash == t.hash
  {
    var cur := t.current;
    var cs := t.children[cur];
    ExitParent(t, init, maxPid, maxProcess);
    ExitFamily(t, init);
    assert ChainOk(t'.links, cur, t'.children[cur], None);
    forall c | c in cs
      ensures c in t'.children[init]
    {
      assert c in Reversed(cs);
    }
    ExitProcs(t, code, init, wtChild, clears);
  }

  // ---------------------------------------------------------------------------
  // The pid index
  // ---------------------------------------------------------------------------

  /** find_proc on the index: pids outside (0, MAX_PID) are not looked up. */
  function Lookup(hash: map<int, Idx>, pid: int, maxPid: int): Option<Idx>
  {
    if 0 < pid < maxPid && pid in hash then Some(hash[pid]) else None
  }

  // ---------------------------------------------------------------------------
  // do_wait
  // ---------------------------------------------------------------------------

  datatype WaitResult =
    /** A zombie child was reaped and 0 returned; with a code_store its exit code was stored there. */
    | Reaped(stored: Option<int>)
    /** The caller has children but none is a zombie: it goes to sleep until one exits. */
    | WaitSlept
    | WaitFailed(err: Errno)
    /** The child found is idle or init: the kernel stops. */
    | WaitPanicked

  /** The first zombie among cs, in chain order. */
  function FirstZombie(procs: map<Idx, Proc>, cs: seq<Idx>): (r: Option<Idx>)
    requires forall c :: c in cs ==> c in procs
    ensures r.None? <==> !HasZombie(procs, cs)
    ensures r.Some? ==> r.value in cs && procs[r.value].state == Zombie
    ensures r.Some? ==> exists i :: 0 <= i < |cs| && cs[i] == r.value && forall j :: 0 <= j < i ==> procs[cs[j]].state != Zombie
  {
    if cs == [] then None
    else if procs[cs[0]].state == Zombie then Some(cs[0])
    else
      var r := FirstZombie(procs, cs[1..]);
      assert HasZombie(procs, cs) ==> HasZombie(procs, cs[1..]) by {
        if HasZombie(procs, cs) {
          var j :| 0 <= j < |cs| && cs[j] in procs && procs[cs[j]].state == Zombie;
          assert cs[1..][j - 1] == cs[j];
        }
      }
      assert r.Some? ==> exists i :: 0 <= i < |cs| && cs[i] == r.value && forall j :: 0 <= j < i ==> procs[cs[j]].state != Zombie by {
        if r.Some? {
          var i :| 0 <= i < |cs[1..]| && cs[1..][i] == r.value && forall j :: 0 <= j < i ==> procs[cs[1..][j]].state != Zombie;
          assert cs[i + 1] == r.value;
          forall j | 0 <= j < i + 1
            ensures procs[cs[j]].state != Zombie
          {
            if j > 0 {
              assert cs[j] == cs[1..][j - 1];
            }
          }
        }
      }
      r
  }

  /** do_wait(pid) with pid != 0: the process find_proc returns, if it is a child of the caller. */
  function NamedChild(t: Table, pid: int, maxPid: int): Option<Idx>
  {
    var f := Lookup(t.hash, pid, maxPid);
    if f.Some? && f.value in t.links && t.links[f.value].parent == Some(t.current) then f else None
  }

  /** What do_wait reads: the pid index, the caller's record and its chain of children. */
  ghost predicate WaitReady(t: Table, maxPid: int)
  {
    && IndexOk(t, maxPid) && t.idle !in t.procList && t.procs.Keys == t.links.Keys
    && t.current in t.procs && t.current in t.children && ChainOk(t.links, t.current, t.children[t.current], None)
  }

  /** The child do_wait reaps, if any: the named child when it is a zombie, or the first zombie in the caller's chain. */
  ghost function WaitTarget(t: Table, pid: int, maxPid: int): (r: Option<Idx>)
    requires WaitReady(t, maxPid)
    ensures r.Some? ==> r.value in t.procs && r.value in t.links && t.links[r.value].parent == Some(t.current)
  {
    if pid != 0 then
      var n := NamedChild(t, pid, maxPid);
      if n.Some? && t.procs[n.value].state == Zombie then n else None
    else
      var cs := t.children[t.current];
      assert forall c :: c in cs ==> c in t.procs && c in t.links && t.links[c].parent == Some(t.current);
      FirstZombie(t.procs, cs)
  }

  /** do_wait's haskid: the named process is a child of the caller, or (for pid 0) the caller has a child. */
  ghost predicate HasKid(t: Table, pid: int, maxPid: int)
    requires t.current in t.children
  {
    if pid != 0 then NamedChild(t, pid, maxPid).Some? else t.children[t.current] != []
  }

  /**
   * The table once do_wait has reaped child p: p leaves the pid index
   * (unhash_proc), the process list and its parent's chain (remove_links),
   * the count drops by one, and its stack and record are freed.
   */
  function Reap(t: Table, p: Idx): Table
    requires p in t.procs && p in t.links && t.links[p].parent.Some? && t.links[p].parent.value in t.children
  {
    var par := t.links[p].parent.value;
    t.(procs := t.procs - {p}, links := LinkOut(t.links, p) - {p}, procList := Remove(t.procList, p),
       children := (t.children - {p})[par := Remove(t.children[par], p)], nrProcess := t.nrProcess - 1,
       hash := t.hash - {t.procs[p].pid})
  }

  /** The caller, asleep until a child exits. */
  function Slept(t: Table, wtChild: bv32): Table
    requires t.current in t.procs
  {
    t.(procs := t.procs[t.current := t.procs[t.current].(state := Sleeping, waitState := wtChild)])
  }

  /**
   * One pass of do_wait(pid, code_store): a code_store that
   * user_mem_check rejects gives -E_INVAL; a zombie child (the named one,
   * or the first in the caller's chain) is reaped, unless it is idle or
   * init, which stops the kernel; a caller with a matching child that is
   * not a zombie goes to sleep; otherwise -E_BAD_PROC. Nothing changes on
   * the error paths.
   */
  ghost predicate WaitOutcome(t: Table, t': Table, r: WaitResult, pid: int, codeStore: bool, codeOk: bool,
                              init: Idx, wtChild: bv32, maxPid: int)
    requires WaitReady(t, maxPid)
  {
    if codeStore && !codeOk then r == WaitFailed(Inval) && t' == t
    else
      var target := WaitTarget(t, pid, maxPid);
      if target.Some? then
        var p := target.value;
        if p == t.idle || p == init then r == WaitPanicked && t' == t
        else r == Reaped(if codeStore then Some(t.procs[p].exitCode) else None) && t' == Reap(t, p)
      else if HasKid(t, pid, maxPid) then r == WaitSlept && t' == Slept(t, wtChild)
      else r == WaitFailed(BadProc) && t' == t
  }

  /** A consistent table is ready for do_wait. */
  lemma WaitReadyOf(t: Table, maxPid: int, maxProcess: int)
    requires CoreOf(t, maxPid, maxProcess)
    ensures WaitReady(t, maxPid)
  {
    assert ChainOk(t.links, t.current, t.children[t.current], None);
  }

  /** The child do_wait reaps is a zombie in the caller's chain; it is neither idle nor init. */
  lemma TargetIsChild(t: Table, pid: int, init: Idx, maxPid: int, maxProcess: int)
    requires CoreOf(t, maxPid, maxProcess) && InitOk(t, init) && WaitReady(t, maxPid)
    requires WaitTarget(t, pid, maxPid).Some?
    ensures var p := WaitTarget(t, pid, maxPid).value;
      p in t.children[t.current] && t.procs[p].state == Zombie && p != t.idle && p != init
  {
    var p := WaitTarget(t, pid, maxPid).value;
    if pid != 0 {
      assert p in t.procList && p in t.children;
    }
  }

  /** Reaping a zombie child of the caller other than init keeps the table consistent, and initproc as it was. */
  lemma ReapKeeps(t: Table, p: Idx, init: Idx, maxPid: int, maxProcess: int)
    requires CoreOf(t, maxPid, maxProcess) && InitOk(t, init)
    requires p in t.children[t.current] && t.procs[p].state == Zombie && p != init
    ensures p in t.procs && p in t.links && t.links[p].parent == Some(t.current)
    ensures CoreOf(Reap(t, p), maxPid, maxProcess) && InitOk(Reap(t, p), init)
  {
    var cur := t.current;
    var cs := t.children[cur];
    assert ChainOk(t.links, cur, cs, None);
    var k :| 0 <= k < |cs| && cs[k] == p;
    assert p in t.children && p != t.idle && p in t.procList;
    assert t.procs[cur].state != Zombie;
    RemoveDistinct(t.procList, p);
    RemoveAt(cs, p, k);
    LinkOutOk(t.links, t.children, p, cur, k);
    LinkOutParents(t.links, p);
    ReapTable(t, p);
    ReapTree(t, p, k);
    ReapIndex(t, p, maxPid);
    ReapWindow(t, p, maxPid);
  }

  lemma ReapTable(t: Table, p: Idx)
    requires TableOk(t) && p in t.procList && p in t.links && t.links[p].parent.Some?
    requires t.links[p].parent.value in t.children && t.links[p].parent.value != p
    requires Distinct(Remove(t.procList, p)) && |Remove(t.procList, p)| == |t.procList| - 1
    requires forall y :: y in Remove(t.procList, p) <==> y in t.procList && y != p
    ensures TableOk(Reap(t, p))
  {
    var t' := Reap(t, p);
    assert t'.procs.Keys == t.procs.Keys - {p} && t'.links.Keys == t.links.Keys - {p};
    assert t'.children.Keys == t.children.Keys - {p};
    forall i | 0 <= i < |t'.procList|
      ensures t'.procList[i] in t'.procs
    {
      assert t'.procList[i] in Remove(t.procList, p);
    }
    forall q
      ensures q in t'.children <==> q == t'.idle || q in t'.procList
    {
      assert q in t'.children <==> q in t.children && q != p;
    }
  }

  lemma ReapTree(t: Table, p: Idx, k: nat)
    requires TableOk(t) && TreeOk(t) && p in t.procList && p in t.links && t.links[p].parent == Some(t.current)
    requires t.current in t.children && t.current in t.procs && t.procs[t.current].state != Zombie
    requires k < |t.children[t.current]| && t.children[t.current][k] == p
    requires Remove(t.children[t.current], p) == Without(t.children[t.current], k)
    requires forall y :: y in Remove(t.procList, p) <==> y in t.procList && y != p
    requires FamilyOk(LinkOut(t.links, p), (t.children - {p})[t.current := Without(t.children[t.current], k)])
    requires forall q :: q in t.links ==> LinkOut(t.links, p)[q].parent == t.links[q].parent
    ensures TreeOk(Reap(t, p))
  {
    var t' := Reap(t, p);
    var ch' := (t.children - {p})[t.current := Without(t.children[t.current], k)];
    assert t'.children == ch';
    FamilyOutside(LinkOut(t.links, p), t'.links, ch');
    assert t.idle != p && t'.links[t.idle].parent == None;
    forall q | q in t'.procList
      ensures q in t'.links && t'.links[q].parent.Some?
    {
      assert q in Remove(t.procList, p);
    }
    ReapZombies(t.procs, t.children, p, t.current, Without(t.children[t.current], k));
  }

  lemma ReapZombies(procs: map<Idx, Proc>, ch: map<Idx, seq<Idx>>, p: Idx, cur: Idx, cs: seq<Idx>)
    requires forall q :: q in ch && q in procs && procs[q].state == Zombie ==> ch[q] == []
    requires cur in procs && procs[cur].state != Zombie
    ensures var ch' := (ch - {p})[cur := cs];
      forall q :: q in ch' && q in procs - {p} && (procs - {p})[q].state == Zombie ==> ch'[q] == []
  {
  }

  lemma ReapIndex(t: Table, p: Idx, maxPid: int)
    requires IndexOk(t, maxPid) && p in t.procList && p in t.links && t.links[p].parent.Some?
    requires t.links[p].parent.value in t.children
    requires forall y :: y in Remove(t.procList, p) <==> y in t.procList && y != p
    ensures IndexOk(Reap(t, p), maxPid)
  {
  }

  lemma ReapWindow(t: Table, p: Idx, maxPid: int)
    requires WindowOk(t, maxPid) && p in t.procList && p in t.links && t.links[p].parent.Some?
    requires t.links[p].parent.value in t.children
    requires forall y :: y in Remove(t.procList, p) <==> y in t.procList && y != p
    ensures WindowOk(Reap(t, p), maxPid)
  {
    var t' := Reap(t, p);
    forall i | 0 <= i < |t'.procList|
      ensures t'.procList[i] in t'.procs
    {
      assert t'.procList[i] in Remove(t.procList, p);
    }
    PidsOfSub(t.procs, t'.procs, t.procList, t'.procList);
    WindowFreeSub(PidsOf(t.procs, t.procList), PidsOf(t'.procs, t'.procList), t.lastPid, t.nextSafe);
  }

  /** Listed processes that were listed before, with the same pids, hold only pids held before. */
  lemma PidsOfSub(procs: map<Idx, Proc>, procs': map<Idx, Proc>, l: seq<Idx>, l': seq<Idx>)
    requires forall i :: 0 <= i < |l| ==> l[i] in procs
    requires forall i :: 0 <= i < |l'| ==> l'[i] in procs' && l'[i] in l
    requires forall q :: q in procs' && q in procs ==> procs'[q].pid == procs[q].pid
    ensures forall x :: x in PidsOf(procs', l') ==> x in PidsOf(procs, l)
  {
    forall x | x in PidsOf(procs', l')
      ensures x in PidsOf(procs, l)
    {
      var j :| 0 <= j < |l'| && PidsOf(procs', l')[j] == x;
      var i :| 0 <= i < |l| && l[i] == l'[j];
      assert l'[j] in procs && x == procs'[l'[j]].pid == procs[l[i]].pid;
      assert PidsOf(procs, l)[i] == x;
    }
  }

  /** Fewer pids in use leave the window free. */
  lemma WindowFreeSub(pids: seq<int>, pids': seq<int>, lastPid: int, nextSafe: int)
    requires WindowFree(pids, lastPid, nextSafe) && forall x :: x in pids' ==> x in pids
    ensures WindowFree(pids', lastPid, nextSafe)
  {
    forall j | 0 <= j < |pids'|
      ensures !(lastPid < pids'[j] < nextSafe)
    {
      assert pids'[j] in pids';
      var k :| 0 <= k < |pids| && pids[k] == pids'[j];
    }
  }

  /** One pass of do_wait keeps the table consistent and initproc as it was, and never stops the kernel. */
  lemma WaitKeeps(t: Table, t': Table, r: WaitResult, pid: int, codeStore: bool, codeOk: bool, init: Idx,
                  wtChild: bv32, maxPid: int, maxProcess: int)
    requires CoreOf(t, maxPid, maxProcess) && InitOk(t, init) && WaitReady(t, maxPid)
    requires WaitOutcome(t, t', r, pid, codeStore, codeOk, init, wtChild, maxPid)
    ensures r != WaitPanicked
    ensures CoreOf(t', maxPid, maxProcess) && InitOk(t', init)
  {
    if !(codeStore && !codeOk) {
      var target := WaitTarget(t, pid, maxPid);
      if target.Some? {
        TargetIsChild(t, pid, init, maxPid, maxProcess);
        ReapKeeps(t, target.value, init, maxPid, maxProcess);
      } else if HasKid(t, pid, maxPid) {
        var c := t.current;
        var rec := t.procs[c].(state := Sleeping, waitState := wtChild);
        RecordChanged(t, c, rec, maxPid, maxProcess);
        RecordInit(t, c, rec, init);
      }
    }
  }

  /**
   * do_wait fails with -E_BAD_PROC, and changes nothing, exactly when the
   * caller has no child at all (pid 0: its cptr is null) or no child with
   * the pid asked for.
   */
  lemma WaitNoChild(t: Table, t': Table, r: WaitResult, pid: int, codeStore: bool, codeOk: bool, init: Idx,
                    wtChild: bv32, maxPid: int)
    requires WaitReady(t, maxPid) && !(codeStore && !codeOk)
    requires WaitOutcome(t, t', r, pid, codeStore, codeOk, init, wtChild, maxPid)
    ensures r == WaitFailed(BadProc) <==>
      if pid == 0 then t.links[t.current].cptr == None
      else !exists q :: q in t.procList && t.procs[q].pid == pid && t.links[q].parent == Some(t.current)
    ensures r == WaitFailed(BadProc) ==> t' == t
  {
    assert WaitTarget(t, pid, maxPid).Some? ==> HasKid(t, pid, maxPid);
    assert r == WaitFailed(BadProc) <==> !HasKid(t, pid, maxPid);
    HasKidOf(t, pid, maxPid);
  }

  /** do_wait's haskid, in terms of the pointers and the listed processes. */
  lemma HasKidOf(t: Table, pid: int, maxPid: int)
    requires WaitReady(t, maxPid)
    ensures HasKid(t, pid, maxPid) <==>
      if pid == 0 then t.links[t.current].cptr != None
      else exists q :: q in t.procList && t.procs[q].pid == pid && t.links[q].parent == Some(t.current)
  {
    if pid != 0 {
      var n := NamedChild(t, pid, maxPid);
      if exists q :: q in t.procList && t.procs[q].pid == pid && t.links[q].parent == Some(t.current) {
        var q :| q in t.procList && t.procs[q].pid == pid && t.links[q].parent == Some(t.current);
        assert n == Some(q);
      }
    }
  }

  /**
   * What reaping a child promises: it leaves the process list, the pid
   * index, the arena and its parent's chain, and the count drops by one;
   * every other listed process stays listed with its record and its parent.
   */
  lemma ReapDone(t: Table, p: Idx, maxPid: int)
    requires TableOk(t) && TreeOk(t) && t.current in t.children && p in t.children[t.current]
    ensures p in t.procs && p in t.links && t.links[p].parent == Some(t.current)
    ensures var t' := Reap(t, p);
      && p !in t'.procList && p !in t'.procs && p !in t'.links && p !in t'.children && p !in t'.children[t.current]
      && Lookup(t'.hash, t.procs[p].pid, maxPid) == None
      && t'.nrProcess == t.nrProcess - 1
      && (forall q :: q in t.procList && q != p ==>
            q in t'.procList && t'.procs[q] == t.procs[q] && t'.links[q].parent == t.links[q].parent)
  {
    assert ChainOk(t.links, t.current, t.children[t.current], None);
    assert p in t.children && p != t.idle && p in t.procList;
    var pid := t.procs[p].pid;
    assert Reap(t, p).hash == t.hash - {pid};
    assert pid !in Reap(t, p).hash;
    RemoveDistinct(t.procList, p);
    RemoveDistinct(t.children[t.current], p);
    LinkOutParents(t.links, p);
  }

  /** A pid no listed process holds is not in the index. */
  lemma UnusedPid(t: Table, pid: int, maxPid: int)
    requires IndexOk(t, maxPid) && (forall i :: 0 <= i < |t.procList| ==> t.procList[i] in t.procs)
    requires pid !in PidsOf(t.procs, t.procList)
    ensures pid !in t.hash
  {
    forall q | q in t.procList
      ensures t.procs[q].pid in PidsOf(t.procs, t.procList)
    {
      var i :| 0 <= i < |t.procList| && t.procList[i] == q;
      assert PidsOf(t.procs, t.procList)[i] == t.procs[q].pid;
    }
  }

  /**
   * remove_links undoes set_links: reaping the child a successful do_fork
   * has just published gives back the table as it was, but for the spent
   * index and get_pid's window.
   */
  lemma ForkReapUndo(t: Table, t': Table, r: ForkResult, maxPid: int, maxProcess: int)
    requires CoreOf(t, maxPid, maxProcess) && r.Forked?
    requires ForkOutcome(t, t', r, true, true, true, maxPid, maxProcess)
    ensures var p := t.nextIdx;
      p in t'.procs && p in t'.links && t'.links[p].parent == Some(t.current) && t.current in t'.children
    ensures Reap(t', t.nextIdx) == t.(lastPid := t'.lastPid, nextSafe := t'.nextSafe, nextIdx := t.nextIdx + 1)
  {
    assert t.nrProcess < maxProcess && t.procs[t.current].waitState == 0;
    assert t' == Published(Spawned(t), t.nextIdx, ForkedProc(r.pid), t'.lastPid, t'.nextSafe);
    UnusedPid(t, r.pid, maxPid);
    assert ChainOk(t.links, t.current, t.children[t.current], None);
    PublishReapUndo(t, ForkedProc(r.pid), t'.lastPid, t'.nextSafe);
  }

  /** Publishing a fresh record and reaping it again gives back the table, but for the spent index and the window. */
  lemma PublishReapUndo(t: Table, rec: Proc, lastPid: int, nextSafe: int)
    requires TableOk(t) && t.current in t.children && ChainOk(t.links, t.current, t.children[t.current], None)
    requires rec.pid !in t.hash
    ensures var s := Spawned(t);
      t.nextIdx in s.links && s.links[t.nextIdx].parent == Some(t.current) && t.current in s.links
    ensures var t1 := Published(Spawned(t), t.nextIdx, rec, lastPid, nextSafe);
      && t.nextIdx in t1.procs && t.nextIdx in t1.links && t1.links[t.nextIdx].parent == Some(t.current)
      && Reap(t1, t.nextIdx) == t.(lastPid := lastPid, nextSafe := nextSafe, nextIdx := t.nextIdx + 1)
  {
    var p := t.nextIdx;
    var cur := t.current;
    var s := Spawned(t);
    assert cur in t.procs && cur != p && p !in t.children && p !in t.links && p !in t.procList;
    LinkInParents(s.links, p);
    var t1 := Published(s, p, rec, lastPid, nextSafe);
    assert t1.links[p].parent == Some(cur);
    var r := Reap(t1, p);
    LinksUndo(t.links, t.children[cur], p, cur);
    assert r.links == t.links;
    ChildrenUndo(t.children, p, cur);
    assert r.children == t.children;
    assert Remove([p] + t.procList, p) == t.procList;
    ReplaceDrop(t.procs, p, FreshProc, rec);
    assert r.procs == t.procs;
    AddDrop(t.hash, rec.pid, p);
    assert r.hash == t.hash;
  }

  /** A key added to a map and dropped again leaves the map as it was. */
  lemma AddDrop<K, V>(m: map<K, V>, k: K, v: V)
    requires k !in m
    ensures m[k := v] - {k} == m
  {
  }

  /** A key added to a map, overwritten and dropped again leaves the map as it was. */
  lemma ReplaceDrop<K, V>(m: map<K, V>, k: K, v: V, w: V)
    requires k !in m
    ensures m[k := v][k := w] - {k} == m
  {
    assert m[k := v][k := w] == m[k := w];
  }

  /** Adding a youngest child to cur's chain, and removing it again, gives back the chains. */
  lemma ChildrenUndo(ch: map<Idx, seq<Idx>>, p: Idx, cur: Idx)
    requires cur in ch && p !in ch && p != cur
    ensures ((ch[cur := [p] + ch[cur]][p := []]) - {p})[cur := Remove([p] + ch[cur], p)] == ch
  {
    assert Remove([p] + ch[cur], p) == ch[cur];
    assert (ch[cur := [p] + ch[cur]][p := []]) - {p} == ch[cur := [p] + ch[cur]];
  }

  /** remove_links undoes set_links on the pointers. */
  lemma LinksUndo(links: map<Idx, Link>, cs: seq<Idx>, p: Idx, cur: Idx)
    requires ChainOk(links, cur, cs, None) && p !in links
    ensures var s := links[p := NoLinks.(parent := Some(cur))];
      LinkOut(LinkIn(s, p), p) - {p} == links
  {
    var s := links[p := NoLinks.(parent := Some(cur))];
    if cs != [] {
      ChainAt(links, cur, cs, None, 0);
    }
    LinkInOutUndo(s, p);
    var l' := LinkOut(LinkIn(s, p), p) - {p};
    assert l'.Keys == links.Keys;
    forall q | q in links
      ensures l'[q] == links[q]
    {
    }
  }

  /**
   * init_main's closing checks: once init is the only listed process, it
   * has no children and no siblings, and nr_process is 2.
   */
  lemma OnlyInit(t: Table, init: Idx, maxPid: int, maxProcess: int)
    requires CoreOf(t, maxPid, maxProcess) && InitOk(t, init) && t.procList == [init]
    ensures t.nrProcess == 2
    ensures t.links[init].cptr == None && t.links[init].yptr == None && t.links[init].optr == None
  {
    var ci := t.children[init];
    assert ChainOk(t.links, init, ci, None);
    DistinctWithin(ci, []);
    var cs := t.children[t.idle];
    assert ChainOk(t.links, t.idle, cs, None);
    assert init in cs;
    forall i | 0 <= i < |cs|
      ensures cs[i] == init
    {
      assert cs[i] in t.children && cs[i] != t.idle;
    }
    DistinctWithin(cs, [init]);
    ChainAt(t.links, t.idle, cs, None, 0);
  }

  // ---------------------------------------------------------------------------
  // do_kill
  // ---------------------------------------------------------------------------

  /** What do_kill returns: 0, or an error code. */
  datatype Status = Done | Failed(err: Errno)

  /**
   * do_kill's change to its target: PF_EXITING is set, and the target is
   * woken (wakeup_proc) when its wait_state has the WT_INTERRUPTED bit.
   */
  function Killing(r: Proc, pfExiting: bv32, wtInterrupted: bv32, clears: bool): (k: Proc)
    ensures k.flags == r.flags | pfExiting && k.flags & pfExiting == pfExiting && k.pid == r.pid
    ensures k.state == if r.waitState & wtInterrupted != 0 then Runnable else r.state
    ensures k.waitState == if r.waitState & wtInterrupted != 0 && clears then 0 else r.waitState
    ensures k == r.(flags := k.flags, state := k.state, waitState := k.waitState)
  {
    var r1 := r.(flags := r.flags | pfExiting);
    if r1.waitState & wtInterrupted != 0 then Wakeup(r1, clears) else r1
  }

  /**
   * do_kill(pid) on the records: -E_INVAL when find_proc finds nothing,
   * -E_KILLED when the process already has PF_EXITING set (nothing changes
   * on either path); otherwise the process's record becomes Killing of it
   * and 0 is returned.
   */
  ghost predicate KillEffect(procs: map<Idx, Proc>, hash: map<int, Idx>, procs': map<Idx, Proc>, s: Status,
                             pid: int, pfExiting: bv32, wtInterrupted: bv32, clears: bool, maxPid: int)
    requires forall pid :: pid in hash ==> hash[pid] in procs
  {
    var f := Lookup(hash, pid, maxPid);
    if f.None? then s == Failed(Inval) && procs' == procs
    else if procs[f.value].flags & pfExiting != 0 then s == Failed(Killed) && procs' == procs
    else s == Done && procs' == procs[f.value := Killing(procs[f.value], pfExiting, wtInterrupted, clears)]
  }

  /** do_kill changes the records as KillEffect says, and nothing else. */
  ghost predicate KillOutcome(t: Table, t': Table, s: Status, pid: int, pfExiting: bv32, wtInterrupted: bv32,
                              clears: bool, maxPid: int)
    requires IndexOk(t, maxPid)
  {
    t' == t.(procs := t'.procs) && KillEffect(t.procs, t.hash, t'.procs, s, pid, pfExiting, wtInterrupted, clears, maxPid)
  }

  /** do_kill keeps the table consistent, and initproc as it was. */
  lemma KillKeeps(t: Table, t': Table, s: Status, pid: int, pfExiting: bv32, wtInterrupted: bv32, clears: bool,
                  init: Idx, maxPid: int, maxProcess: int)
    requires CoreOf(t, maxPid, maxProcess) && KillOutcome(t, t', s, pid, pfExiting, wtInterrupted, clears, maxPid)
    ensures CoreOf(t', maxPid, maxProcess)
    ensures InitOk(t, init) ==> InitOk(t', init)
  {
    if s == Done {
      var q := Lookup(t.hash, pid, maxPid).value;
      var k := Killing(t.procs[q], pfExiting, wtInterrupted, clears);
      RecordChanged(t, q, k, maxPid, maxProcess);
      if InitOk(t, init) {
        RecordInit(t, q, k, init);
      }
    }
  }

  /** do_kill finds its target exactly when a listed process holds the pid. */
  lemma KillFound(t: Table, t': Table, s: Status, pid: int, pfExiting: bv32, wtInterrupted: bv32, clears: bool,
                  maxPid: int, maxProcess: int)
    requires CoreOf(t, maxPid, maxProcess) && KillOutcome(t, t', s, pid, pfExiting, wtInterrupted, clears, maxPid)
    ensures s == Failed(Inval) <==> !exists q :: q in t.procList && t.procs[q].pid == pid
  {
    if exists q :: q in t.procList && t.procs[q].pid == pid {
      var q :| q in t.procList && t.procs[q].pid == pid;
      assert Lookup(t.hash, pid, maxPid) == Some(q);
    }
  }

  /** A second do_kill of the same pid fails with -E_KILLED and changes nothing. */
  lemma KillTwice(t: Table, t1: Table, t2: Table, s2: Status, pid: int, pfExiting: bv32, wtInterrupted: bv32,
                  clears: bool, maxPid: int)
    requires IndexOk(t, maxPid) && KillOutcome(t, t1, Done, pid, pfExiting, wtInterrupted, clears, maxPid)
    requires IndexOk(t1, maxPid) && KillOutcome(t1, t2, s2, pid, pfExiting, wtInterrupted, clears, maxPid)
    requires pfExiting != 0
    ensures s2 == Failed(Killed) && t2 == t1
  {
  }

  // ---------------------------------------------------------------------------
  // proc_run
  // ---------------------------------------------------------------------------

  /** Any live process, idle or listed, may become the running one. */
  lemma RunKeeps(t: Table, p: Idx, init: Idx, maxPid: int, maxProcess: int)
    requires CoreOf(t, maxPid, maxProcess) && InitOk(t, init) && (p == t.idle || p in t.procList)
    ensures CoreOf(t.(current := p), maxPid, maxProcess) && InitOk(t.(current := p), init)
  {
    var t' := t.(current := p);
    assert TableOk(t') && TreeOk(t') && IndexOk(t', maxPid) && WindowOk(t', maxPid);
  }

  // ---------------------------------------------------------------------------
  // proc_init
  // ---------------------------------------------------------------------------

  /**
   * The table proc_init builds before it forks init: idle alone, at index
   * 0, with pid 0, runnable, on the boot stack and wanting to be
   * rescheduled; it is the running process, and get_pid starts from
   * MAX_PID.
   */
  function BootTable(maxPid: int): Table
  {
    var idle := FreshProc.(pid := 0, state := Runnable, kstack := true, needResched := true, name := "idle");
    Table(map[0 := idle], map[0 := NoLinks], [], map[0 := []], 1, map[], maxPid, maxPid, 1, 0, 0)
  }

  /** The boot table is consistent. */
  lemma BootOk(maxPid: int, maxProcess: int)
    requires 1 < maxProcess < maxPid
    ensures CoreOf(BootTable(maxPid), maxPid, maxProcess)
  {
    var t := BootTable(maxPid);
    assert PidsOf(t.procs, t.procList) == [];
  }

  /**
   * kernel_thread failing at boot: do_fork reports -E_NO_MEM, and the boot
   * table is left as it was but for the spent arena index.
   */
  lemma BootForkFailed(t': Table, r: ForkResult, kmallocOk: bool, kstackOk: bool, copyMmOk: bool,
                       maxPid: int, maxProcess: int)
    requires 1 < maxProcess < maxPid && !(kmallocOk && kstackOk && copyMmOk)
    requires ForkOutcome(BootTable(maxPid), t', r, kmallocOk, kstackOk, copyMmOk, maxPid, maxProcess)
    ensures r == ForkFailed(NoMem)
    ensures t' == BootTable(maxPid).(nextIdx := t'.nextIdx)
  {
  }

  /**
   * Forking from the boot table with every allocation succeeding: the
   * child is record 1, gets pid 1 and is idle's only child.
   */
  lemma BootForked(t': Table, r: ForkResult, maxPid: int, maxProcess: int)
    requires 1 < maxProcess < maxPid
    requires ForkOutcome(BootTable(maxPid), t', r, true, true, true, maxPid, maxProcess)
    ensures r == Forked(1)
    ensures t'.procs == BootTable(maxPid).procs[1 := ForkedProc(1)] && t'.procList == [1] && t'.nrProcess == 2
    ensures t'.hash == map[1 := 1] && t'.children == map[0 := [1], 1 := []]
    ensures t'.links == map[0 := NoLinks.(cptr := Some(1)), 1 := NoLinks.(parent := Some(0))]
    ensures t'.idle == 0 && t'.current == 0
    ensures IndexOk(t', maxPid)
  {
    var t := BootTable(maxPid);
    assert PidsOf(t.procs, t.procList) == [];
    FirstFreeOfNone(maxPid, maxPid, r.pid);
    var s := Spawned(t);
    assert LinkIn(s.links, 1) == map[0 := NoLinks.(cptr := Some(1)), 1 := NoLinks.(parent := Some(0))];
  }

  /** proc_init's last step: naming record 1 "init" leaves a consistent table in which it is initproc. */
  lemma InitNamed(t': Table, r: ForkResult, maxPid: int, maxProcess: int)
    requires 1 < maxProcess < maxPid
    requires ForkOutcome(BootTable(maxPid), t', r, true, true, true, maxPid, maxProcess)
    ensures 1 in t'.procs
    ensures var t'' := t'.(procs := t'.procs[1 := t'.procs[1].(name := "init")]);
      CoreOf(t'', maxPid, maxProcess) && InitOk(t'', 1)
  {
    BootOk(maxPid, maxProcess);
    ForkKeeps(BootTable(maxPid), t', r, true, true, true, 0, maxPid, maxProcess);
    BootForked(t', r, maxPid, maxProcess);
    RecordChanged(t', 1, t'.procs[1].(name := "init"), maxPid, maxProcess);
  }

  /** With no pid in use and the allocator at its initial state, the first pid is 1. */
  lemma FirstFreeOfNone(lastPid: int, maxPid: int, pid: int)
    requires 0 <= lastPid && 1 < maxPid && lastPid + 1 >= maxPid
    requires FirstFree([], CycleStart(lastPid, maxPid), maxPid, pid)
    ensures pid == 1
  {
    var s := CycleStart(lastPid, maxPid);
    assert Cand(s, 0, maxPid) == 1;
    FirstFreeUnique([], s, maxPid, pid, 1);
  }
}
