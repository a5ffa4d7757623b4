/**
 * The lifecycle operations of the kernel over its process table: boot
 * (proc_init), the pid index, get_pid, do_fork, do_exit, do_wait, do_kill
 * and do_yield. The table lives in the fields of a Kernel object; module
 * ProcTable states its invariants on values and proves the steps.
 */
module Process {
  import opened Common
  import opened Family
  import opened PidAlloc
  import opened ProcTable

  class Kernel {
    /** The process records (all fields but the links), by index. */
    var procs: map<Idx, Proc>
    /** The family links of the records, by index. */
    var links: map<Idx, Link>
    /** proc_list: every process but idle, newest first. */
    var procList: seq<Idx>
    /** The pid index (hash_list), from pid to record. */
    var hash: map<int, Idx>
    var nrProcess: int
    var current: Idx
    const idle: Idx
    /** initproc; it names idle until proc_init has forked init. */
    var init: Idx
    /** get_pid's static last_pid and next_safe. */
    var lastPid: int
    var nextSafe: int
    /** The index kmalloc hands out next. */
    var nextIdx: Idx
    /** The children of idle and of every listed process, youngest first. */
    ghost var children: map<Idx, seq<Idx>>

    const maxPid: int
    const maxProcess: int
    const wtChild: bv32
    const wtInterrupted: bv32
    const pfExiting: bv32
    /** Whether wakeup_proc clears wait_state. */
    const wakeupClears: bool

    /** The table these fields hold. */
    ghost function Tab(): Table
      reads this
    {
      Table(procs, links, procList, children, nrProcess, hash, lastPid, nextSafe, nextIdx, idle, current)
    }

    /** The pids of the listed processes, in list order. */
    function Pids(): seq<int>
      reads this
      requires forall i :: 0 <= i < |procList| ==> procList[i] in procs
    {
      PidsOf(procs, procList)
    }

    /** Everything but initproc is consistent. */
    ghost predicate Core()
      reads this
    {
      wtChild != 0 && CoreOf(Tab(), maxPid, maxProcess)
    }

    ghost predicate Valid()
      reads this
    {
      Core() && InitOk(Tab(), init)
    }

    /** A record that is allocated but neither listed nor part of the family tree. */
    ghost predicate Spare(p: Idx)
      reads this
    {
      p in procs && p in links && p !in children && p !in procList
    }

    // -------------------------------------------------------------------------
    // proc_init
    // -------------------------------------------------------------------------

    /**
     * proc_init, up to kernel_thread: idle gets pid 0, is made runnable,
     * owns the boot stack, wants to be rescheduled and counts as a process;
     * it becomes current. initproc names idle until ForkInit.
     */
    constructor(maxPid: int, maxProcess: int, wtChild: bv32, wtInterrupted: bv32, pfExiting: bv32, wakeupClears: bool)
      requires 1 < maxProcess < maxPid && wtChild != 0
      ensures Core() && Tab() == BootTable(maxPid) && init == idle
      ensures this.maxPid == maxPid && this.maxProcess == maxProcess && this.wakeupClears == wakeupClears
      ensures this.wtChild == wtChild && this.wtInterrupted == wtInterrupted && this.pfExiting == pfExiting
    {
      this.maxPid := maxPid;
      this.maxProcess := maxProcess;
      this.wtChild := wtChild;
      this.wtInterrupted := wtInterrupted;
      this.pfExiting := pfExiting;
      this.wakeupClears := wakeupClears;
      idle := 0;
      procs := map[0 := FreshProc.(pid := 0, state := Runnable, kstack := true, needResched := true, name := "idle")];
      links := map[0 := NoLinks];
      procList := [];
      hash := map[];
      nrProcess := 1;
      current := 0;
      init := 0;
      lastPid, nextSafe := maxPid, maxPid;
      nextIdx := 1;
      children := map[0 := []];
      new;
      BootOk(maxPid, maxProcess);
    }

    /**
     * The rest of proc_init: idle forks init through kernel_thread, with
     * do_fork's allocations succeeding or not as the flags say. When the
     * fork fails (pid <= 0) proc_init panics: `booted` is false and nothing
     * has been published. Otherwise init gets pid 1, is found through the
     * pid index and named "init".
     */
    method ForkInit(kmallocOk: bool, kstackOk: bool, copyMmOk: bool) returns (booted: bool)
      requires Core() && Tab() == BootTable(maxPid) && init == idle
      modifies this
      ensures booted <==> kmallocOk && kstackOk && copyMmOk
      ensures !booted ==> Tab() == BootTable(maxPid).(nextIdx := nextIdx) && init == idle
      ensures booted ==> Valid()
      ensures booted ==> current == idle && procs[idle] == old(procs[idle])
      ensures booted ==> procList == [init] && nrProcess == 2 && hash == map[1 := init]
      ensures booted ==> procs[init].pid == 1 && procs[init].state == Runnable && procs[init].name == "init"
      ensures booted ==> children == map[idle := [init], init := []]
      ensures booted ==> links[idle].cptr == Some(init) && links[init] == Link(Some(idle), None, None, None)
    {
      var r := ForkSteps(kmallocOk, kstackOk, copyMmOk);
      ghost var t1 := Tab();
      if !(kmallocOk && kstackOk && copyMmOk) {
        BootForkFailed(t1, r, kmallocOk, kstackOk, copyMmOk, maxPid, maxProcess);
        return false;
      }
      NameInit(r);
      booted := true;
    }

    /** proc_init after a successful kernel_thread: find_proc(pid) is init, which is named "init". */
    method NameInit(r: ForkResult)
      requires wtChild != 0 && 1 < maxProcess < maxPid
      requires ForkOutcome(BootTable(maxPid), Tab(), r, true, true, true, maxPid, maxProcess)
      modifies this`init, this`procs
      ensures Valid()
      ensures current == idle && procs[idle] == old(procs[idle])
      ensures procList == [init] && nrProcess == 2 && hash == map[1 := init]
      ensures procs[init].pid == 1 && procs[init].state == Runnable && procs[init].name == "init"
      ensures children == map[idle := [init], init := []]
      ensures links[idle].cptr == Some(init) && links[init] == Link(Some(idle), None, None, None)
    {
      ghost var t1 := Tab();
      BootForked(t1, r, maxPid, maxProcess);
      var found := FindProc(r.pid);
      init := found.value;
      procs := procs[init := procs[init].(name := "init")];
      InitNamed(t1, r, maxPid, maxProcess);
    }

    // -------------------------------------------------------------------------
    // The pid index
    // -------------------------------------------------------------------------

    /**
     * find_proc: pids outside (0, MAX_PID) are not looked up; otherwise the
     * indexed process with that pid, if any.
     */
    function FindProc(pid: int): (r: Option<Idx>)
      reads this
      requires IndexOk(Tab(), maxPid) && idle !in procList
      ensures r.Some? <==> exists q :: q in procList && procs[q].pid == pid
      ensures r.Some? ==> r.value in procList && procs[r.value].pid == pid && r.value != idle
    {
      Lookup(hash, pid, maxPid)
    }

    /** hash_proc: index p under its pid. */
    method HashProc(p: Idx)
      requires p in procs
      modifies this`hash
      ensures hash == old(hash)[procs[p].pid := p]
    {
      hash := hash[procs[p].pid := p];
    }

    /** unhash_proc: drop p from the index. */
    method UnhashProc(p: Idx)
      requires p in procs
      modifies this`hash
      ensures hash == old(hash) - {procs[p].pid}
    {
      hash := hash - {procs[p].pid};
    }

    // -------------------------------------------------------------------------
    // get_pid
    // -------------------------------------------------------------------------

    /**
     * get_pid: the first pid after last_pid, in the cycle 1 .. MAX_PID - 1,
     * that no listed process holds; the window above it is free again.
     */
    method GetPid() returns (pid: int)
      requires forall i :: 0 <= i < |procList| ==> procList[i] in procs
      requires 1 <= lastPid <= nextSafe <= maxPid && WindowFree(Pids(), lastPid, nextSafe)
      requires |procList| < maxPid - 1
      modifies this`lastPid, this`nextSafe
      ensures pid == lastPid && 1 <= pid < maxPid && pid !in Pids()
      ensures FirstFree(Pids(), CycleStart(old(lastPid), maxPid), maxPid, pid)
      ensures lastPid < nextSafe <= maxPid && WindowFree(Pids(), lastPid, nextSafe)
    {
      ghost var pids := Pids();
      ghost var s := CycleStart(lastPid, maxPid);
      lastPid := lastPid + 1;
      if lastPid >= maxPid {
        lastPid := 1;
        lastPid, nextSafe := Rescan(PidsOf(procs, procList), maxPid, lastPid);
      } else if lastPid >= nextSafe {
        lastPid, nextSafe := Rescan(PidsOf(procs, procList), maxPid, lastPid);
      } else {
        assert lastPid !in pids;
        assert Cand(s, 0, maxPid) == lastPid;
      }
      pid := lastPid;
    }

    // -------------------------------------------------------------------------
    // do_fork and its helpers
    // -------------------------------------------------------------------------

    /** alloc_proc: a fresh record with every field cleared, or nothing when kmalloc fails. */
    method AllocProc(kmallocOk: bool) returns (p: Option<Idx>)
      modifies this`procs, this`links, this`nextIdx
      ensures !kmallocOk ==> p == None && procs == old(procs) && links == old(links) && nextIdx == old(nextIdx)
      ensures kmallocOk ==> p == Some(old(nextIdx)) && nextIdx == old(nextIdx) + 1
      ensures kmallocOk ==> procs == old(procs)[old(nextIdx) := FreshProc] && links == old(links)[old(nextIdx) := NoLinks]
    {
      if !kmallocOk {
        return None;
      }
      p := Some(nextIdx);
      procs := procs[nextIdx := FreshProc];
      links := links[nextIdx := NoLinks];
      nextIdx := nextIdx + 1;
    }

    /** setup_kstack: give p a kernel stack when alloc_pages succeeds. */
    method SetupKstack(p: Idx, allocOk: bool) returns (ok: bool)
      requires p in procs
      modifies this`procs
      ensures ok == allocOk
      ensures procs == if ok then old(procs)[p := old(procs)[p].(kstack := true)] else old(procs)
    {
      ok := allocOk;
      if ok {
        procs := procs[p := procs[p].(kstack := true)];
      }
    }

    /** put_kstack: release p's kernel stack. */
    method PutKstack(p: Idx)
      requires p in procs
      modifies this`procs
      ensures procs == old(procs)[p := old(procs)[p].(kstack := false)]
    {
      procs := procs[p := procs[p].(kstack := false)];
    }

    /** kfree of a record: it leaves the arena. */
    method Kfree(p: Idx)
      modifies this`procs, this`links
      ensures procs == old(procs) - {p} && links == old(links) - {p}
    {
      procs := procs - {p};
      links := links - {p};
    }

    /** do_fork's error exits: put_kstack when the stack was set up, then kfree. */
    method Unwind(p: Idx, hasStack: bool)
      requires p in procs
      modifies this`procs, this`links
      ensures procs == old(procs) - {p} && links == old(links) - {p}
    {
      if hasStack {
        PutKstack(p);
      }
      Kfree(p);
      assert procs == old(procs) - {p};
    }

    /**
     * set_links: p goes to the front of proc_list, becomes its parent's
     * first child in front of the former first child, and is counted.
     */
    method SetLinks(p: Idx)
      requires p in links && links[p].parent.Some? && links[p].parent.value in links
      requires links[p].parent.value in children
      modifies this`procList, this`links, this`nrProcess, this`children
      ensures var par := old(links[p].parent.value);
        && procList == [p] + old(procList)
        && links == LinkIn(old(links), p)
        && nrProcess == old(nrProcess) + 1
        && children == old(children)[par := [p] + old(children[par])][p := []]
    {
      var par := links[p].parent.value;
      procList := [p] + procList;
      links := LinkIn(links, p);
      children := children[par := [p] + children[par]][p := []];
      nrProcess := nrProcess + 1;
    }

    /**
     * do_fork, called by a process that is not a zombie: it does what
     * ForkOutcome says and keeps the table consistent.
     */
    method Fork(kmallocOk: bool, kstackOk: bool, copyMmOk: bool) returns (r: ForkResult)
      requires Core() && procs[current].state != Zombie
      modifies this
      ensures Core()
      ensures current == old(current) && init == old(init)
      ensures old(InitOk(Tab(), init)) ==> InitOk(Tab(), init)
      ensures ForkOutcome(old(Tab()), Tab(), r, kmallocOk, kstackOk, copyMmOk, maxPid, maxProcess)
    {
      ghost var t0 := Tab();
      r := ForkSteps(kmallocOk, kstackOk, copyMmOk);
      ForkKeeps(t0, Tab(), r, kmallocOk, kstackOk, copyMmOk, init, maxPid, maxProcess);
    }

    /**
     * The steps of do_fork: the process-count check, alloc_proc, the
     * parent link, the wait_state assertion, setup_kstack and copy_mm with
     * their error exits, and then get_pid, hash_proc, set_links and
     * wakeup_proc.
     */
    method ForkSteps(kmallocOk: bool, kstackOk: bool, copyMmOk: bool) returns (r: ForkResult)
      requires TableOk(Tab()) && current in children && maxProcess < maxPid
      requires 1 <= lastPid <= nextSafe <= maxPid && WindowFree(Pids(), lastPid, nextSafe)
      modifies this`procs, this`links, this`procList, this`hash, this`nrProcess, this`children
      modifies this`lastPid, this`nextSafe, this`nextIdx
      ensures ForkOutcome(old(Tab()), Tab(), r, kmallocOk, kstackOk, copyMmOk, maxPid, maxProcess)
    {
      if nrProcess >= maxProcess {
        return ForkFailed(NoFreeProc);
      }
      ghost var t0 := Tab();
      var a := AllocProc(kmallocOk);
      if a.None? {
        return ForkFailed(NoMem);
      }
      ghost var t1 := Tab();
      PidsOfFrame(t0.procs, procs, procList);
      r := ForkChild(a.value, kstackOk, copyMmOk);
      ForkOutcomeOf(t0, t1, Tab(), a.value, r, kstackOk, copyMmOk, maxPid, maxProcess);
    }

    /**
     * do_fork once the child record is allocated: its parent is the
     * caller, whose wait_state must be 0; then setup_kstack, copy_mm and, on
     * success, the publication of the child.
     */
    method ForkChild(p: Idx, kstackOk: bool, copyMmOk: bool) returns (r: ForkResult)
      requires forall i :: 0 <= i < |procList| ==> procList[i] in procs
      requires 1 <= lastPid <= nextSafe <= maxPid && WindowFree(Pids(), lastPid, nextSafe)
      requires |procList| < maxPid - 1
      requires p in procs && procs[p] == FreshProc && p !in procList && p != current
      requires p in links && current in procs && current in links && current in children
      modifies this`procs, this`links, this`procList, this`hash, this`nrProcess, this`children
      modifies this`lastPid, this`nextSafe
      ensures ForkChildOutcome(old(Tab()), Tab(), p, r, kstackOk, copyMmOk, maxPid)
    {
      links := links[p := NoLinks.(parent := Some(current))];
      if procs[current].waitState != 0 {
        return ForkPanicked;
      }
      r := ForkSetup(p, kstackOk, copyMmOk);
      assert old(links)[p := NoLinks.(parent := Some(current))] - {p} == old(links) - {p};
    }

    /**
     * do_fork from setup_kstack on: when the kernel stack or the address
     * space cannot be set up, the stack (if any) and the record are
     * released; otherwise the child is published under a fresh pid.
     */
    method ForkSetup(p: Idx, kstackOk: bool, copyMmOk: bool) returns (r: ForkResult)
      requires forall i :: 0 <= i < |procList| ==> procList[i] in procs
      requires 1 <= lastPid <= nextSafe <= maxPid && WindowFree(Pids(), lastPid, nextSafe)
      requires |procList| < maxPid - 1
      requires p in procs && procs[p] == FreshProc && p !in procList
      requires p in links && links[p].parent == Some(current) && current in links && current in children
      modifies this`procs, this`links, this`procList, this`hash, this`nrProcess, this`children
      modifies this`lastPid, this`nextSafe
      ensures !(kstackOk && copyMmOk) ==>
        r == ForkFailed(NoMem) && Tab() == old(Tab()).(procs := old(procs) - {p}, links := old(links) - {p})
      ensures kstackOk && copyMmOk ==>
        && r.Forked? && 1 <= r.pid < maxPid && r.pid == lastPid && lastPid < nextSafe <= maxPid
        && FirstFree(old(Pids()), CycleStart(old(lastPid), maxPid), maxPid, r.pid)
        && WindowFree(old(Pids()), lastPid, nextSafe)
        && Tab() == Published(old(Tab()), p, ForkedProc(r.pid), lastPid, nextSafe)
    {
      ghost var t1 := Tab();
      var ok := SetupKstack(p, kstackOk);
      if !ok || !copyMmOk {
        Unwind(p, ok);
        return ForkFailed(NoMem);
      }
      PidsOfFrame(t1.procs, procs, procList);
      var pid := Publish(p);
      PublishedOverwrites(t1, p, FreshProc.(kstack := true), ForkedProc(pid), lastPid, nextSafe);
      r := Forked(pid);
    }

    /**
     * The steps of do_fork from get_pid on: the record takes the pid
     * get_pid chooses, is indexed (hash_proc) and linked (set_links), and is
     * woken.
     */
    method Publish(p: Idx) returns (pid: int)
      requires forall i :: 0 <= i < |procList| ==> procList[i] in procs
      requires 1 <= lastPid <= nextSafe <= maxPid && WindowFree(Pids(), lastPid, nextSafe)
      requires |procList| < maxPid - 1
      requires p in procs && p in links && links[p].parent == Some(current)
      requires current in links && current in children
      modifies this`procs, this`links, this`procList, this`hash, this`nrProcess, this`children, this`lastPid, this`nextSafe
      ensures pid == lastPid && 1 <= pid < maxPid && pid !in old(Pids())
      ensures FirstFree(old(Pids()), CycleStart(old(lastPid), maxPid), maxPid, pid)
      ensures lastPid < nextSafe <= maxPid && WindowFree(old(Pids()), lastPid, nextSafe)
      ensures Tab() == Published(old(Tab()), p, Wakeup(old(procs[p]).(pid := pid), wakeupClears), lastPid, nextSafe)
    {
      pid := GetPid();
      procs := procs[p := procs[p].(pid := pid)];
      HashProc(p);
      SetLinks(p);
      procs := procs[p := Wakeup(procs[p], wakeupClears)];
    }

    // -------------------------------------------------------------------------
    // do_exit
    // -------------------------------------------------------------------------

    /**
     * do_exit(error_code), called by the running process: it stops the
     * kernel for idle and init; otherwise the caller becomes a zombie and
     * its children pass to init, as ExitOutcome says. The address space and
     * the final schedule() are not part of this model.
     */
    method Exit(code: int) returns (panicked: bool)
      requires Valid()
      modifies this
      ensures Valid() && init == old(init)
      ensures ExitOutcome(old(Tab()), Tab(), panicked, code, init, wtChild, wakeupClears)
    {
      ghost var t0 := Tab();
      ExitReadyOf(t0, init, maxPid, maxProcess);
      if current == idle || current == init {
        return true;
      }
      ExitLive(code);
      panicked := false;
    }

    /** do_exit for a process other than idle and init: the table becomes Exited and stays consistent. */
    method ExitLive(code: int)
      requires Valid() && current != idle && current != init
      modifies this`procs, this`links, this`children
      ensures Valid()
      ensures Tab() == Exited(old(Tab()), code, init, wtChild, wakeupClears)
    {
      ghost var t0 := Tab();
      ExitReadyOf(t0, init, maxPid, maxProcess);
      ExitParent(t0, init, maxPid, maxProcess);
      ExitSteps(code);
      assert Tab() == Exited(t0, code, init, wtChild, wakeupClears);
      ExitKeeps(t0, Tab(), false, code, init, wtChild, wakeupClears, maxPid, maxProcess);
    }

    /**
     * do_exit's critical section: the caller becomes a zombie with the exit
     * code, its parent is woken when it waits for a child, and then its
     * children pass to init.
     */
    method ExitSteps(code: int)
      requires ExitReady(Tab(), init) && current != idle && current != init && wtChild != 0
      requires FamilyOk(links, children) && init !in children[current] && procs.Keys == links.Keys
      modifies this`procs, this`links, this`children
      ensures procs == ExitedProcs(old(Tab()), code, init, wtChild, wakeupClears)
      ensures links == Reparented(old(links), current, init, |old(children[current])|)
      ensures children == old(children[current := []][init := Reversed(children[current]) + children[init]])
    {
      ghost var ch := children;
      children := ch[current := []][init := Reversed(ch[current]) + ch[init]];
      ZombieSteps(code);
      ReparentChildren(ch);
    }

    /** The caller becomes a zombie with the exit code; its parent is woken when it waits for a child. */
    method ZombieSteps(code: int)
      requires current in procs && current in links && links[current].parent.Some?
      requires links[current].parent.value in procs
      modifies this`procs
      ensures var par := links[current].parent.value;
        var p1 := old(procs)[current := old(procs)[current].(state := Zombie, exitCode := code)];
        procs == if p1[par].waitState == wtChild then p1[par := Wakeup(p1[par], wakeupClears)] else p1
    {
      procs := procs[current := procs[current].(state := Zombie, exitCode := code)];
      var par := links[current].parent.value;
      if procs[par].waitState == wtChild {
        procs := procs[par := Wakeup(procs[par], wakeupClears)];
      }
    }

    /**
     * do_exit's loop: while the caller has a child, its first child leaves
     * the caller's chain and becomes init's first child, with init as its
     * parent; when that child is a zombie and init waits for a child, init
     * is woken.
     */
    method ReparentChildren(ghost ch: map<Idx, seq<Idx>>)
      requires FamilyOk(links, ch) && current in ch && init in ch && current != init
      requires init !in ch[current] && procs.Keys == links.Keys && wtChild != 0
      modifies this`links, this`procs
      ensures links == Reparented(old(links), current, init, |ch[current]|)
      ensures procs == InitWoken(old(procs), init, ch[current], wtChild, wakeupClears)
    {
      ghost var m0, p0 := links, procs;
      ghost var k: nat := 0;
      ExitLoopStart(m0, p0, ch, current, init, wtChild, wakeupClears);
      while links[current].cptr.Some?
        invariant ExitLoop(links, procs, m0, p0, ch, current, init, wtChild, wakeupClears, k)
        decreases |ch[current]| - k
      {
        NextIteration(m0, p0, ch, k);
        k := k + 1;
      }
      ExitLoopDone(links, procs, m0, p0, ch, current, init, wtChild, wakeupClears, k);
    }

    /** Iteration k + 1 of do_exit's loop, from where the loop stands after k. */
    method NextIteration(ghost m0: map<Idx, Link>, ghost p0: map<Idx, Proc>, ghost ch: map<Idx, seq<Idx>>, ghost k: nat)
      requires ExitLoop(links, procs, m0, p0, ch, current, init, wtChild, wakeupClears, k)
      requires links[current].cptr.Some?
      modifies this`links, this`procs
      ensures ExitLoop(links, procs, m0, p0, ch, current, init, wtChild, wakeupClears, k + 1)
    {
      ExitLoopNext(links, procs, m0, p0, ch, current, init, wtChild, wakeupClears, k);
      MoveOne();
    }

    /**
     * One iteration of do_exit's loop: the caller's first child moves to
     * init, which is woken when that child is a zombie and init waits for a
     * child.
     */
    method MoveOne()
      requires CanMove(links, current, init) && links[current].cptr.value in procs && init in procs
      modifies this`links, this`procs
      ensures links == MoveChild(old(links), current, init)
      ensures procs == WakeInit(old(procs), old(links[current].cptr.value), init, wtChild, wakeupClears)
    {
      var c := MoveFirstChild();
      if procs[c].state == Zombie && procs[init].waitState == wtChild {
        procs := procs[init := Wakeup(procs[init], wakeupClears)];
      }
    }

    /** One iteration's pointer work: the caller's first child c moves to the front of init's chain. */
    method MoveFirstChild() returns (c: Idx)
      requires CanMove(links, current, init)
      modifies this`links
      ensures c == old(links[current].cptr.value)
      ensures links == MoveChild(old(links), current, init)
    {
      c := links[current].cptr.value;
      links := links[current := links[current].(cptr := links[c].optr)];
      ghost var m1 := links;
      links := links[c := links[c].(yptr := None)];
      var o := links[init].cptr;
      links := links[c := links[c].(optr := o)];
      assert links == m1[c := m1[c].(yptr := None, optr := o)];
      if o.Some? {
        links := links[o.value := links[o.value].(yptr := Some(c))];
      }
      links := links[c := links[c].(parent := Some(init))];
      links := links[init := links[init].(cptr := Some(c))];
    }
    // -------------------------------------------------------------------------
    // do_wait
    // -------------------------------------------------------------------------

    /**
     * One pass of do_wait(pid, code_store), by a running process: it does
     * what WaitOutcome says, keeps the table consistent and never meets
     * idle or init as the child to reap. codeStore says whether code_store
     * is given and codeOk whether user_mem_check accepts it; the exit code
     * stored is in the result. The schedule() and the retry after sleeping
     * are not part of this model.
     */
    method Wait(pid: int, codeStore: bool, codeOk: bool) returns (r: WaitResult)
      requires Valid()
      modifies this
      ensures Valid() && init == old(init) && r != WaitPanicked
      ensures WaitReady(old(Tab()), maxPid)
      ensures WaitOutcome(old(Tab()), Tab(), r, pid, codeStore, codeOk, init, wtChild, maxPid)
    {
      ghost var t0 := Tab();
      WaitReadyOf(t0, maxPid, maxProcess);
      r := WaitSteps(pid, codeStore, codeOk);
      WaitKeeps(t0, Tab(), r, pid, codeStore, codeOk, init, wtChild, maxPid, maxProcess);
    }

    /** The steps of do_wait: the code_store check, the search for a child, then the reap or the sleep. */
    method WaitSteps(pid: int, codeStore: bool, codeOk: bool) returns (r: WaitResult)
      requires WaitReady(Tab(), maxPid)
      modifies this`procs, this`links, this`procList, this`hash, this`nrProcess, this`children
      ensures WaitOutcome(old(Tab()), Tab(), r, pid, codeStore, codeOk, init, wtChild, maxPid)
    {
      if codeStore && !codeOk {
        return WaitFailed(Inval);
      }
      var target, haskid := SearchChild(pid);
      if target.Some? {
        var p := target.value;
        if p == idle || p == init {
          return WaitPanicked;
        }
        r := Reaped(if codeStore then Some(procs[p].exitCode) else None);
        Reaping(p);
      } else if haskid {
        procs := procs[current := procs[current].(state := Sleeping, waitState := wtChild)];
        r := WaitSlept;
      } else {
        r := WaitFailed(BadProc);
      }
    }

    /**
     * do_wait's search: with pid != 0 the process find_proc returns, when
     * it is a child of the caller; with pid 0 the caller's chain. It finds
     * the child to reap, if any, and whether there is a matching child.
     */
    method SearchChild(pid: int) returns (target: Option<Idx>, haskid: bool)
      requires WaitReady(Tab(), maxPid)
      ensures target == WaitTarget(Tab(), pid, maxPid)
      ensures haskid == HasKid(Tab(), pid, maxPid)
    {
      if pid != 0 {
        var f := FindProc(pid);
        haskid := f.Some? && links[f.value].parent == Some(current);
        target := if haskid && procs[f.value].state == Zombie then f else None;
      } else {
        target, haskid := ScanChildren();
      }
    }

    /**
     * do_wait(0)'s walk down the caller's chain, from cptr along optr: it
     * notes that there is a child and stops at the first zombie.
     */
    method ScanChildren() returns (found: Option<Idx>, haskid: bool)
      requires current in children && ChainOk(links, current, children[current], None)
      requires procs.Keys == links.Keys
      ensures found == FirstZombie(procs, children[current])
      ensures haskid == (children[current] != [])
    {
      ghost var cs := children[current];
      assert forall c :: c in cs ==> c in procs;
      var q := links[current].cptr;
      ghost var k := 0;
      haskid := false;
      while q.Some?
        invariant 0 <= k <= |cs| && q == Head(cs[k..]) && haskid == (k > 0)
        invariant FirstZombie(procs, cs[k..]) == FirstZombie(procs, cs)
        decreases |cs| - k
      {
        ChainAt(links, current, cs, None, k);
        haskid := true;
        if procs[q.value].state == Zombie {
          return q, haskid;
        }
        assert cs[k..][1..] == cs[k + 1..];
        q := links[q.value].optr;
        k := k + 1;
      }
      found := None;
    }

    /** do_wait's reap of child p, on the whole table. */
    method Reaping(p: Idx)
      requires p in procs && p in links && links[p].parent.Some? && links[p].parent.value in children
      modifies this`procs, this`links, this`procList, this`hash, this`nrProcess, this`children
      ensures Tab() == Reap(old(Tab()), p)
    {
      ReapChild(p);
    }

    /**
     * do_wait's reap of child p: unhash_proc, remove_links, put_kstack and
     * kfree.
     */
    method ReapChild(p: Idx)
      requires p in procs && p in links && links[p].parent.Some? && links[p].parent.value in children
      modifies this`procs, this`links, this`procList, this`hash, this`nrProcess, this`children
      ensures procs == old(procs) - {p} && links == LinkOut(old(links), p) - {p}
      ensures procList == Remove(old(procList), p) && nrProcess == old(nrProcess) - 1
      ensures var par := old(links[p].parent.value);
        children == (old(children) - {p})[par := Remove(old(children[par]), p)]
      ensures hash == old(hash) - {old(procs[p].pid)}
    {
      Unlink(p);
      Unwind(p, true);
    }

    /** unhash_proc and remove_links: p leaves the index, proc_list and its parent's chain. */
    method Unlink(p: Idx)
      requires p in procs && p in links && links[p].parent.Some? && links[p].parent.value in children
      modifies this`links, this`procList, this`hash, this`nrProcess, this`children
      ensures var par := old(links[p].parent.value);
        && procList == Remove(old(procList), p) && links == LinkOut(old(links), p)
        && nrProcess == old(nrProcess) - 1
        && children == (old(children) - {p})[par := Remove(old(children[par]), p)]
        && hash == old(hash) - {procs[p].pid}
    {
      UnhashProc(p);
      RemoveLinks(p);
    }

    /**
     * remove_links: p leaves proc_list and its parent's chain (its younger
     * sibling, or else the parent's cptr, takes its older sibling), and is
     * no longer counted.
     */
    method RemoveLinks(p: Idx)
      requires p in links && links[p].parent.Some? && links[p].parent.value in children
      modifies this`procList, this`links, this`nrProcess, this`children
      ensures var par := old(links[p].parent.value);
        && procList == Remove(old(procList), p)
        && links == LinkOut(old(links), p)
        && nrProcess == old(nrProcess) - 1
        && children == (old(children) - {p})[par := Remove(old(children[par]), p)]
    {
      var par := links[p].parent.value;
      procList := Remove(procList, p);
      links := LinkOut(links, p);
      children := (children - {p})[par := Remove(children[par], p)];
      nrProcess := nrProcess - 1;
    }

    // -------------------------------------------------------------------------
    // do_kill, do_yield and proc_run
    // -------------------------------------------------------------------------

    /** do_kill(pid): it does what KillOutcome says and keeps the table consistent. */
    method Kill(pid: int) returns (s: Status)
      requires Valid()
      modifies this`procs
      ensures Valid()
      ensures KillOutcome(old(Tab()), Tab(), s, pid, pfExiting, wtInterrupted, wakeupClears, maxPid)
    {
      ghost var t0 := Tab();
      s := KillSteps(pid);
      KillKeeps(t0, Tab(), s, pid, pfExiting, wtInterrupted, wakeupClears, init, maxPid, maxProcess);
    }

    /**
     * The steps of do_kill: find_proc, the PF_EXITING check, setting the
     * flag and the wake-up of an interruptible wait.
     */
    method KillSteps(pid: int) returns (s: Status)
      requires IndexOk(Tab(), maxPid) && idle !in procList
      modifies this`procs
      ensures KillEffect(old(procs), hash, procs, s, pid, pfExiting, wtInterrupted, wakeupClears, maxPid)
    {
      var f := FindProc(pid);
      if f.None? {
        return Failed(Inval);
      }
      var q := f.value;
      if procs[q].flags & pfExiting != 0 {
        return Failed(Killed);
      }
      procs := procs[q := Killing(procs[q], pfExiting, wtInterrupted, wakeupClears)];
      s := Done;
    }

    /** do_yield: the running process asks to be rescheduled; it returns 0. */
    method Yield() returns (r: int)
      requires Valid()
      modifies this`procs
      ensures Valid() && r == 0
      ensures procs == old(procs)[current := old(procs[current]).(needResched := true)]
    {
      ghost var t0 := Tab();
      procs := procs[current := procs[current].(needResched := true)];
      RecordChanged(t0, current, procs[current], maxPid, maxProcess);
      RecordInit(t0, current, procs[current], init);
      r := 0;
    }

    /** proc_run's effect on the table: p, idle or a listed process, becomes the running one. */
    method ProcRun(p: Idx)
      requires Valid() && (p == idle || p in procList)
      modifies this`current
      ensures Valid() && Tab() == old(Tab()).(current := p)
    {
      RunKeeps(Tab(), p, init, maxPid, maxProcess);
      if p != current {
        current := p;
      }
    }
  }
}
