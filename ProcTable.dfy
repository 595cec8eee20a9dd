/**
 * The process table of project2/xv6-public/proc.c as an object: `ptable.proc`
 * is the array `procs`, and `nextpid`, `nexttid` and `initproc` are fields.
 * Every method scans the array in slot order and updates slots in place,
 * as the C does, and proves that the new table and the value returned are
 * those the functions of ProcSpec give for the old table.  The spinlock is
 * not modelled: each method is one atomic step under `ptable.lock`.
 */
module ProcTable {
  import opened Wrappers
  import opened ProcHeader
  import opened ProcSpec

  class Ptable {
    const procs: array<Proc>
    var nextpid: int
    var nexttid: int
    var initproc: Ref

    /** The value the table holds. */
    ghost function State(): Table
      reads this, procs
    {
      Table(procs[..], nextpid, nexttid, initproc)
    }

    ghost predicate Valid()
      reads this, procs
    {
      procs.Length == NPROC && WellFormed(State())
    }

    /** The zero-initialised static table together with pinit. */
    constructor ()
      ensures Valid() && fresh(procs)
      ensures State() == InitialTable()
    {
      procs := new Proc[NPROC](_ => EmptyProc);
      nextpid, nexttid, initproc := 1, 1, Null;
      new;
      assert procs[..] == InitialTable().procs;
    }

    /** findProcessByPid: the first non-UNUSED slot holding `pid`. */
    method FindProcessByPid(pid: int) returns (p: Ref)
      requires Valid()
      ensures p.Slot? ==> p.index < NPROC && procs[p.index].pid == pid && procs[p.index].state != UNUSED
      ensures p.Slot? ==> forall j :: 0 <= j < p.index ==> !(procs[j].pid == pid && procs[j].state != UNUSED)
      ensures p.Null? <==> forall j :: 0 <= j < NPROC ==> !(procs[j].pid == pid && procs[j].state != UNUSED)
      ensures p == FindSpec(State(), pid)
    {
      var i := 0;
      while i < NPROC
        invariant 0 <= i <= NPROC
        invariant forall j :: 0 <= j < i ==> !(procs[j].pid == pid && procs[j].state != UNUSED)
      {
        if procs[i].pid == pid && procs[i].state != UNUSED {
          FirstFromIs(procs[..], LiveWithPid(pid), 0, i);
          return Slot(i);
        }
        i := i + 1;
      }
      assert forall j :: 0 <= j < NPROC ==> !Matches(LiveWithPid(pid), procs[..][j]);
      return Null;
    }

    /** allocproc: claim the first UNUSED slot; `kstackOk` says whether kalloc succeeded. */
    method AllocProc(kstackOk: bool) returns (p: Ref)
      requires Valid()
      modifies this, procs
      ensures Valid()
      ensures (State(), p) == AllocSpec(old(State()), kstackOk)
    {
      ghost var t := State();
      var i := 0;
      while i < NPROC
        invariant 0 <= i <= NPROC
        invariant forall j :: 0 <= j < i ==> procs[j].state != UNUSED
      {
        if procs[i].state == UNUSED {
          break;
        }
        i := i + 1;
      }
      if i == NPROC {
        assert forall j :: 0 <= j < NPROC ==> !Matches(Unused, procs[..][j]);
        assert (State(), Null) == AllocSpec(t, kstackOk);
        return Null;
      }
      FirstFromIs(procs[..], Unused, 0, i);
      var claimed := procs[i].(state := EMBRYO, pid := nextpid, stackpages := 1, mlimit := 0, tid := 0, mthread := Null);
      procs[i] := claimed;
      nextpid := nextpid + 1;
      assert procs[..] == t.procs[i := claimed];
      if !kstackOk {
        procs[i] := procs[i].(state := UNUSED);
        assert procs[..] == t.procs[i := claimed][i := claimed.(state := UNUSED)];
        assert (State(), Null) == AllocSpec(t, kstackOk);
        return Null;
      }
      assert (State(), Slot(i)) == AllocSpec(t, kstackOk);
      return Slot(i);
    }

    /** userinit's table part; false where the kernel would halt. */
    method UserInit(kstackOk: bool, kvmOk: bool) returns (ok: bool)
      requires Valid()
      modifies this, procs
      ensures Valid()
      ensures (State(), ok) == UserInitSpec(old(State()), kstackOk, kvmOk)
    {
      var p := AllocProc(kstackOk);
      if p.Null? {
        return false;
      }
      initproc := p;
      if !kvmOk {
        return false;
      }
      ghost var t2 := State();
      procs[p.index] := procs[p.index].(sz := PGSIZE);
      procs[p.index] := procs[p.index].(state := RUNNABLE);
      assert procs[..] == t2.procs[p.index := t2.procs[p.index].(sz := PGSIZE, state := RUNNABLE)];
      return true;
    }

    /** growproc(n) called by the process in slot `cur`. */
    method GrowProc(cur: nat, n: int, vmOk: bool) returns (r: int)
      requires Valid() && cur < NPROC && IsInt32(n)
      modifies procs
      ensures Valid()
      ensures (State(), r) == GrowSpec(old(State()), cur, n, vmOk)
    {
      ghost var t := State();
      var m := if procs[cur].mthread.Null? || procs[cur].tid == 0 then cur else procs[cur].mthread.index;
      assert m == GrowTarget(t, cur);
      var sz := procs[m].sz;
      if n > 0 {
        if procs[m].mlimit != 0 && U32(sz + n) > procs[m].mlimit {
          return -1;
        }
        sz := VmResult(vmOk, sz + n);
        if sz == 0 {
          return -1;
        }
      } else if n < 0 {
        sz := VmResult(vmOk, sz + n);
        if sz == 0 {
          return -1;
        }
      } else {
        assert (State(), 0) == GrowSpec(t, cur, n, vmOk);
        return 0;
      }
      procs[m] := procs[m].(sz := sz);
      assert procs[..] == t.procs[m := t.procs[m].(sz := sz)];
      assert (State(), 0) == GrowSpec(t, cur, n, vmOk);
      return 0;
    }

    /** fork called by the process in slot `cur`; `copyOk` says whether copyuvm succeeded. */
    method Fork(cur: nat, kstackOk: bool, copyOk: bool) returns (pid: int)
      requires Valid() && cur < NPROC
      modifies this, procs
      ensures Valid()
      ensures (State(), pid) == ForkSpec(old(State()), cur, kstackOk, copyOk)
    {
      ghost var t := State();
      var np := AllocProc(kstackOk);
      if np.Null? {
        return -1;
      }
      var i := np.index;
      ghost var t1 := State();
      if !copyOk {
        procs[i] := procs[i].(state := UNUSED);
        assert procs[..] == t1.procs[i := t1.procs[i].(state := UNUSED)];
        assert (State(), -1) == ForkSpec(t, cur, kstackOk, copyOk);
        return -1;
      }
      var c := procs[cur];
      var parent := if procs[i].tid == 0 then Slot(cur) else c.mthread;
      procs[i] := procs[i].(sz := c.sz, mlimit := c.mlimit, parent := parent);
      pid := procs[i].pid;
      procs[i] := procs[i].(state := RUNNABLE);
      assert procs[..] == t1.procs[i := t1.procs[i].(sz := c.sz, mlimit := c.mlimit, parent := parent, state := RUNNABLE)];
      assert (State(), pid) == ForkSpec(t, cur, kstackOk, copyOk);
    }

    /** The cleanThread loop of exit and cleanOtherThreadsForExec. */
    method CleanThreadsOf(pid: int, tid: int)
      requires Valid()
      modifies procs
      ensures Valid()
      ensures State() == CleanOthersSpec(old(State()), pid, tid)
    {
      for i := 0 to NPROC
        invariant forall j :: 0 <= j < i ==> procs[j] == (if old(procs[j]).pid == pid && old(procs[j]).tid != tid then CleanSlot(old(procs[j])) else old(procs[j]))
        invariant forall j :: i <= j < NPROC ==> procs[j] == old(procs[j])
      {
        if procs[i].pid == pid && procs[i].tid != tid {
          CleanThread(i);
        }
      }
      assert procs[..] == CleanThreads(old(procs[..]), pid, tid);
    }

    /**
     * exit's reparenting loop: every child of `cur` is handed to init, and
     * init's sleepers are woken at each ZOMBIE child met.
     */
    method PassChildrenToInit(cur: nat)
      requires procs.Length == NPROC && cur < NPROC
      modifies procs
      ensures procs[..] == ExitReparent(old(procs[..]), cur, initproc)
    {
      ghost var ps2 := procs[..];
      ghost var woke := false;
      for i := 0 to NPROC
        invariant woke <==> exists j :: 0 <= j < i && ps2[j].parent == Slot(cur) && ps2[j].state == ZOMBIE
        invariant forall j :: 0 <= j < NPROC ==>
          procs[j] == WakeIf(woke, if j < i then ReparentSlot(ps2[j], cur, initproc) else ps2[j], ChanOf(initproc))
      {
        if procs[i].parent == Slot(cur) {
          procs[i] := procs[i].(parent := initproc);
          if procs[i].state == ZOMBIE {
            Wakeup1(ChanOf(initproc));
            woke := true;
          }
        }
      }
      ExitReparentStep(ps2, cur, initproc, woke, procs[..]);
    }

    /** exit called by the process in slot `cur`. */
    method Exit(cur: nat) returns (outcome: ExitOutcome)
      requires Valid() && cur < NPROC
      modifies procs
      ensures Valid()
      ensures (State(), outcome) == ExitSpec(old(State()), cur)
    {
      if Slot(cur) == initproc {
        return InitExiting;
      }
      ghost var t := State();
      CleanThreadsOf(procs[cur].pid, procs[cur].tid);
      ghost var ps1 := procs[..];
      assert ps1 == CleanThreads(t.procs, t.procs[cur].pid, t.procs[cur].tid);
      assert procs[cur] == t.procs[cur];
      Wakeup1(ChanOf(procs[cur].parent));
      PassChildrenToInit(cur);
      ghost var ps4 := procs[..];
      procs[cur] := procs[cur].(state := ZOMBIE);
      assert procs[..] == ps4[cur := ps4[cur].(state := ZOMBIE)];
      assert (State(), Exited) == ExitSpec(t, cur);
      return Exited;
    }

    /** The first half of sleep: the slot records `chan` and sleeps; control leaves. */
    method Sleep(cur: nat, chan: Chan)
      requires Valid() && cur < NPROC
      modifies procs
      ensures Valid()
      ensures State() == SleepSpec(old(State()), cur, chan)
    {
      procs[cur] := procs[cur].(chan := chan);
      procs[cur] := procs[cur].(state := SLEEPING);
    }

    /** The rest of sleep, once the sleeper is scheduled again: the channel is cleared. */
    method SleepReturn(cur: nat)
      requires Valid() && cur < NPROC
      modifies procs
      ensures Valid()
      ensures State() == SleepReturnSpec(old(State()), cur)
    {
      procs[cur] := procs[cur].(chan := NoChan);
    }

    /** One pass of wait by the process in slot `cur`. */
    method Wait(cur: nat) returns (outcome: ReapOutcome)
      requires Valid() && cur < NPROC
      modifies procs
      ensures Valid()
      ensures (State(), outcome) == WaitSpec(old(State()), cur)
    {
      ghost var t := State();
      var havekids := false;
      var i := 0;
      while i < NPROC
        invariant 0 <= i <= NPROC
        invariant forall j :: 0 <= j < i ==> !(procs[j].parent == Slot(cur) && procs[j].state == ZOMBIE)
        invariant havekids <==> exists j :: 0 <= j < i && procs[j].parent == Slot(cur)
      {
        if procs[i].parent == Slot(cur) {
          havekids := true;
          if procs[i].state == ZOMBIE {
            FirstFromIs(procs[..], ZombieIn(ChildOf(cur)), 0, i);
            var pid := procs[i].pid;
            procs[i] := procs[i].(pid := 0, parent := Null, killed := false, state := UNUSED);
            assert procs[..] == t.procs[i := ReapSlot(t.procs[i])];
            assert (State(), Reaped(pid)) == WaitSpec(t, cur);
            return Reaped(pid);
          }
        }
        i := i + 1;
      }
      assert forall j :: 0 <= j < NPROC ==> !Matches(ZombieIn(ChildOf(cur)), procs[..][j]);
      if !havekids || procs[cur].killed {
        assert !havekids ==> forall j :: 0 <= j < NPROC ==> !Matches(ChildOf(cur), procs[..][j]);
        assert (State(), NoWork) == WaitSpec(t, cur);
        return NoWork;
      }
      Sleep(cur, OnProc(cur));
      assert (State(), Blocked) == WaitSpec(t, cur);
      return Blocked;
    }

    /** One choice of the scheduler loop: the first RUNNABLE slot from `from` is marked RUNNING. */
    method ScheduleNext(from: nat) returns (next: Option<nat>)
      requires Valid() && from <= NPROC
      modifies procs
      ensures Valid()
      ensures (State(), next) == ScheduleSpec(old(State()), from)
    {
      ghost var t := State();
      var i := from;
      while i < NPROC
        invariant from <= i <= NPROC
        invariant forall j :: from <= j < i ==> procs[j].state != RUNNABLE
      {
        if procs[i].state == RUNNABLE {
          FirstFromIs(procs[..], Runnable, from, i);
          procs[i] := procs[i].(state := RUNNING);
          assert procs[..] == t.procs[i := t.procs[i].(state := RUNNING)];
          assert (State(), Some(i)) == ScheduleSpec(t, from);
          return Some(i);
        }
        i := i + 1;
      }
      assert forall j :: from <= j < NPROC ==> !Matches(Runnable, procs[..][j]);
      assert (State(), None) == ScheduleSpec(t, from);
      return None;
    }

    /** yield by the process in slot `cur`, up to the hand-off to the scheduler. */
    method Yield(cur: nat)
      requires Valid() && cur < NPROC
      modifies procs
      ensures Valid()
      ensures State() == YieldSpec(old(State()), cur)
    {
      procs[cur] := procs[cur].(state := RUNNABLE);
    }

    /** wakeup1: every slot SLEEPING on `chan` becomes RUNNABLE. */
    method Wakeup1(chan: Chan)
      requires procs.Length == NPROC
      modifies procs
      ensures procs[..] == ProcSpec.Wakeup(old(procs[..]), chan)
    {
      for i := 0 to NPROC
        invariant forall j :: 0 <= j < i ==> procs[j] == WakeSlot(old(procs[j]), chan)
        invariant forall j :: i <= j < NPROC ==> procs[j] == old(procs[j])
      {
        if procs[i].state == SLEEPING && procs[i].chan == chan {
          procs[i] := procs[i].(state := RUNNABLE);
        }
      }
      assert procs[..] == ProcSpec.Wakeup(old(procs[..]), chan);
    }

    /** wakeup: wakeup1 under the table lock. */
    method Wakeup(chan: Chan)
      requires Valid()
      modifies procs
      ensures Valid()
      ensures State() == WakeupSpec(old(State()), chan)
    {
      Wakeup1(chan);
      assert State() == WakeupSpec(old(State()), chan);
    }

    /** kill(pid): flag the first slot holding `pid`, whatever its state. */
    method Kill(pid: int) returns (r: int)
      requires Valid()
      modifies procs
      ensures Valid()
      ensures (State(), r) == KillSpec(old(State()), pid)
    {
      ghost var t := State();
      var i := 0;
      while i < NPROC
        invariant 0 <= i <= NPROC
        invariant forall j :: 0 <= j < i ==> procs[j].pid != pid
      {
        if procs[i].pid == pid {
          FirstFromIs(procs[..], WithPid(pid), 0, i);
          ghost var p := procs[i];
          procs[i] := procs[i].(killed := true);
          if procs[i].state == SLEEPING {
            procs[i] := procs[i].(state := RUNNABLE);
          }
          assert procs[..] == t.procs[i := p.(killed := true, state := if p.state == SLEEPING then RUNNABLE else p.state)];
          assert (State(), 0) == KillSpec(t, pid);
          return 0;
        }
        i := i + 1;
      }
      assert forall j :: 0 <= j < NPROC ==> !Matches(WithPid(pid), procs[..][j]);
      assert (State(), -1) == KillSpec(t, pid);
      return -1;
    }

    /** setmemorylimit(pid, limit). */
    method SetMemoryLimit(pid: int, limit: int) returns (r: int)
      requires Valid() && IsInt32(limit)
      modifies procs
      ensures Valid()
      ensures (State(), r) == SetLimitSpec(old(State()), pid, limit)
    {
      if pid < 2 {
        return -1;
      }
      if limit < 0 {
        return -1;
      }
      var p := FindProcessByPid(pid);
      if p.Null? {
        return -1;
      }
      var i := p.index;
      if limit < procs[i].sz {
        return -1;
      }
      procs[i] := procs[i].(mlimit := limit);
      return 0;
    }

    /** cleanThread(p) on slot `i`. */
    method CleanThread(i: nat)
      requires Valid() && i < NPROC
      modifies procs
      ensures Valid()
      ensures State() == CleanThreadSpec(old(State()), i)
    {
      procs[i] := procs[i].(state := UNUSED);
      procs[i] := procs[i].(pid := 0, parent := Null, killed := false, tid := 0, mthread := Null);
    }

    /** cleanOtherThreadsForExec(pid, tid): recycle the other threads of an exec-ing process. */
    method CleanOtherThreadsForExec(pid: int, tid: int)
      requires Valid()
      modifies procs
      ensures Valid()
      ensures State() == CleanOthersSpec(old(State()), pid, tid)
    {
      CleanThreadsOf(pid, tid);
    }

    /** makeMainThread(p) on slot `i`. */
    method MakeMainThread(i: nat)
      requires Valid() && i < NPROC
      modifies procs
      ensures Valid()
      ensures State() == MakeMainSpec(old(State()), i)
    {
      procs[i] := procs[i].(mthread := Null, tid := 0);
    }

    /**
     * The first part of thread_create: a slot from allocproc takes the main
     * thread's pid and parent and the fresh tid; `m` is the main thread.
     */
    method CreateSlot(cur: nat, kstackOk: bool) returns (np: Ref, m: nat)
      requires Valid() && cur < NPROC
      modifies this, procs
      ensures Valid()
      ensures (State(), np, m) == CreateSlotSpec(old(State()), cur, kstackOk)
    {
      np := AllocProc(kstackOk);
      if np.Null? {
        return np, cur;
      }
      ghost var t1 := State();
      var i := np.index;
      nextpid := nextpid - 1;
      m := if procs[cur].mthread.Slot? then procs[cur].mthread.index else cur;
      var mt := procs[m];
      procs[i] := procs[i].(parent := mt.parent, pid := mt.pid, tid := nexttid, mthread := Slot(m));
      nexttid := nexttid + 1;
      FreshTidKeepsWellFormed(t1, i, procs[i], State());
    }

    /**
     * thread_create called by the thread in slot `cur`.  `vmOk` says whether
     * allocuvm grew the shared space by two pages, `copyOk` whether copyout
     * wrote the start-up arguments.
     */
    method ThreadCreate(cur: nat, kstackOk: bool, vmOk: bool, copyOk: bool) returns (outcome: CreateOutcome)
      requires Valid() && cur < NPROC
      modifies this, procs
      ensures Valid()
      ensures (State(), outcome) == ThreadCreateSpec(old(State()), cur, kstackOk, vmOk, copyOk)
    {
      var np, m := CreateSlot(cur, kstackOk);
      if np.Null? {
        return CreateFailed;
      }
      outcome := CommitThread(np.index, m, vmOk, copyOk);
    }

    /** The stack set-up and commit of thread_create for the new thread in slot `i`. */
    method CommitThread(i: nat, m: nat, vmOk: bool, copyOk: bool) returns (outcome: CreateOutcome)
      requires Valid() && i < NPROC && m < NPROC
      modifies procs
      ensures Valid()
      ensures (State(), outcome) == CommitSpec(old(State()), i, m, vmOk, copyOk)
    {
      ghost var t := State();
      var sz := VmResult(vmOk, procs[m].sz + 2 * PGSIZE);
      if sz == 0 || !copyOk || (procs[m].mlimit != 0 && sz > procs[m].mlimit) {
        procs[i] := procs[i].(state := UNUSED);
        assert procs[..] == t.procs[i := t.procs[i].(state := UNUSED)];
        assert (State(), CreateFailed) == CommitSpec(t, i, m, vmOk, copyOk);
        return CreateFailed;
      }
      var tid := procs[i].tid;
      StartThread(i, m, sz);
      assert (State(), Created(tid)) == CommitSpec(t, i, m, vmOk, copyOk);
      return Created(tid);
    }

    /** The commit of thread_create: both slots take the new size, the thread becomes RUNNABLE. */
    method StartThread(i: nat, m: nat, sz: nat)
      requires Valid() && i < NPROC && m < NPROC && sz < UINT_RANGE
      modifies procs
      ensures Valid()
      ensures State() == StartSpec(old(State()), i, m, sz)
    {
      ghost var t := State();
      procs[m] := procs[m].(sz := sz);
      ghost var ps2 := procs[..];
      assert ps2 == t.procs[m := t.procs[m].(sz := sz)];
      procs[i] := procs[i].(sz := sz);
      procs[i] := procs[i].(state := RUNNABLE);
      assert procs[..] == ps2[i := ps2[i].(sz := sz, state := RUNNABLE)];
      assert State() == StartSpec(t, i, m, sz);
    }

    /** thread_exit(retval) called by the thread in slot `cur`. */
    method ThreadExit(cur: nat, retval: int) returns (outcome: ExitOutcome)
      requires Valid() && cur < NPROC
      modifies procs
      ensures Valid()
      ensures (State(), outcome) == ThreadExitSpec(old(State()), cur, retval)
    {
      ghost var t := State();
      procs[cur] := procs[cur].(retval := retval);
      ghost var ps1 := procs[..];
      assert ps1 == t.procs[cur := t.procs[cur].(retval := retval)];
      if Slot(cur) == initproc {
        assert (State(), InitExiting) == ThreadExitSpec(t, cur, retval);
        return InitExiting;
      }
      if procs[cur].mthread.Slot? {
        Wakeup1(ChanOf(procs[cur].mthread));
      } else {
        Wakeup1(ChanOf(procs[cur].parent));
      }
      ghost var ps := procs[..];
      procs[cur] := procs[cur].(state := ZOMBIE);
      assert procs[..] == ps[cur := ps[cur].(state := ZOMBIE)];
      assert (State(), Exited) == ThreadExitSpec(t, cur, retval);
      return Exited;
    }

    /** One pass of thread_join(thread) by the thread in slot `cur`; Reaped carries the retval. */
    method ThreadJoin(cur: nat, thread: int) returns (outcome: ReapOutcome)
      requires Valid() && cur < NPROC
      modifies procs
      ensures Valid()
      ensures (State(), outcome) == JoinSpec(old(State()), cur, thread)
    {
      var haveThread := false;
      var i := 0;
      while i < NPROC
        invariant 0 <= i <= NPROC
        invariant forall j :: 0 <= j < i ==> !(procs[j].tid == thread && procs[j].state == ZOMBIE)
        invariant haveThread <==> exists j :: 0 <= j < i && procs[j].tid == thread
      {
        if procs[i].tid == thread {
          haveThread := true;
          if procs[i].state == ZOMBIE {
            FirstFromIs(procs[..], ZombieIn(WithTid(thread)), 0, i);
            var retval := procs[i].retval;
            CleanThread(i);
            return Reaped(retval);
          }
        }
        i := i + 1;
      }
      assert forall j :: 0 <= j < NPROC ==> !Matches(ZombieIn(WithTid(thread)), procs[..][j]);
      if !haveThread || procs[cur].killed {
        assert !haveThread ==> forall j :: 0 <= j < NPROC ==> !Matches(WithTid(thread), procs[..][j]);
        return NoWork;
      }
      Sleep(cur, OnProc(cur));
      return Blocked;
    }
  }
}
