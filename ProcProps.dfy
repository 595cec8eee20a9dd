/**
 * What the operations of project2/xv6-public/proc.c promise, stated over
 * the functions of ProcSpec for every well-formed table: which slot each
 * scan picks, which fields change and which stay, the error results, and
 * how operations combine (sleep then wakeup, thread_exit then thread_join,
 * exit then wait, kill(0) then allocproc).
 */
module ProcProps {
  import opened Wrappers
  import opened ProcHeader
  import opened ProcSpec

  /** All slots but `i` are the same in `ps` and `ps'`. */
  predicate OthersUnchanged(ps: seq<Proc>, ps': seq<Proc>, i: nat)
  {
    |ps| == |ps'| && forall j :: 0 <= j < |ps| && j != i ==> ps'[j] == ps[j]
  }

  // ---------------------------------------------------------------------
  // allocproc and findProcessByPid

  /**
   * allocproc claims the lowest UNUSED slot as an EMBRYO holding the old
   * `nextpid`, with tid 0, no main thread and no limit, and advances
   * `nextpid`.
   */
  lemma AllocClaimsLowestUnused(t: Table, i: nat)
    requires WellFormed(t) && i < NPROC
    requires t.procs[i].state == UNUSED
    requires forall j :: 0 <= j < i ==> t.procs[j].state != UNUSED
    ensures var (t', p) := AllocSpec(t, true);
      && p == Slot(i)
      && t'.procs[i] == t.procs[i].(state := EMBRYO, pid := t.nextpid, stackpages := 1, mlimit := 0, tid := 0, mthread := Null)
      && OthersUnchanged(t.procs, t'.procs, i)
      && t'.nextpid == t.nextpid + 1 && t'.nexttid == t.nexttid && t'.initproc == t.initproc
  {
    FirstFromIs(t.procs, Unused, 0, i);
  }

  /** With no UNUSED slot allocproc returns 0 and nothing changes. */
  lemma AllocFullTable(t: Table, kstackOk: bool)
    requires WellFormed(t)
    requires forall j :: 0 <= j < NPROC ==> t.procs[j].state != UNUSED
    ensures AllocSpec(t, kstackOk) == (t, Null)
  {
  }

  /**
   * When kalloc fails the claimed slot goes back to UNUSED but `nextpid`
   * stays advanced: the pid is used up.
   */
  lemma AllocKstackFailureSkipsPid(t: Table, i: nat)
    requires WellFormed(t) && i < NPROC
    requires t.procs[i].state == UNUSED
    requires forall j :: 0 <= j < i ==> t.procs[j].state != UNUSED
    ensures var (t', p) := AllocSpec(t, false);
      && p == Null
      && t'.nextpid == t.nextpid + 1
      && t'.procs[i].state == UNUSED && t'.procs[i].pid == t.nextpid
      && OthersUnchanged(t.procs, t'.procs, i)
  {
    FirstFromIs(t.procs, Unused, 0, i);
  }

  /** findProcessByPid finds a slot exactly when a non-UNUSED slot holds the pid, and it is the first. */
  lemma FindIsFirstLive(t: Table, pid: int)
    requires WellFormed(t)
    ensures FindSpec(t, pid).Null? <==> forall j :: 0 <= j < NPROC ==> !(t.procs[j].pid == pid && t.procs[j].state != UNUSED)
    ensures FindSpec(t, pid).Slot? ==>
      var i := FindSpec(t, pid).index;
      && i < NPROC && t.procs[i].pid == pid && t.procs[i].state != UNUSED
      && forall j :: 0 <= j < i ==> !(t.procs[j].pid == pid && t.procs[j].state != UNUSED)
  {
    var f := First(t.procs, LiveWithPid(pid));
    if f.None? {
      forall j | 0 <= j < NPROC
        ensures !(t.procs[j].pid == pid && t.procs[j].state != UNUSED)
      {
        assert !Matches(LiveWithPid(pid), t.procs[j]);
      }
    } else {
      assert Matches(LiveWithPid(pid), t.procs[f.value]);
      forall j | 0 <= j < f.value
        ensures !(t.procs[j].pid == pid && t.procs[j].state != UNUSED)
      {
        assert !Matches(LiveWithPid(pid), t.procs[j]);
      }
    }
  }

  // ---------------------------------------------------------------------
  // growproc

  /**
   * growproc works on the main thread: it succeeds exactly when n is 0, or
   * when the growth stays within a non-zero limit and allocuvm/deallocuvm
   * return a non-zero size; otherwise it returns -1 and changes nothing.
   * Success stores the new size in the main thread's slot only.
   */
  lemma GrowOnMainThread(t: Table, cur: nat, n: int, vmOk: bool)
    requires WellFormed(t) && cur < NPROC
    ensures var m := GrowTarget(t, cur);
      var sz := t.procs[m].sz;
      var (t', r) := GrowSpec(t, cur, n, vmOk);
      && (r == 0 || r == -1)
      && (r == 0 <==> n == 0 || (!(n > 0 && t.procs[m].mlimit != 0 && U32(sz + n) > t.procs[m].mlimit) && vmOk && U32(sz + n) != 0))
      && (n > 0 && t.procs[m].mlimit != 0 && U32(sz + n) > t.procs[m].mlimit ==> r == -1)
      && (r == -1 ==> t' == t)
      && (r == 0 ==> n == 0 || t'.procs[m].sz == U32(sz + n))
      && (r == 0 ==> OthersUnchanged(t.procs, t'.procs, m) && t'.procs[m] == t.procs[m].(sz := t'.procs[m].sz))
      && t'.nextpid == t.nextpid && t'.nexttid == t.nexttid
  {
  }

  /** With a limit set, a successful growth never takes the main thread past its limit. */
  lemma GrowRespectsLimit(t: Table, cur: nat, n: int, vmOk: bool)
    requires WellFormed(t) && cur < NPROC && n > 0
    requires t.procs[GrowTarget(t, cur)].mlimit != 0
    ensures var m := GrowTarget(t, cur);
      GrowSpec(t, cur, n, vmOk).1 == 0 ==> GrowSpec(t, cur, n, vmOk).0.procs[m].sz <= t.procs[m].mlimit
  {
  }

  // ---------------------------------------------------------------------
  // fork

  /**
   * fork: with a free slot, a kernel stack and a copied address space, the
   * lowest UNUSED slot becomes a RUNNABLE child with the caller's size and
   * limit, the caller as parent (allocproc has just set the child's tid to
   * 0, so the thread branch of proc.c:252-255 is never taken), and the old
   * `nextpid` as pid, which is returned.  A failed copy puts the slot back
   * to UNUSED and returns -1.
   */
  lemma ForkChild(t: Table, cur: nat, i: nat, copyOk: bool)
    requires WellFormed(t) && cur < NPROC && i < NPROC
    requires t.procs[cur].state != UNUSED
    requires t.procs[i].state == UNUSED
    requires forall j :: 0 <= j < i ==> t.procs[j].state != UNUSED
    ensures var (t', pid) := ForkSpec(t, cur, true, copyOk);
      && OthersUnchanged(t.procs, t'.procs, i)
      && t'.nextpid == t.nextpid + 1
      && (copyOk ==>
            && pid == t.nextpid && pid != -1
            && t'.procs[i].state == RUNNABLE
            && t'.procs[i].pid == t.nextpid
            && t'.procs[i].parent == Slot(cur)
            && t'.procs[i].tid == 0
            && t'.procs[i].sz == t.procs[cur].sz && t'.procs[i].mlimit == t.procs[cur].mlimit)
      && (!copyOk ==> pid == -1 && t'.procs[i].state == UNUSED)
  {
    AllocClaimsLowestUnused(t, i);
  }

  /** fork returns -1 exactly when allocproc or the copy fails; the returned pid is then never -1. */
  lemma ForkFailsIff(t: Table, cur: nat, kstackOk: bool, copyOk: bool)
    requires WellFormed(t) && cur < NPROC
    ensures ForkSpec(t, cur, kstackOk, copyOk).1 == -1 <==>
      (!kstackOk || !copyOk || forall j :: 0 <= j < NPROC ==> t.procs[j].state != UNUSED)
  {
    var f := First(t.procs, Unused);
    if f.Some? {
      assert Matches(Unused, t.procs[f.value]);
      AllocClaimsLowestUnused(t, f.value);
    } else {
      AllocFullTable(t, kstackOk);
    }
  }

  // ---------------------------------------------------------------------
  // exit and wait

  /** exit by initproc is the "init exiting" panic: nothing changes. */
  lemma InitCannotExit(t: Table, cur: nat)
    requires WellFormed(t) && cur < NPROC && t.initproc == Slot(cur)
    ensures ExitSpec(t, cur) == (t, InitExiting)
  {
  }

  /** Whether exit's cleanThread loop recycles slot `j`: same pid, other tid. */
  predicate ExitCleans(t: Table, cur: nat, j: nat)
    requires cur < |t.procs| && j < |t.procs|
  {
    t.procs[j].pid == t.procs[cur].pid && t.procs[j].tid != t.procs[cur].tid
  }

  /**
   * Whether exit hands init a ZOMBIE child that survives the cleanThread
   * loop, which makes it call wakeup1(initproc).
   */
  predicate ExitHandsZombie(t: Table, cur: nat)
    requires |t.procs| == NPROC && cur < NPROC
  {
    exists k :: 0 <= k < NPROC && !ExitCleans(t, cur, k) && t.procs[k].parent == Slot(cur) && t.procs[k].state == ZOMBIE
  }

  /**
   * exit by any other process: the other threads of its process (same pid,
   * other tid) are recycled by cleanThread; every other slot is woken if
   * it sleeps on the caller's parent, handed to initproc if it is the
   * caller's child, and woken again if it sleeps on initproc when a ZOMBIE
   * child was handed over, and nothing else about it changes.  The caller
   * is a ZOMBIE with its other fields kept; the counters stay.
   */
  lemma ExitEffects(t: Table, cur: nat)
    requires WellFormed(t) && cur < NPROC && t.initproc != Slot(cur)
    ensures var (t', outcome) := ExitSpec(t, cur);
      && outcome == Exited
      && t'.procs[cur] == t.procs[cur].(state := ZOMBIE, parent := ReparentSlot(t.procs[cur], cur, t.initproc).parent)
      && (forall j :: 0 <= j < NPROC && ExitCleans(t, cur, j) ==> t'.procs[j] == CleanSlot(t.procs[j]))
      && (forall j :: 0 <= j < NPROC && j != cur && !ExitCleans(t, cur, j) ==>
            t'.procs[j] == WakeIf(ExitHandsZombie(t, cur),
                                  ReparentSlot(WakeSlot(t.procs[j], ChanOf(t.procs[cur].parent)), cur, t.initproc),
                                  ChanOf(t.initproc)))
      && t'.nextpid == t.nextpid && t'.nexttid == t.nexttid && t'.initproc == t.initproc
  {
    forall j | 0 <= j < NPROC && j != cur
    {
      ExitSlot(t, cur, j);
    }
    ExitCallerSlot(t, cur);
  }

  /**
   * exit leaves no slot with the caller as parent: the caller's children
   * that survive the cleanThread loop now have initproc as parent.
   */
  lemma ExitReparentsChildren(t: Table, cur: nat)
    requires WellFormed(t) && cur < NPROC && t.initproc != Slot(cur)
    ensures var t' := ExitSpec(t, cur).0;
      && (forall j :: 0 <= j < NPROC ==> t'.procs[j].parent != Slot(cur))
      && (forall j :: 0 <= j < NPROC && t.procs[j].parent == Slot(cur) && !ExitCleans(t, cur, j) ==>
            t'.procs[j].parent == t.initproc)
  {
    var t' := ExitSpec(t, cur).0;
    forall j | 0 <= j < NPROC && j != cur
      ensures t'.procs[j].parent == ReparentSlot(if ExitCleans(t, cur, j) then CleanSlot(t.procs[j]) else t.procs[j], cur, t.initproc).parent
    {
      ExitSlot(t, cur, j);
    }
    ExitCallerSlot(t, cur);
  }

  /**
   * exit's wakeups: a parent sleeping on its own slot, as wait leaves it,
   * is RUNNABLE afterwards, and so is a sleeping initproc when a ZOMBIE
   * child was handed to it.
   */
  lemma ExitWakesWaiters(t: Table, cur: nat)
    requires WellFormed(t) && cur < NPROC && t.initproc != Slot(cur)
    ensures var t' := ExitSpec(t, cur).0;
      var par := t.procs[cur].parent;
      && (par.Slot? && par.index != cur && !ExitCleans(t, cur, par.index)
          && t.procs[par.index].state == SLEEPING && t.procs[par.index].chan == OnProc(par.index)
          ==> t'.procs[par.index].state == RUNNABLE)
      && (ExitHandsZombie(t, cur) && t.initproc.Slot? && !ExitCleans(t, cur, t.initproc.index)
          && t.procs[t.initproc.index].state == SLEEPING && t.procs[t.initproc.index].chan == OnProc(t.initproc.index)
          ==> t'.procs[t.initproc.index].state == RUNNABLE)
  {
    var par := t.procs[cur].parent;
    if par.Slot? && par.index != cur && !ExitCleans(t, cur, par.index)
       && t.procs[par.index].state == SLEEPING && t.procs[par.index].chan == OnProc(par.index) {
      ExitSlot(t, cur, par.index);
      assert WakeSlot(t.procs[par.index], ChanOf(par)).state == RUNNABLE;
    }
    if ExitHandsZombie(t, cur) && t.initproc.Slot? && !ExitCleans(t, cur, t.initproc.index)
       && t.procs[t.initproc.index].state == SLEEPING && t.procs[t.initproc.index].chan == OnProc(t.initproc.index) {
      ExitSlot(t, cur, t.initproc.index);
    }
  }

  /** exit's wakeup1(initproc) happens exactly when a ZOMBIE child survives the cleanThread loop. */
  lemma ExitZombieHandover(t: Table, cur: nat)
    requires WellFormed(t) && cur < NPROC
    ensures var me := t.procs[cur];
      var ps2 := Wakeup(CleanThreads(t.procs, me.pid, me.tid), ChanOf(me.parent));
      First(ps2, ZombieIn(ChildOf(cur))).Some? <==> ExitHandsZombie(t, cur)
  {
    var me := t.procs[cur];
    var ps1 := CleanThreads(t.procs, me.pid, me.tid);
    var ps2 := Wakeup(ps1, ChanOf(me.parent));
    var f := First(ps2, ZombieIn(ChildOf(cur)));
    if f.Some? {
      var k := f.value;
      assert Matches(ZombieIn(ChildOf(cur)), ps2[k]) && Matches(ChildOf(cur), ps2[k]);
      assert ps1[k] == if ExitCleans(t, cur, k) then CleanSlot(t.procs[k]) else t.procs[k];
      assert ps2[k] == WakeSlot(ps1[k], ChanOf(me.parent));
      assert !ExitCleans(t, cur, k) && t.procs[k].parent == Slot(cur) && t.procs[k].state == ZOMBIE;
    } else if ExitHandsZombie(t, cur) {
      var k :| 0 <= k < NPROC && !ExitCleans(t, cur, k) && t.procs[k].parent == Slot(cur) && t.procs[k].state == ZOMBIE;
      assert ps2[k] == WakeSlot(ps1[k], ChanOf(me.parent));
      assert Matches(ZombieIn(ChildOf(cur)), ps2[k]);
      assert false;
    }
  }

  /** What exit leaves in a slot other than the caller's: clean, wake, reparent, wake init. */
  lemma ExitSlot(t: Table, cur: nat, j: nat)
    requires WellFormed(t) && cur < NPROC && j < NPROC && j != cur && t.initproc != Slot(cur)
    ensures ExitSpec(t, cur).0.procs[j] ==
      WakeIf(ExitHandsZombie(t, cur),
             ReparentSlot(if ExitCleans(t, cur, j) then CleanSlot(t.procs[j]) else WakeSlot(t.procs[j], ChanOf(t.procs[cur].parent)), cur, t.initproc),
             ChanOf(t.initproc))
  {
    var me := t.procs[cur];
    var ps1 := CleanThreads(t.procs, me.pid, me.tid);
    var ps2 := Wakeup(ps1, ChanOf(me.parent));
    var ps3 := Reparent(ps2, cur, t.initproc);
    var ps4 := ExitReparent(ps2, cur, t.initproc);
    ExitZombieHandover(t, cur);
    assert ps1[j] == if ExitCleans(t, cur, j) then CleanSlot(t.procs[j]) else t.procs[j];
    assert ps2[j] == WakeSlot(ps1[j], ChanOf(me.parent));
    assert ps3[j] == ReparentSlot(ps2[j], cur, t.initproc);
    assert ps4[j] == WakeIf(ExitHandsZombie(t, cur), ps3[j], ChanOf(t.initproc));
  }

  /**
   * exit writes only the caller's state and, when the caller is its own
   * child, its parent: it keeps its pid, tid, size, kill flag, main thread
   * and the rest, and becomes a ZOMBIE.
   */
  lemma ExitCallerSlot(t: Table, cur: nat)
    requires WellFormed(t) && cur < NPROC && t.initproc != Slot(cur)
    ensures ExitSpec(t, cur).0.procs[cur] ==
      t.procs[cur].(state := ZOMBIE, parent := ReparentSlot(t.procs[cur], cur, t.initproc).parent)
  {
    var me := t.procs[cur];
    var ps1 := CleanThreads(t.procs, me.pid, me.tid);
    var ps2 := Wakeup(ps1, ChanOf(me.parent));
    var ps3 := Reparent(ps2, cur, t.initproc);
    var ps4 := ExitReparent(ps2, cur, t.initproc);
    var woke := First(ps2, ZombieIn(ChildOf(cur))).Some?;
    assert ps1[cur] == me;
    assert ps2[cur] == WakeSlot(me, ChanOf(me.parent));
    assert ps3[cur] == ReparentSlot(ps2[cur], cur, t.initproc);
    assert ps4[cur] == WakeIf(woke, ps3[cur], ChanOf(t.initproc));
  }

  /**
   * One pass of wait reaps the first ZOMBIE child in slot order: that slot
   * becomes UNUSED with pid 0, no parent and no kill flag, and its pid is
   * returned; every other slot stays.
   */
  lemma WaitReapsFirstZombieChild(t: Table, cur: nat, z: nat)
    requires WellFormed(t) && cur < NPROC && z < NPROC
    requires t.procs[z].parent == Slot(cur) && t.procs[z].state == ZOMBIE
    requires forall j :: 0 <= j < z ==> !(t.procs[j].parent == Slot(cur) && t.procs[j].state == ZOMBIE)
    ensures var (t', outcome) := WaitSpec(t, cur);
      && outcome == Reaped(t.procs[z].pid)
      && t'.procs[z] == t.procs[z].(pid := 0, parent := Null, killed := false, state := UNUSED)
      && OthersUnchanged(t.procs, t'.procs, z)
      && t'.nextpid == t.nextpid && t'.nexttid == t.nexttid
  {
    FirstFromIs(t.procs, ZombieIn(ChildOf(cur)), 0, z);
  }

  /**
   * Without a ZOMBIE child, wait returns -1 exactly when the caller has no
   * child or has been killed, and otherwise sleeps on its own slot.
   */
  lemma WaitWithoutZombie(t: Table, cur: nat)
    requires WellFormed(t) && cur < NPROC
    requires forall j :: 0 <= j < NPROC ==> !(t.procs[j].parent == Slot(cur) && t.procs[j].state == ZOMBIE)
    ensures var (t', outcome) := WaitSpec(t, cur);
      var haveKids := exists j :: 0 <= j < NPROC && t.procs[j].parent == Slot(cur);
      && (outcome == NoWork <==> !haveKids || t.procs[cur].killed)
      && (outcome == NoWork ==> t' == t)
      && (outcome != NoWork ==> outcome == Blocked && t' == SleepSpec(t, cur, OnProc(cur)))
  {
    forall j | 0 <= j < NPROC
      ensures !Matches(ZombieIn(ChildOf(cur)), t.procs[j])
    {
    }
    var f := First(t.procs, ChildOf(cur));
    if f.Some? {
      assert Matches(ChildOf(cur), t.procs[f.value]);
    }
  }

  /**
   * exit and wait are partners: after a process exits, one pass of wait
   * by its parent reaps a child (the first ZOMBIE child, this one or an
   * earlier one).  When no earlier slot is a ZOMBIE child of the parent
   * and the parent is not initproc (which would inherit the exiting
   * process's children), it is the exited process, and wait returns its pid.
   */
  lemma ExitThenParentWaitReaps(t: Table, x: nat, g: nat)
    requires WellFormed(t) && x < NPROC && g < NPROC && g != x
    requires t.initproc != Slot(x) && t.procs[x].parent == Slot(g)
    ensures WaitSpec(ExitSpec(t, x).0, g).1.Reaped?
    ensures t.initproc != Slot(g) && (forall j :: 0 <= j < x ==> !(t.procs[j].parent == Slot(g) && t.procs[j].state == ZOMBIE)) ==>
      WaitSpec(ExitSpec(t, x).0, g).1 == Reaped(t.procs[x].pid)
  {
    var t' := ExitSpec(t, x).0;
    ExitCallerSlot(t, x);
    assert Matches(ZombieIn(ChildOf(g)), t'.procs[x]);
    if t.initproc != Slot(g) && (forall j :: 0 <= j < x ==> !(t.procs[j].parent == Slot(g) && t.procs[j].state == ZOMBIE)) {
      forall j | 0 <= j < x
        ensures !Matches(ZombieIn(ChildOf(g)), t'.procs[j])
      {
        ExitSlot(t, x, j);
      }
      FirstFromIs(t'.procs, ZombieIn(ChildOf(g)), 0, x);
    }
  }

  /** exit leaves the caller's own parent link alone. */
  lemma ExitKeepsOwnParent(t: Table, x: nat)
    requires WellFormed(t) && x < NPROC && t.initproc != Slot(x)
    requires t.procs[x].parent != Slot(x)
    ensures ExitSpec(t, x).0.procs[x].parent == t.procs[x].parent
  {
    ExitCallerSlot(t, x);
  }

  /**
   * A thread's parent is its main thread's parent (proc.c:748), so the
   * grandparent's wait reaps a ZOMBIE secondary thread as if it were a
   * child: the slot becomes UNUSED but keeps its tid and main-thread link.
   */
  lemma WaitReapsThreadOfChild(t: Table, g: nat, z: nat)
    requires WellFormed(t) && g < NPROC && z < NPROC
    requires t.procs[z].tid != 0 && t.procs[z].parent == Slot(g) && t.procs[z].state == ZOMBIE
    requires forall j :: 0 <= j < z ==> !(t.procs[j].parent == Slot(g) && t.procs[j].state == ZOMBIE)
    ensures var (t', outcome) := WaitSpec(t, g);
      && outcome == Reaped(t.procs[z].pid)
      && t'.procs[z].state == UNUSED
      && t'.procs[z].tid == t.procs[z].tid && t'.procs[z].mthread == t.procs[z].mthread
  {
    WaitReapsFirstZombieChild(t, g, z);
  }

  // ---------------------------------------------------------------------
  // sleep and wakeup

  /** wakeup1(c) makes exactly the slots SLEEPING on `c` RUNNABLE and touches nothing else. */
  lemma WakeupExact(t: Table, c: Chan)
    requires WellFormed(t)
    ensures var t' := WakeupSpec(t, c);
      && t'.nextpid == t.nextpid && t'.nexttid == t.nexttid && t'.initproc == t.initproc
      && forall j :: 0 <= j < NPROC ==>
           if t.procs[j].state == SLEEPING && t.procs[j].chan == c
           then t'.procs[j] == t.procs[j].(state := RUNNABLE)
           else t'.procs[j] == t.procs[j]
  {
  }

  /** A second wakeup on the same channel changes nothing. */
  lemma WakeupIdempotent(t: Table, c: Chan)
    requires WellFormed(t)
    ensures WakeupSpec(WakeupSpec(t, c), c) == WakeupSpec(t, c)
  {
    var t1 := WakeupSpec(t, c);
    var t2 := WakeupSpec(t1, c);
    assert t2.procs == t1.procs by {
      forall j | 0 <= j < NPROC
        ensures t2.procs[j] == t1.procs[j]
      {
        assert t1.procs[j] == WakeSlot(t.procs[j], c);
      }
    }
  }

  /**
   * sleep and wakeup are partners: a process that sleeps on `c` is made
   * RUNNABLE by the next wakeup on `c`, still recording `c` until it runs.
   */
  lemma SleepThenWakeup(t: Table, cur: nat, c: Chan)
    requires WellFormed(t) && cur < NPROC
    ensures var t' := WakeupSpec(SleepSpec(t, cur, c), c);
      t'.procs[cur] == t.procs[cur].(state := RUNNABLE, chan := c)
  {
  }

  /** A sleeper on another channel stays asleep. */
  lemma SleepIgnoresOtherWakeup(t: Table, cur: nat, c: Chan, d: Chan)
    requires WellFormed(t) && cur < NPROC && c != d
    ensures WakeupSpec(SleepSpec(t, cur, c), d).procs[cur].state == SLEEPING
  {
  }

  // ---------------------------------------------------------------------
  // kill

  /**
   * kill(pid) succeeds exactly when some slot, UNUSED ones included, holds
   * `pid`; the first such slot is flagged and woken if SLEEPING, and
   * nothing else changes.  On failure nothing changes.
   */
  lemma KillFirstWithPid(t: Table, pid: int)
    requires WellFormed(t)
    ensures var (t', r) := KillSpec(t, pid);
      && (r == 0 || r == -1)
      && (r == 0 <==> exists j :: 0 <= j < NPROC && t.procs[j].pid == pid)
      && (r == -1 ==> t' == t)
      && (r == 0 ==>
            exists i :: 0 <= i < NPROC && t.procs[i].pid == pid
              && (forall j :: 0 <= j < i ==> t.procs[j].pid != pid)
              && t'.procs[i] == t.procs[i].(killed := true, state := if t.procs[i].state == SLEEPING then RUNNABLE else t.procs[i].state)
              && OthersUnchanged(t.procs, t'.procs, i))
  {
    var f := First(t.procs, WithPid(pid));
    if f.Some? {
      assert Matches(WithPid(pid), t.procs[f.value]);
      var i := f.value;
      assert forall j :: 0 <= j < i ==> !Matches(WithPid(pid), t.procs[j]);
    } else {
      assert forall j :: 0 <= j < NPROC ==> !Matches(WithPid(pid), t.procs[j]);
    }
  }

  /**
   * kill(0) can hit a recycled slot: reaped and cleaned slots hold pid 0,
   * and allocproc does not reset `killed`, so when that slot is also the
   * lowest UNUSED one, the next process allocproc creates starts out killed.
   */
  lemma KillZeroPoisonsNextProcess(t: Table, i: nat)
    requires WellFormed(t) && i < NPROC
    requires t.procs[i].state == UNUSED && t.procs[i].pid == 0
    requires forall j :: 0 <= j < i ==> t.procs[j].state != UNUSED && t.procs[j].pid != 0
    ensures var (t1, r) := KillSpec(t, 0);
      var (t2, p) := AllocSpec(t1, true);
      && r == 0
      && p == Slot(i)
      && t2.procs[i].killed
      && t2.procs[i].state == EMBRYO && t2.procs[i].pid == t.nextpid
  {
    FirstFromIs(t.procs, WithPid(0), 0, i);
    var t1 := KillSpec(t, 0).0;
    assert t1.procs[i].state == UNUSED && t1.procs[i].killed;
    assert forall j :: 0 <= j < i ==> t1.procs[j] == t.procs[j];
    FirstFromIs(t1.procs, Unused, 0, i);
  }

  // ---------------------------------------------------------------------
  // setmemorylimit

  /**
   * setmemorylimit returns -1, changing nothing, exactly when the pid is
   * below 2, the limit is negative, no live slot holds the pid, or the
   * limit is below the found slot's size; otherwise it stores the limit in
   * the first live slot holding the pid and returns 0.
   */
  lemma SetLimitCases(t: Table, pid: int, limit: int)
    requires WellFormed(t) && IsInt32(limit)
    ensures var (t', r) := SetLimitSpec(t, pid, limit);
      var f := FindSpec(t, pid);
      && (r == 0 || r == -1)
      && (r == -1 <==> pid < 2 || limit < 0 || f.Null? || limit < t.procs[f.index].sz)
      && (r == -1 ==> t' == t)
      && (r == 0 ==> t'.procs[f.index] == t.procs[f.index].(mlimit := limit) && OthersUnchanged(t.procs, t'.procs, f.index))
  {
    FindIsFirstLive(t, pid);
  }

  /** Setting the same limit twice ends in the same table as setting it once, and succeeds again. */
  lemma SetLimitIdempotent(t: Table, pid: int, limit: int)
    requires WellFormed(t) && IsInt32(limit)
    ensures var (t1, r1) := SetLimitSpec(t, pid, limit);
      var (t2, r2) := SetLimitSpec(t1, pid, limit);
      t2 == t1 && r2 == r1
  {
    var (t1, r1) := SetLimitSpec(t, pid, limit);
    if r1 == 0 {
      FirstFromSameMatches(t.procs, t1.procs, LiveWithPid(pid), 0);
      var i := FindSpec(t, pid).index;
      assert t1.procs[i := t1.procs[i].(mlimit := limit)] == t1.procs;
    } else if pid >= 2 && limit >= 0 {
      assert t1 == t;
    }
  }

  /**
   * setmemorylimit acts on the first live record with the pid.  When that
   * record is a secondary thread, the limit lands on the thread and the
   * main thread, whose `mlimit` growproc checks, keeps its old limit.
   */
  lemma SetLimitOnThreadMissesMain(t: Table, pid: int, limit: int, i: nat, m: nat)
    requires WellFormed(t) && IsInt32(limit) && i < NPROC && m < NPROC && i != m
    requires FindSpec(t, pid) == Slot(i)
    requires t.procs[i].tid != 0 && t.procs[i].mthread == Slot(m)
    ensures SetLimitSpec(t, pid, limit).0.procs[m].mlimit == t.procs[m].mlimit
    ensures GrowTarget(SetLimitSpec(t, pid, limit).0, i) == m
  {
  }

  // ---------------------------------------------------------------------
  // scheduler

  /**
   * The scheduler's scan runs the first RUNNABLE slot at or after `from`,
   * marking it RUNNING and nothing else; with none it changes nothing.
   */
  lemma ScheduleFirstRunnable(t: Table, from: nat)
    requires WellFormed(t) && from <= NPROC
    ensures var (t', next) := ScheduleSpec(t, from);
      && (next.None? <==> forall j :: from <= j < NPROC ==> t.procs[j].state != RUNNABLE)
      && (next.None? ==> t' == t)
      && (next.Some? ==>
            && from <= next.value < NPROC
            && t.procs[next.value].state == RUNNABLE
            && (forall j :: from <= j < next.value ==> t.procs[j].state != RUNNABLE)
            && t'.procs[next.value] == t.procs[next.value].(state := RUNNING)
            && OthersUnchanged(t.procs, t'.procs, next.value))
  {
    var f := FirstFrom(t.procs, Runnable, from);
    if f.Some? {
      assert Matches(Runnable, t.procs[f.value]);
      assert forall j :: from <= j < f.value ==> !Matches(Runnable, t.procs[j]);
    } else {
      assert forall j :: from <= j < NPROC ==> !Matches(Runnable, t.procs[j]);
    }
  }

  /**
   * yield puts the caller back to RUNNABLE, so a scheduler pass that starts
   * at or before the caller's slot (a fresh pass starts at slot 0) runs the
   * caller or a slot before it: the yielding process is not skipped.
   */
  lemma YieldThenSchedule(t: Table, cur: nat)
    requires WellFormed(t) && cur < NPROC
    ensures forall from :: 0 <= from <= cur ==>
      var next := ScheduleSpec(YieldSpec(t, cur), from).1;
      next.Some? && from <= next.value <= cur
  {
    var t' := YieldSpec(t, cur);
    assert t'.procs[cur].state == RUNNABLE;
    forall from | 0 <= from <= cur
      ensures var next := ScheduleSpec(t', from).1; next.Some? && from <= next.value <= cur
    {
      var f := FirstFrom(t'.procs, Runnable, from);
      assert Matches(Runnable, t'.procs[cur]);
    }
  }

  // ---------------------------------------------------------------------
  // Threads

  /**
   * thread_create takes the lowest UNUSED slot for the new thread, which
   * gets the main thread's pid and parent, the main thread as `mthread` and
   * the id `nexttid`; `nextpid` ends where it was and `nexttid` advances,
   * whatever happens next, and no other slot but the main thread's changes.
   * On failure the slot keeps the pid, tid and parent just given.
   */
  lemma ThreadCreateEffects(t: Table, cur: nat, i: nat, vmOk: bool, copyOk: bool)
    requires WellFormed(t) && cur < NPROC && i < NPROC
    requires t.procs[cur].state != UNUSED && t.procs[CreateTarget(t, cur)].state != UNUSED
    requires t.procs[i].state == UNUSED
    requires forall j :: 0 <= j < i ==> t.procs[j].state != UNUSED
    ensures var m := CreateTarget(t, cur);
      var mt := t.procs[m];
      var t' := ThreadCreateSpec(t, cur, true, vmOk, copyOk).0;
      && m != i
      && t'.nextpid == t.nextpid && t'.nexttid == t.nexttid + 1
      && t'.procs[i].pid == mt.pid && t'.procs[i].tid == t.nexttid
      && t'.procs[i].parent == mt.parent && t'.procs[i].mthread == Slot(m)
      && (forall j :: 0 <= j < NPROC && j != i && j != m ==> t'.procs[j] == t.procs[j])
  {
    AllocClaimsLowestUnused(t, i);
  }

  /** The allocation step of thread_create on its own. */
  lemma CreateSlotEffects(t: Table, cur: nat, i: nat)
    requires WellFormed(t) && cur < NPROC && i < NPROC
    requires t.procs[cur].state != UNUSED && t.procs[CreateTarget(t, cur)].state != UNUSED
    requires t.procs[i].state == UNUSED
    requires forall j :: 0 <= j < i ==> t.procs[j].state != UNUSED
    ensures var m := CreateTarget(t, cur);
      var (t1, np, m') := CreateSlotSpec(t, cur, true);
      && np == Slot(i) && m' == m && m != i
      && t1.procs[m] == t.procs[m] && t1.procs[i].tid == t.nexttid
      && t1.nextpid == t.nextpid && t1.nexttid == t.nexttid + 1
      && t1.procs[i].pid == t.procs[m].pid && t1.procs[i].parent == t.procs[m].parent
      && t1.procs[i].mthread == Slot(m)
      && (forall j :: 0 <= j < NPROC && j != i ==> t1.procs[j] == t.procs[j])
  {
    AllocClaimsLowestUnused(t, i);
  }

  /** The commit step of thread_create on its own, for a thread slot `i` apart from its main thread `m`. */
  lemma CommitCases(t: Table, i: nat, m: nat, vmOk: bool, copyOk: bool)
    requires WellFormed(t) && i < NPROC && m < NPROC && i != m
    ensures var mt := t.procs[m];
      var sz := VmResult(vmOk, mt.sz + 2 * PGSIZE);
      var ok := sz != 0 && copyOk && !(mt.mlimit != 0 && sz > mt.mlimit);
      var r := CommitSpec(t, i, m, vmOk, copyOk);
      && (r.1 == Created(t.procs[i].tid) <==> ok)
      && (r.1 != Created(t.procs[i].tid) ==> r.1 == CreateFailed)
      && (ok ==> vmOk && r.0.procs[m] == mt.(sz := U32(mt.sz + 2 * PGSIZE)))
      && (ok ==> r.0.procs[i].state == RUNNABLE && r.0.procs[i].sz == r.0.procs[m].sz)
      && (!ok ==> r.0.procs[i].state == UNUSED && r.0.procs[m] == mt)
  {
  }

  /**
   * thread_create succeeds, handing out the fresh tid, exactly when allocuvm
   * and copyout succeed and the grown size is within the main thread's
   * limit; then the main thread and the new thread share the grown size and
   * the new thread is RUNNABLE, and otherwise the slot is UNUSED again and
   * the main thread unchanged.
   */
  lemma ThreadCreateOutcome(t: Table, cur: nat, i: nat, vmOk: bool, copyOk: bool)
    requires WellFormed(t) && cur < NPROC && i < NPROC
    requires t.procs[cur].state != UNUSED && t.procs[CreateTarget(t, cur)].state != UNUSED
    requires t.procs[i].state == UNUSED
    requires forall j :: 0 <= j < i ==> t.procs[j].state != UNUSED
    ensures var m := CreateTarget(t, cur);
      var mt := t.procs[m];
      var sz := VmResult(vmOk, mt.sz + 2 * PGSIZE);
      var ok := sz != 0 && copyOk && !(mt.mlimit != 0 && sz > mt.mlimit);
      var r := ThreadCreateSpec(t, cur, true, vmOk, copyOk);
      && (r.1 == Created(t.nexttid) <==> ok)
      && (r.1 != Created(t.nexttid) ==> r.1 == CreateFailed)
      && (ok ==> vmOk && r.0.procs[m] == mt.(sz := U32(mt.sz + 2 * PGSIZE)))
      && (ok ==> r.0.procs[i].state == RUNNABLE && r.0.procs[i].sz == r.0.procs[m].sz)
      && (!ok ==> r.0.procs[i].state == UNUSED && r.0.procs[m] == mt)
  {
    AllocClaimsLowestUnused(t, i);
    CreateSlotEffects(t, cur, i);
    var (t1, np, m) := CreateSlotSpec(t, cur, true);
    assert ThreadCreateSpec(t, cur, true, vmOk, copyOk) == CommitSpec(t1, i, m, vmOk, copyOk);
    CommitCases(t1, i, m, vmOk, copyOk);
  }

  /**
   * thread_exit stores the return value first, even when the caller is
   * initproc and the kernel panics; otherwise the caller becomes a ZOMBIE
   * and the sleepers on its main thread (or, for a main thread, on its
   * parent) are woken.
   */
  lemma ThreadExitEffects(t: Table, cur: nat, retval: int)
    requires WellFormed(t) && cur < NPROC
    ensures var (t', outcome) := ThreadExitSpec(t, cur, retval);
      var me := t.procs[cur];
      var c := if me.mthread.Slot? then ChanOf(me.mthread) else ChanOf(me.parent);
      && t'.procs[cur].retval == retval
      && (outcome == InitExiting <==> t.initproc == Slot(cur))
      && (outcome == InitExiting ==> t'.procs == t.procs[cur := me.(retval := retval)])
      && (outcome == Exited ==>
            && t'.procs[cur].state == ZOMBIE
            && forall j :: 0 <= j < NPROC && j != cur ==> t'.procs[j] == WakeSlot(t.procs[j], c))
      && t'.nextpid == t.nextpid && t'.nexttid == t.nexttid
  {
  }

  /** One pass of thread_join on a ZOMBIE with the tid returns its retval and cleans its slot. */
  lemma JoinReapsFirstZombie(t: Table, cur: nat, tid: int, z: nat)
    requires WellFormed(t) && cur < NPROC && z < NPROC
    requires t.procs[z].tid == tid && t.procs[z].state == ZOMBIE
    requires forall j :: 0 <= j < z ==> !(t.procs[j].tid == tid && t.procs[j].state == ZOMBIE)
    ensures var (t', outcome) := JoinSpec(t, cur, tid);
      && outcome == Reaped(t.procs[z].retval)
      && t'.procs[z] == CleanSlot(t.procs[z]) && t'.procs[z].tid == 0
      && OthersUnchanged(t.procs, t'.procs, z)
  {
    FirstFromIs(t.procs, ZombieIn(WithTid(tid)), 0, z);
  }

  /** Joining a tid no slot holds returns -1 and changes nothing. */
  lemma JoinAbsentFails(t: Table, cur: nat, tid: int)
    requires WellFormed(t) && cur < NPROC
    requires forall j :: 0 <= j < NPROC ==> t.procs[j].tid != tid
    ensures JoinSpec(t, cur, tid) == (t, NoWork)
  {
    assert forall j :: 0 <= j < NPROC ==> !Matches(WithTid(tid), t.procs[j]);
    assert forall j :: 0 <= j < NPROC ==> !Matches(ZombieIn(WithTid(tid)), t.procs[j]);
  }

  /**
   * Without a ZOMBIE holding the tid, thread_join returns -1 exactly when
   * no slot holds the tid or the caller has been killed, and otherwise
   * sleeps on its own slot.
   */
  lemma JoinWithoutZombie(t: Table, cur: nat, tid: int)
    requires WellFormed(t) && cur < NPROC
    requires forall j :: 0 <= j < NPROC ==> !(t.procs[j].tid == tid && t.procs[j].state == ZOMBIE)
    ensures var (t', outcome) := JoinSpec(t, cur, tid);
      var haveThread := exists j :: 0 <= j < NPROC && t.procs[j].tid == tid;
      && (outcome == NoWork <==> !haveThread || t.procs[cur].killed)
      && (outcome == NoWork ==> t' == t)
      && (outcome != NoWork ==> outcome == Blocked && t' == SleepSpec(t, cur, OnProc(cur)))
  {
    forall j | 0 <= j < NPROC
      ensures !Matches(ZombieIn(WithTid(tid)), t.procs[j])
    {
    }
    var f := First(t.procs, WithTid(tid));
    if f.Some? {
      assert Matches(WithTid(tid), t.procs[f.value]);
    }
  }

  /**
   * A nonzero thread id names one slot at most, and a successful join
   * clears it, so joining the same id again returns -1.
   */
  lemma JoinTwiceFails(t: Table, cur: nat, tid: int)
    requires WellFormed(t) && cur < NPROC && tid != 0
    requires JoinSpec(t, cur, tid).1.Reaped?
    ensures JoinSpec(JoinSpec(t, cur, tid).0, cur, tid).1 == NoWork
  {
    assert First(t.procs, ZombieIn(WithTid(tid))).Some?;
    var z := First(t.procs, ZombieIn(WithTid(tid))).value;
    assert Matches(ZombieIn(WithTid(tid)), t.procs[z]);
    assert Matches(WithTid(tid), t.procs[z]);
    var t' := JoinSpec(t, cur, tid).0;
    assert t' == CleanThreadSpec(t, z);
    assert TidsUnique(t.procs);
    forall j | 0 <= j < NPROC
      ensures t'.procs[j].tid != tid
    {
      if j != z {
        assert t.procs[j].tid != t.procs[z].tid;
      }
    }
    JoinAbsentFails(t', cur, tid);
  }

  /**
   * thread_exit and thread_join are partners: once a secondary thread has
   * exited, a join of its id returns the value it passed to thread_exit.
   */
  lemma JoinAfterThreadExit(t: Table, x: nat, cur: nat, retval: int)
    requires WellFormed(t) && x < NPROC && cur < NPROC
    requires t.procs[x].tid != 0 && t.initproc != Slot(x)
    ensures var t1 := ThreadExitSpec(t, x, retval).0;
      JoinSpec(t1, cur, t.procs[x].tid).1 == Reaped(retval)
  {
    var tid := t.procs[x].tid;
    var t1 := ThreadExitSpec(t, x, retval).0;
    ThreadExitEffects(t, x, retval);
    forall j | 0 <= j < x
      ensures !(t1.procs[j].tid == tid && t1.procs[j].state == ZOMBIE)
    {
      assert t.procs[j].tid != tid;
    }
    JoinReapsFirstZombie(t1, cur, tid, x);
  }

  /**
   * exec by a secondary thread: cleanOtherThreadsForExec recycles every
   * other slot of the process (pid 0, tid 0, UNUSED) and makeMainThread
   * makes the caller a main thread, so no other slot holds the pid
   * afterwards and growproc then works on the caller itself.
   */
  lemma ExecFromThreadLeavesOnlyCaller(t: Table, i: nat)
    requires WellFormed(t) && i < NPROC
    requires t.procs[i].tid != 0 && t.procs[i].pid != 0
    ensures var p := t.procs[i];
      var t' := MakeMainSpec(CleanOthersSpec(t, p.pid, p.tid), i);
      && t'.procs[i] == p.(mthread := Null, tid := 0)
      && (forall j :: 0 <= j < NPROC && j != i ==> t'.procs[j].pid != p.pid)
      && (forall j :: 0 <= j < NPROC && j != i && t.procs[j].pid == p.pid ==> t'.procs[j] == CleanSlot(t.procs[j]))
      && (forall j :: 0 <= j < NPROC && t.procs[j].pid != p.pid ==> t'.procs[j] == t.procs[j])
      && GrowTarget(t', i) == i
  {
    var p := t.procs[i];
    forall j | 0 <= j < NPROC && j != i && t.procs[j].pid == p.pid
      ensures t.procs[j].tid != p.tid
    {
    }
  }
}
