/**
 * A functional specification of the process table of
 * project2/xv6-public/proc.c.  Each operation is a function from the table
 * before the operation (the NPROC slots plus the counters `nextpid`,
 * `nexttid` and the pointer `initproc`) to the table after it and the
 * value the C function returns.  The collaborators (kalloc, copyuvm,
 * allocuvm, deallocuvm, copyout, setupkvm) contribute only their success
 * or failure; myproc() is the slot index `cur`.  Blocking operations run
 * one pass of their scan and, when they would call sleep, end with the
 * caller SLEEPING on its channel: control has left.
 *
 * The class in ProcTable.dfy runs the same operations in place, loop by
 * loop, and proves that it computes these functions; the lemmas here state
 * what the operations promise.
 */
module ProcSpec {
  import opened Wrappers
  import opened ProcHeader

  /** 2^32: C `uint` arithmetic wraps modulo this. */
  const UINT_RANGE: nat := 0x1_0000_0000
  const INT_MAX: int := 0x7fff_ffff
  const INT_MIN: int := -0x8000_0000

  /** A C `uint` result of an integer computation. */
  function U32(x: int): (u: nat)
    ensures u < UINT_RANGE
    ensures 0 <= x < UINT_RANGE ==> u == x
  {
    x % UINT_RANGE
  }

  predicate IsInt32(x: int) { INT_MIN <= x <= INT_MAX }

  /** The state of `ptable` together with the globals next to it. */
  datatype Table = Table(procs: seq<Proc>, nextpid: int, nexttid: int, initproc: Ref)

  predicate RefOk(r: Ref) { r.Slot? ==> r.index < NPROC }

  /** The per-slot part of the table invariant. */
  predicate SlotOk(p: Proc, nexttid: int)
  {
    && RefOk(p.parent) && RefOk(p.mthread)
    && 0 <= p.mlimit <= INT_MAX
    && p.sz < UINT_RANGE
    && 0 <= p.tid < nexttid
  }

  /**
   * The table invariant: NPROC slots whose pointers stay inside the table,
   * limits that are non-negative `int`s, sizes that are `uint`s, and thread
   * ids that were handed out by `nexttid++` and are never shared by two
   * slots (tid 0, the main-thread id, excepted).
   */
  predicate WellFormed(t: Table)
  {
    && |t.procs| == NPROC
    && RefOk(t.initproc)
    && t.nextpid >= 1 && t.nexttid >= 1
    && (forall i :: 0 <= i < |t.procs| ==> SlotOk(t.procs[i], t.nexttid))
    && TidsUnique(t.procs)
  }

  predicate TidsUnique(ps: seq<Proc>)
  {
    forall i, j :: 0 <= i < |ps| && 0 <= j < |ps| && i != j && ps[i].tid != 0 ==> ps[i].tid != ps[j].tid
  }

  /** The zero-initialised static table before userinit. */
  function InitialTable(): (t: Table)
    ensures WellFormed(t)
    ensures forall i :: 0 <= i < NPROC ==> t.procs[i].state == UNUSED
  {
    Table(seq(NPROC, _ => EmptyProc), 1, 1, Null)
  }

  // ---------------------------------------------------------------------
  // Slot-order scans

  /** The conditions under which the scans of proc.c stop at a slot. */
  datatype Query =
    | Unused                 // allocproc
    | LiveWithPid(pid: int)  // findProcessByPid
    | WithPid(pid: int)      // kill (UNUSED slots included)
    | Runnable               // scheduler
    | ChildOf(slot: nat)     // wait: p->parent == curproc
    | WithTid(tid: int)      // thread_join: p->tid == thread
    | ZombieIn(q: Query)     // a ZOMBIE slot that also matches q

  predicate Matches(q: Query, p: Proc)
  {
    match q
    case Unused => p.state == UNUSED
    case LiveWithPid(pid) => p.pid == pid && p.state != UNUSED
    case WithPid(pid) => p.pid == pid
    case Runnable => p.state == RUNNABLE
    case ChildOf(s) => p.parent == Slot(s)
    case WithTid(tid) => p.tid == tid
    case ZombieIn(q') => Matches(q', p) && p.state == ZOMBIE
  }

  /** The first slot at or after `from` that matches `q`. */
  function FirstFrom(ps: seq<Proc>, q: Query, from: nat): (r: Option<nat>)
    requires from <= |ps|
    ensures r.Some? ==> from <= r.value < |ps| && Matches(q, ps[r.value])
    ensures r.Some? ==> forall j :: from <= j < r.value ==> !Matches(q, ps[j])
    ensures r.None? ==> forall j :: from <= j < |ps| ==> !Matches(q, ps[j])
    decreases |ps| - from
  {
    if from == |ps| then None
    else if Matches(q, ps[from]) then Some(from)
    else FirstFrom(ps, q, from + 1)
  }

  function First(ps: seq<Proc>, q: Query): Option<nat>
  {
    FirstFrom(ps, q, 0)
  }

  /** A matching slot with no match before it is the one the scan stops at. */
  lemma FirstFromIs(ps: seq<Proc>, q: Query, from: nat, k: nat)
    requires from <= k < |ps| && Matches(q, ps[k])
    requires forall j :: from <= j < k ==> !Matches(q, ps[j])
    ensures FirstFrom(ps, q, from) == Some(k)
  {
  }

  /** The scan result depends only on which slots match. */
  lemma {:induction false} FirstFromSameMatches(ps: seq<Proc>, ps': seq<Proc>, q: Query, from: nat)
    requires |ps| == |ps'| && from <= |ps|
    requires forall j :: 0 <= j < |ps| ==> (Matches(q, ps[j]) <==> Matches(q, ps'[j]))
    ensures FirstFrom(ps, q, from) == FirstFrom(ps', q, from)
    decreases |ps| - from
  {
    if from < |ps| {
      FirstFromSameMatches(ps, ps', q, from + 1);
    }
  }

  function Put(t: Table, i: nat, p: Proc): Table
    requires i < |t.procs|
  {
    t.(procs := t.procs[i := p])
  }

  // ---------------------------------------------------------------------
  // Slot updates shared by several operations

  /** wakeup1 on one slot. */
  function WakeSlot(p: Proc, c: Chan): Proc
  {
    if p.state == SLEEPING && p.chan == c then p.(state := RUNNABLE) else p
  }

  /** wakeup1(chan) / wakeup(chan): proc.c:530-546. */
  function Wakeup(ps: seq<Proc>, c: Chan): seq<Proc>
  {
    seq(|ps|, j requires 0 <= j < |ps| => WakeSlot(ps[j], c))
  }

  /** cleanThread(p): proc.c:651-662. */
  function CleanSlot(p: Proc): Proc
  {
    p.(state := UNUSED, pid := 0, parent := Null, killed := false, tid := 0, mthread := Null)
  }

  /** The reaping done inside wait: proc.c:362-370 (tid and mthread stay). */
  function ReapSlot(p: Proc): Proc
  {
    p.(pid := 0, parent := Null, killed := false, state := UNUSED)
  }

  /** cleanThread applied to every slot with `pid` and a tid other than `tid`. */
  function CleanThreads(ps: seq<Proc>, pid: int, tid: int): seq<Proc>
  {
    seq(|ps|, j requires 0 <= j < |ps| => if ps[j].pid == pid && ps[j].tid != tid then CleanSlot(ps[j]) else ps[j])
  }

  /** A child of `cur` handed to init (proc.c:327-329). */
  function ReparentSlot(p: Proc, cur: nat, init: Ref): Proc
  {
    if p.parent == Slot(cur) then p.(parent := init) else p
  }

  /** Children of `cur` handed to init: proc.c:325-333, parent field only. */
  function Reparent(ps: seq<Proc>, cur: nat, init: Ref): seq<Proc>
  {
    seq(|ps|, j requires 0 <= j < |ps| => ReparentSlot(ps[j], cur, init))
  }

  /** WakeSlot when `b` holds. */
  function WakeIf(b: bool, p: Proc, c: Chan): Proc
  {
    if b then WakeSlot(p, c) else p
  }

  // ---------------------------------------------------------------------
  // Operations

  /** allocproc (proc.c:97-145); `kstackOk` is whether kalloc succeeded. */
  function AllocSpec(t: Table, kstackOk: bool): (r: (Table, Ref))
    requires WellFormed(t)
    ensures WellFormed(r.0)
  {
    match First(t.procs, Unused)
    case None => (t, Null)
    case Some(i) =>
      var p := t.procs[i].(state := EMBRYO, pid := t.nextpid, stackpages := 1, mlimit := 0, tid := 0, mthread := Null);
      var t1 := Table(t.procs[i := p], t.nextpid + 1, t.nexttid, t.initproc);
      assert TidsUnique(t1.procs) by { TidsUniqueAfterPut(t.procs, i, p); }
      if kstackOk then (t1, Slot(i))
      else
        var t2 := Put(t1, i, p.(state := UNUSED));
        assert TidsUnique(t2.procs) by { TidsUniqueAfterPut(t1.procs, i, p.(state := UNUSED)); }
        (t2, Null)
  }

  /** wakeup1 / wakeup (proc.c:530-546) on the whole table. */
  function WakeupSpec(t: Table, c: Chan): (r: Table)
    requires WellFormed(t)
    ensures WellFormed(r)
  {
    var r := t.(procs := Wakeup(t.procs, c));
    assert TidsUnique(r.procs) by { TidsUniqueAfterTidsCleared(t.procs, r.procs); }
    r
  }

  /** findProcessByPid (proc.c:72-90). */
  function FindSpec(t: Table, pid: int): (r: Ref)
  {
    match First(t.procs, LiveWithPid(pid))
    case None => Null
    case Some(i) => Slot(i)
  }

  /**
   * userinit's table part (proc.c:149-182): allocate the first slot, make
   * it `initproc`, give it one page and mark it RUNNABLE.  Returns false
   * where the kernel would halt: allocproc failing (the C then dereferences
   * the null result) or setupkvm failing (a panic).
   */
  function UserInitSpec(t: Table, kstackOk: bool, kvmOk: bool): (r: (Table, bool))
    requires WellFormed(t)
    ensures WellFormed(r.0)
  {
    var (t1, p) := AllocSpec(t, kstackOk);
    if p.Null? then (t1, false)
    else
      var t2 := t1.(initproc := p);
      if !kvmOk then (t2, false)
      else
        var i := p.index;
        var t3 := Put(t2, i, t2.procs[i].(sz := PGSIZE, state := RUNNABLE));
        assert TidsUnique(t3.procs) by { TidsUniqueAfterPut(t2.procs, i, t3.procs[i]); }
        (t3, true)
  }

  /** The main thread of `cur`, as growproc picks it (proc.c:190-193). */
  function GrowTarget(t: Table, cur: nat): (m: nat)
    requires WellFormed(t) && cur < NPROC
    ensures m < NPROC
    ensures m == cur || (t.procs[cur].mthread.Slot? && m == t.procs[cur].mthread.index)
  {
    var p := t.procs[cur];
    if p.mthread.Null? || p.tid == 0 then cur else p.mthread.index
  }

  /**
   * What allocuvm and deallocuvm return: the requested size as a `uint`
   * when they succeed, 0 when they fail.
   */
  function VmResult(ok: bool, newsz: int): nat
  {
    if ok then U32(newsz) else 0
  }

  /** growproc(n) (proc.c:186-219). */
  function GrowSpec(t: Table, cur: nat, n: int, vmOk: bool): (r: (Table, int))
    requires WellFormed(t) && cur < NPROC
    ensures WellFormed(r.0)
  {
    var m := GrowTarget(t, cur);
    var sz := t.procs[m].sz;
    if n > 0 && t.procs[m].mlimit != 0 && U32(sz + n) > t.procs[m].mlimit then (t, -1)
    else if n == 0 then (t, 0)
    else
      var sz' := VmResult(vmOk, sz + n);
      if sz' == 0 then (t, -1)
      else
        var t1 := Put(t, m, t.procs[m].(sz := sz'));
        assert TidsUnique(t1.procs) by { TidsUniqueAfterPut(t.procs, m, t1.procs[m]); }
        (t1, 0)
  }

  /** fork (proc.c:224-276); `copyOk` is whether copyuvm succeeded. */
  function ForkSpec(t: Table, cur: nat, kstackOk: bool, copyOk: bool): (r: (Table, int))
    requires WellFormed(t) && cur < NPROC
    ensures WellFormed(r.0)
  {
    var (t1, np) := AllocSpec(t, kstackOk);
    if np.Null? then (t1, -1)
    else
      var i := np.index;
      if !copyOk then
        var t2 := Put(t1, i, t1.procs[i].(state := UNUSED));
        assert TidsUnique(t2.procs) by { TidsUniqueAfterPut(t1.procs, i, t2.procs[i]); }
        (t2, -1)
      else
        var c := t1.procs[cur];
        var parent := if t1.procs[i].tid == 0 then Slot(cur) else c.mthread;
        var child := t1.procs[i].(sz := c.sz, mlimit := c.mlimit, parent := parent, state := RUNNABLE);
        var t2 := Put(t1, i, child);
        assert TidsUnique(t2.procs) by { TidsUniqueAfterPut(t1.procs, i, child); }
        (t2, child.pid)
  }

  /**
   * exit's reparenting (proc.c:325-333): the children of `cur` get `init`
   * as parent, and init's sleepers are woken if any of them was a ZOMBIE.
   */
  function ExitReparent(ps: seq<Proc>, cur: nat, init: Ref): seq<Proc>
  {
    var ps' := Reparent(ps, cur, init);
    if First(ps, ZombieIn(ChildOf(cur))).Some? then Wakeup(ps', ChanOf(init)) else ps'
  }

  /** How exit and thread_exit end. */
  datatype ExitOutcome = InitExiting | Exited

  /** exit (proc.c:281-339); InitExiting is the "init exiting" panic. */
  function ExitSpec(t: Table, cur: nat): (r: (Table, ExitOutcome))
    requires WellFormed(t) && cur < NPROC
    ensures WellFormed(r.0)
  {
    if Slot(cur) == t.initproc then (t, InitExiting)
    else
      var me := t.procs[cur];
      var ps1 := CleanThreads(t.procs, me.pid, me.tid);
      var ps2 := Wakeup(ps1, ChanOf(me.parent));
      var ps4 := ExitReparent(ps2, cur, t.initproc);
      var ps5 := ps4[cur := ps4[cur].(state := ZOMBIE)];
      assert WellFormed(t.(procs := ps5)) by { ExitKeepsWellFormed(t, cur, ps1, ps2, ps4, ps5); }
      (t.(procs := ps5), Exited)
  }

  /** How one scan of wait or thread_join ends. */
  datatype ReapOutcome = Reaped(value: int) | NoWork | Blocked

  /** The first half of sleep (proc.c:511-514): record the channel, sleep. */
  function SleepSpec(t: Table, cur: nat, c: Chan): (r: Table)
    requires WellFormed(t) && cur < NPROC
    ensures WellFormed(r)
  {
    var r := Put(t, cur, t.procs[cur].(chan := c, state := SLEEPING));
    assert TidsUnique(r.procs) by { TidsUniqueAfterPut(t.procs, cur, r.procs[cur]); }
    r
  }

  /** The rest of sleep once the sleeper runs again (proc.c:517). */
  function SleepReturnSpec(t: Table, cur: nat): (r: Table)
    requires WellFormed(t) && cur < NPROC
    ensures WellFormed(r)
  {
    var r := Put(t, cur, t.procs[cur].(chan := NoChan));
    assert TidsUnique(r.procs) by { TidsUniqueAfterPut(t.procs, cur, r.procs[cur]); }
    r
  }

  /** One pass of wait (proc.c:343-386): reap, fail, or sleep on `cur`. */
  function WaitSpec(t: Table, cur: nat): (r: (Table, ReapOutcome))
    requires WellFormed(t) && cur < NPROC
    ensures WellFormed(r.0)
  {
    match First(t.procs, ZombieIn(ChildOf(cur)))
    case Some(z) =>
      var t1 := Put(t, z, ReapSlot(t.procs[z]));
      assert TidsUnique(t1.procs) by { TidsUniqueAfterPut(t.procs, z, t1.procs[z]); }
      (t1, Reaped(t.procs[z].pid))
    case None =>
      if First(t.procs, ChildOf(cur)).None? || t.procs[cur].killed then (t, NoWork)
      else (SleepSpec(t, cur, OnProc(cur)), Blocked)
  }

  /** One scheduling decision (proc.c:409-419): the next RUNNABLE slot from `from` runs. */
  function ScheduleSpec(t: Table, from: nat): (r: (Table, Option<nat>))
    requires WellFormed(t) && from <= NPROC
    ensures WellFormed(r.0)
  {
    match FirstFrom(t.procs, Runnable, from)
    case None => (t, None)
    case Some(i) =>
      var t1 := Put(t, i, t.procs[i].(state := RUNNING));
      assert TidsUnique(t1.procs) by { TidsUniqueAfterPut(t.procs, i, t1.procs[i]); }
      (t1, Some(i))
  }

  /** yield (proc.c:458-464) up to the hand-off. */
  function YieldSpec(t: Table, cur: nat): (r: Table)
    requires WellFormed(t) && cur < NPROC
    ensures WellFormed(r)
  {
    var r := Put(t, cur, t.procs[cur].(state := RUNNABLE));
    assert TidsUnique(r.procs) by { TidsUniqueAfterPut(t.procs, cur, r.procs[cur]); }
    r
  }

  /** kill (proc.c:551-570). */
  function KillSpec(t: Table, pid: int): (r: (Table, int))
    requires WellFormed(t)
    ensures WellFormed(r.0)
  {
    match First(t.procs, WithPid(pid))
    case None => (t, -1)
    case Some(i) =>
      var p := t.procs[i];
      var t1 := Put(t, i, p.(killed := true, state := if p.state == SLEEPING then RUNNABLE else p.state));
      assert TidsUnique(t1.procs) by { TidsUniqueAfterPut(t.procs, i, t1.procs[i]); }
      (t1, 0)
  }

  /** setmemorylimit (proc.c:577-612). */
  function SetLimitSpec(t: Table, pid: int, limit: int): (r: (Table, int))
    requires WellFormed(t) && IsInt32(limit)
    ensures WellFormed(r.0)
  {
    if pid < 2 || limit < 0 then (t, -1)
    else
      match FindSpec(t, pid)
      case Null => (t, -1)
      case Slot(i) =>
        if limit < t.procs[i].sz then (t, -1)
        else
          var t1 := Put(t, i, t.procs[i].(mlimit := limit));
          assert TidsUnique(t1.procs) by { TidsUniqueAfterPut(t.procs, i, t1.procs[i]); }
          (t1, 0)
  }

  /** cleanThread (proc.c:651-662). */
  function CleanThreadSpec(t: Table, i: nat): (r: Table)
    requires WellFormed(t) && i < NPROC
    ensures WellFormed(r)
  {
    var r := Put(t, i, CleanSlot(t.procs[i]));
    assert TidsUnique(r.procs) by { TidsUniqueAfterPut(t.procs, i, r.procs[i]); }
    r
  }

  /** cleanOtherThreadsForExec (proc.c:664-697), the files aside. */
  function CleanOthersSpec(t: Table, pid: int, tid: int): (r: Table)
    requires WellFormed(t)
    ensures WellFormed(r)
  {
    var r := t.(procs := CleanThreads(t.procs, pid, tid));
    assert TidsUnique(r.procs) by { TidsUniqueAfterTidsCleared(t.procs, r.procs); }
    r
  }

  /** makeMainThread (proc.c:699-705). */
  function MakeMainSpec(t: Table, i: nat): (r: Table)
    requires WellFormed(t) && i < NPROC
    ensures WellFormed(r)
  {
    var r := Put(t, i, t.procs[i].(mthread := Null, tid := 0));
    assert TidsUnique(r.procs) by { TidsUniqueAfterPut(t.procs, i, r.procs[i]); }
    r
  }

  /** The main thread thread_create works for (proc.c:737-745). */
  function CreateTarget(t: Table, cur: nat): (m: nat)
    requires WellFormed(t) && cur < NPROC
    ensures m < NPROC
  {
    if t.procs[cur].mthread.Slot? then t.procs[cur].mthread.index else cur
  }

  /** How thread_create ends: 0 with the new id in `*thread`, or -1. */
  datatype CreateOutcome = Created(tid: int) | CreateFailed

  /**
   * The table after thread_create's allocation and the copying of the main
   * thread's identity (proc.c:731-752), before the stack is set up; with the
   * new slot and the main thread's slot.
   */
  function CreateSlotSpec(t: Table, cur: nat, kstackOk: bool): (r: (Table, Ref, nat))
    requires WellFormed(t) && cur < NPROC
    ensures WellFormed(r.0) && r.2 < NPROC
    ensures r.1.Slot? ==> r.1.index < NPROC && r.0.procs[r.1.index].tid == r.0.nexttid - 1
  {
    var (t1, np) := AllocSpec(t, kstackOk);
    if np.Null? then (t1, Null, cur)
    else
      var i := np.index;
      var m := CreateTarget(t1, cur);
      var mt := t1.procs[m];
      var p := t1.procs[i].(parent := mt.parent, pid := mt.pid, tid := t1.nexttid, mthread := Slot(m));
      var t2 := Table(t1.procs[i := p], t1.nextpid - 1, t1.nexttid + 1, t1.initproc);
      assert WellFormed(t2) by { FreshTidKeepsWellFormed(t1, i, p, t2); }
      (t2, np, m)
  }

  /**
   * thread_create (proc.c:716-832).  `vmOk` is whether allocuvm grew the
   * shared address space by two pages, `copyOk` whether copyout wrote the
   * start-up arguments.  Every failure after the allocation only marks the
   * slot UNUSED again (proc.c:829-831).
   */
  function ThreadCreateSpec(t: Table, cur: nat, kstackOk: bool, vmOk: bool, copyOk: bool): (r: (Table, CreateOutcome))
    requires WellFormed(t) && cur < NPROC
    ensures WellFormed(r.0)
  {
    var (t1, np, m) := CreateSlotSpec(t, cur, kstackOk);
    if np.Null? then (t1, CreateFailed)
    else CommitSpec(t1, np.index, m, vmOk, copyOk)
  }

  /**
   * The rest of thread_create once slot `i` holds the new thread of the
   * main thread in slot `m` (proc.c:767-831): grow the shared space by two
   * pages, write the arguments, check the memory limit, and commit; or
   * mark the slot UNUSED again.
   */
  function CommitSpec(t: Table, i: nat, m: nat, vmOk: bool, copyOk: bool): (r: (Table, CreateOutcome))
    requires WellFormed(t) && i < NPROC && m < NPROC
    ensures WellFormed(r.0)
  {
    var sz := VmResult(vmOk, t.procs[m].sz + 2 * PGSIZE);
    var bad := Put(t, i, t.procs[i].(state := UNUSED));
    assert TidsUnique(bad.procs) by { TidsUniqueAfterPut(t.procs, i, bad.procs[i]); }
    if sz == 0 || !copyOk then (bad, CreateFailed)
    else if t.procs[m].mlimit != 0 && sz > t.procs[m].mlimit then (bad, CreateFailed)
    else (StartSpec(t, i, m, sz), Created(t.procs[i].tid))
  }

  /**
   * The commit of thread_create (proc.c:813-825): the main thread in slot
   * `m` and the new thread in slot `i` both take the grown size `sz`, and
   * the new thread becomes RUNNABLE.
   */
  function StartSpec(t: Table, i: nat, m: nat, sz: nat): (r: Table)
    requires WellFormed(t) && i < NPROC && m < NPROC && sz < UINT_RANGE
    ensures WellFormed(r)
    ensures r.procs[i].state == RUNNABLE && r.procs[i].sz == sz && r.procs[m].sz == sz
    ensures forall j :: 0 <= j < NPROC && j != i && j != m ==> r.procs[j] == t.procs[j]
  {
    var t2 := Put(t, m, t.procs[m].(sz := sz));
    assert TidsUnique(t2.procs) by { TidsUniqueAfterPut(t.procs, m, t2.procs[m]); }
    var t3 := Put(t2, i, t2.procs[i].(sz := sz, state := RUNNABLE));
    assert TidsUnique(t3.procs) by { TidsUniqueAfterPut(t2.procs, i, t3.procs[i]); }
    t3
  }

  /** thread_exit (proc.c:840-884). */
  function ThreadExitSpec(t: Table, cur: nat, retval: int): (r: (Table, ExitOutcome))
    requires WellFormed(t) && cur < NPROC
    ensures WellFormed(r.0)
  {
    var t1 := Put(t, cur, t.procs[cur].(retval := retval));
    assert TidsUnique(t1.procs) by { TidsUniqueAfterPut(t.procs, cur, t1.procs[cur]); }
    if Slot(cur) == t.initproc then (t1, InitExiting)
    else
      var me := t1.procs[cur];
      var c := if me.mthread.Slot? then ChanOf(me.mthread) else ChanOf(me.parent);
      var ps := Wakeup(t1.procs, c);
      var t2 := t1.(procs := ps[cur := ps[cur].(state := ZOMBIE)]);
      assert TidsUnique(t2.procs) by {
        TidsUniqueAfterTidsCleared(t1.procs, ps);
        TidsUniqueAfterPut(ps, cur, t2.procs[cur]);
      }
      (t2, Exited)
  }

  /** One pass of thread_join (proc.c:892-929): join, fail, or sleep on `cur`. */
  function JoinSpec(t: Table, cur: nat, tid: int): (r: (Table, ReapOutcome))
    requires WellFormed(t) && cur < NPROC
    ensures WellFormed(r.0)
  {
    match First(t.procs, ZombieIn(WithTid(tid)))
    case Some(z) => (CleanThreadSpec(t, z), Reaped(t.procs[z].retval))
    case None =>
      if First(t.procs, WithTid(tid)).None? || t.procs[cur].killed then (t, NoWork)
      else (SleepSpec(t, cur, OnProc(cur)), Blocked)
  }

  // ---------------------------------------------------------------------
  // Keeping the invariant

  /** Overwriting one slot keeps tids unique when its tid stays or becomes 0. */
  lemma TidsUniqueAfterPut(ps: seq<Proc>, i: nat, p: Proc)
    requires i < |ps| && TidsUnique(ps)
    requires p.tid == ps[i].tid || p.tid == 0
    ensures TidsUnique(ps[i := p])
  {
  }

  /** A slot-wise update in which every tid stays or becomes 0 keeps tids unique. */
  lemma TidsUniqueAfterTidsCleared(ps: seq<Proc>, ps': seq<Proc>)
    requires |ps| == |ps'| && TidsUnique(ps)
    requires forall j :: 0 <= j < |ps| ==> ps'[j].tid == ps[j].tid || ps'[j].tid == 0
    ensures TidsUnique(ps')
  {
    forall i, j | 0 <= i < |ps'| && 0 <= j < |ps'| && i != j && ps'[i].tid != 0
      ensures ps'[i].tid != ps'[j].tid
    {
      assert ps'[i].tid == ps[i].tid;
    }
  }

  /** Giving slot `i` the fresh id `nexttid` and advancing the counter keeps the invariant. */
  lemma FreshTidKeepsWellFormed(t: Table, i: nat, p: Proc, t': Table)
    requires WellFormed(t) && i < NPROC
    requires p.tid == t.nexttid && RefOk(p.parent) && RefOk(p.mthread)
    requires 0 <= p.mlimit <= INT_MAX && p.sz < UINT_RANGE
    requires t'.procs == t.procs[i := p] && t'.nexttid == t.nexttid + 1
    requires t'.nextpid >= 1 && t'.initproc == t.initproc
    ensures WellFormed(t')
  {
    forall a, b | 0 <= a < NPROC && 0 <= b < NPROC && a != b && t'.procs[a].tid != 0
      ensures t'.procs[a].tid != t'.procs[b].tid
    {
      if a == i {
        assert t'.procs[b].tid == t.procs[b].tid < t.nexttid;
      } else if b == i {
        assert t'.procs[a].tid == t.procs[a].tid < t.nexttid;
      }
    }
  }

  lemma ExitKeepsWellFormed(t: Table, cur: nat, ps1: seq<Proc>, ps2: seq<Proc>, ps4: seq<Proc>, ps5: seq<Proc>)
    requires WellFormed(t) && cur < NPROC
    requires ps1 == CleanThreads(t.procs, t.procs[cur].pid, t.procs[cur].tid)
    requires ps2 == Wakeup(ps1, ChanOf(t.procs[cur].parent))
    requires ps4 == ExitReparent(ps2, cur, t.initproc)
    requires ps5 == ps4[cur := ps4[cur].(state := ZOMBIE)]
    ensures WellFormed(t.(procs := ps5))
  {
    forall j | 0 <= j < NPROC
      ensures SlotOk(ps5[j], t.nexttid)
      ensures ps5[j].tid == t.procs[j].tid || ps5[j].tid == 0
    {
      assert SlotOk(ps1[j], t.nexttid);
      assert ps1[j].tid == t.procs[j].tid || ps1[j].tid == 0;
      assert ps2[j] == WakeSlot(ps1[j], ChanOf(t.procs[cur].parent));
      ExitReparentSlot(ps2, cur, t.initproc, j);
    }
    TidsUniqueAfterTidsCleared(t.procs, ps5);
  }

  /** Exit's reparenting touches only the parent pointer, which it may set to init, and the state. */
  lemma ExitReparentSlot(ps: seq<Proc>, cur: nat, init: Ref, j: nat)
    requires j < |ps|
    ensures var ps' := ExitReparent(ps, cur, init);
      && |ps'| == |ps|
      && ps'[j].tid == ps[j].tid && ps'[j].mthread == ps[j].mthread
      && ps'[j].mlimit == ps[j].mlimit && ps'[j].sz == ps[j].sz
      && (ps'[j].parent == ps[j].parent || ps'[j].parent == init)
      && ps'[j].pid == ps[j].pid && ps'[j].chan == ps[j].chan && ps'[j].killed == ps[j].killed
      && (ps'[j].state == ps[j].state || (ps[j].state == SLEEPING && ps'[j].state == RUNNABLE))
  {
    var ps3 := Reparent(ps, cur, init);
    assert ps3[j] == ReparentSlot(ps[j], cur, init);
  }

  /**
   * The reparenting loop of exit, which calls wakeup1(initproc) each time it
   * meets a ZOMBIE child, ends where reparenting every child and then waking
   * init's sleepers once (if any child was a ZOMBIE) ends.
   */
  lemma ExitReparentStep(ps2: seq<Proc>, cur: nat, init: Ref, woke: bool, ps: seq<Proc>)
    requires |ps| == |ps2|
    requires woke <==> exists j :: 0 <= j < |ps2| && ps2[j].parent == Slot(cur) && ps2[j].state == ZOMBIE
    requires forall j :: 0 <= j < |ps| ==> ps[j] == WakeIf(woke, ReparentSlot(ps2[j], cur, init), ChanOf(init))
    ensures ps == ExitReparent(ps2, cur, init)
  {
    var f := First(ps2, ZombieIn(ChildOf(cur)));
    if f.Some? {
      var k := f.value;
      assert Matches(ZombieIn(ChildOf(cur)), ps2[k]);
      assert Matches(ChildOf(cur), ps2[k]);
      assert ps2[k].parent == Slot(cur) && ps2[k].state == ZOMBIE;
    } else if woke {
      var j :| 0 <= j < |ps2| && ps2[j].parent == Slot(cur) && ps2[j].state == ZOMBIE;
      assert Matches(ZombieIn(ChildOf(cur)), ps2[j]);
      assert false;
    }
    assert woke == f.Some?;
  }
}
