/**
 * The declarations of xv6-public/proc.h: the process states, the queue
 * levels and their time quantum, the multilevel-feedback queue record, and
 * the per-process control block with the fields that
 * project2/xv6-public/proc.c reads and writes.
 */
module ProcHeader {
  import opened Wrappers

  /** Size of the process table (NPROC in xv6's param.h). */
  const NPROC: nat := 64
  /** Bytes per page (PGSIZE in xv6's mmu.h). */
  const PGSIZE: nat := 4096

  /** `enum procstate`, in declaration order. */
  datatype ProcState = UNUSED | EMBRYO | SLEEPING | RUNNABLE | RUNNING | ZOMBIE

  /** The integer the C compiler gives each enumerator. */
  function StateCode(s: ProcState): (n: nat)
    ensures n < 6
  {
    match s
    case UNUSED => 0
    case EMBRYO => 1
    case SLEEPING => 2
    case RUNNABLE => 3
    case RUNNING => 4
    case ZOMBIE => 5
  }

  /** The enumerator with a given code. */
  function StateOfCode(n: nat): (s: ProcState)
    requires n < 6
    ensures StateCode(s) == n
  {
    if n == 0 then UNUSED
    else if n == 1 then EMBRYO
    else if n == 2 then SLEEPING
    else if n == 3 then RUNNABLE
    else if n == 4 then RUNNING
    else ZOMBIE
  }

  /** The six states are distinct: the codes are a bijection onto 0..5. */
  lemma StateCodeBijective(s: ProcState, s': ProcState)
    ensures StateOfCode(StateCode(s)) == s
    ensures StateCode(s) == StateCode(s') ==> s == s'
  {
  }

  /** `enum queueLevel`. */
  datatype QueueLevel = TOP | MIDDLE | BOTTOM

  function LevelValue(l: QueueLevel): (v: nat)
    ensures v <= 2
  {
    match l
    case TOP => 0
    case MIDDLE => 1
    case BOTTOM => 2
  }

  /**
   * `TIME_QUANTUM(LEVEL)`.  The macro body `(2 * LEVEL) + 4` has no outer
   * parentheses, so it is a function here rather than a textual expansion.
   */
  function TimeQuantum(level: int): int
  {
    (2 * level) + 4
  }

  /** The quanta of the three levels are 4, 6 and 8 ticks. */
  lemma TimeQuantumPerLevel()
    ensures TimeQuantum(LevelValue(TOP)) == 4
    ensures TimeQuantum(LevelValue(MIDDLE)) == 6
    ensures TimeQuantum(LevelValue(BOTTOM)) == 8
  {
  }

  /**
   * A reference to a table slot: the `struct proc *` fields `parent` and
   * `mthread`, with the null pointer as `Null`.
   */
  datatype Ref = Null | Slot(index: nat)

  /**
   * A sleep channel (`void *chan`): the null pointer, the address of a
   * table slot, or the address of some other kernel object.
   */
  datatype Chan = NoChan | OnProc(slot: nat) | OnObject(addr: nat)

  /** The channel value of a slot pointer, as when `wakeup1(p->parent)` is called. */
  function ChanOf(r: Ref): (c: Chan)
    ensures c.NoChan? <==> r.Null?
    ensures r.Slot? ==> c == OnProc(r.index)
  {
    match r
    case Null => NoChan
    case Slot(i) => OnProc(i)
  }
  /**
   * Distinct slots are distinct sleep channels and no slot is the null
   * channel, so a wakeup1 on one slot's address reaches only the sleepers
   * that recorded that slot.
   */
  lemma ChanOfInjective(a: Ref, b: Ref)
    ensures ChanOf(a) == ChanOf(b) <==> a == b
    ensures a.Slot? ==> ChanOf(a) != NoChan
  {
  }


  /**
   * `struct proc`, restricted to the bookkeeping fields of the table; the
   * trap frame, context, kernel stack, page directory, files, current
   * directory and name are not part of this model.
   */
  datatype Proc = Proc(
    sz: nat,           // size of the address space in bytes (uint)
    state: ProcState,
    pid: int,
    tid: int,          // 0 for a process's main thread
    parent: Ref,
    mthread: Ref,      // the main thread of a secondary thread
    chan: Chan,
    killed: bool,
    mlimit: int,       // memory ceiling in bytes, 0 = none
    stackpages: int,
    retval: int        // the value a thread passes to thread_exit
  )

  /** A slot of the zero-initialised static table. */
  const EmptyProc: Proc := Proc(0, UNUSED, 0, 0, Null, Null, NoChan, false, 0, 0, 0)

  /**
   * `struct mlfQueue`: a queue of RUNNABLE processes of capacity NPROC,
   * holding its entries in `procsQueue[..rear]`.  No code in the repository
   * implements its operations; Enqueue and Dequeue follow the comment in the
   * header: dequeue shifts the whole array one slot forward, enqueue checks
   * `rear` against NPROC.
   */
  datatype MlfQueue = MlfQueue(rear: int, procsQueue: seq<Ref>)

  ghost predicate QueueValid(q: MlfQueue)
  {
    |q.procsQueue| == NPROC && 0 <= q.rear <= NPROC
  }

  /** The queued slot pointers, front first. */
  function QueueContents(q: MlfQueue): seq<Ref>
    requires 0 <= q.rear <= |q.procsQueue|
  {
    q.procsQueue[..q.rear]
  }

  /** Every queued entry points at a RUNNABLE slot of `ps`. */
  ghost predicate QueueHoldsRunnable(q: MlfQueue, ps: seq<Proc>)
    requires 0 <= q.rear <= |q.procsQueue|
  {
    forall k :: 0 <= k < q.rear ==>
      q.procsQueue[k].Slot? && q.procsQueue[k].index < |ps| && ps[q.procsQueue[k].index].state == RUNNABLE
  }

  function Enqueue(q: MlfQueue, p: Ref): (r: Option<MlfQueue>)
    requires QueueValid(q)
    ensures r.None? <==> q.rear == NPROC
    ensures r.Some? ==> QueueValid(r.value) && QueueContents(r.value) == QueueContents(q) + [p]
  {
    if q.rear >= NPROC then None
    else
      var r := MlfQueue(q.rear + 1, q.procsQueue[q.rear := p]);
      assert QueueContents(r) == QueueContents(q) + [p];
      Some(r)
  }

  function Dequeue(q: MlfQueue): (r: Option<(Ref, MlfQueue)>)
    requires QueueValid(q)
    ensures r.None? <==> q.rear == 0
    ensures r.Some? ==>
              && QueueValid(r.value.1)
              && r.value.0 == QueueContents(q)[0]
              && QueueContents(r.value.1) == QueueContents(q)[1..]
  {
    if q.rear == 0 then None
    else Some((q.procsQueue[0], MlfQueue(q.rear - 1, q.procsQueue[1..] + [Null])))
  }

  /**
   * First in, first out: on any queue with room, an enqueue followed by a
   * dequeue hands back the queue's front (the new entry itself when the
   * queue was empty) and leaves the remaining entries, the new one last.
   */
  lemma QueueFifo(q: MlfQueue, p: Ref)
    requires QueueValid(q) && q.rear < NPROC
    ensures Enqueue(q, p).Some?
    ensures Dequeue(Enqueue(q, p).value).Some?
    ensures var (front, q') := Dequeue(Enqueue(q, p).value).value;
      && front == (if q.rear == 0 then p else QueueContents(q)[0])
      && QueueContents(q') == (if q.rear == 0 then [] else QueueContents(q)[1..] + [p])
  {
    var c := QueueContents(q) + [p];
    assert QueueContents(Enqueue(q, p).value) == c;
    if q.rear > 0 {
      assert c[1..] == QueueContents(q)[1..] + [p];
    }
  }

  /** Enqueueing a RUNNABLE slot keeps the queue's RUNNABLE-only property. */
  lemma EnqueueKeepsRunnable(q: MlfQueue, ps: seq<Proc>, i: nat)
    requires QueueValid(q) && q.rear < NPROC && QueueHoldsRunnable(q, ps)
    requires i < |ps| && ps[i].state == RUNNABLE
    ensures QueueHoldsRunnable(Enqueue(q, Slot(i)).value, ps)
  {
    var r := Enqueue(q, Slot(i)).value;
    forall k | 0 <= k < r.rear
      ensures r.procsQueue[k].Slot? && r.procsQueue[k].index < |ps| && ps[r.procsQueue[k].index].state == RUNNABLE
    {
      if k < q.rear {
        assert r.procsQueue[k] == q.procsQueue[k];
      }
    }
  }
}
