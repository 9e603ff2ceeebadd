/**
  The scheduler's own operations, of kernel/proc/thread.c and kernel/proc/proc.c, on the lists as
  they lie in memory.

  Each method is proved to do to the places of the threads what the function of the same kind in
  Places does, and so to keep every thread in one list at most, with a state field that names the
  list.  What holds of whole runs of these operations is proved in SchedulerRuns.
 */
module Scheduler {
  import opened Places
  import opened ThreadQueues

  /** The threads whose condition is set. */
  ghost function Awake(s: seq<Thread>): set<Thread>
    reads s, set t | t in s && t.waitCondition != null :: t.waitCondition
  {
    set t | t in s && t.waitCondition != null && t.waitCondition.isSet
  }

  ghost function HowBack(st: State): Comeback {
    match st
    case CondWait => Waits
    case Detached => EndsDetached
    case Terminated => EndsUndetached
    case _ => StillRunning
  }

  /** Links t behind the last thread of a list; both queues are extended so. */
  method LinkLast(head: Thread?, last: Thread?, t: Thread, ghost ts: set<Thread>) returns (newHead: Thread)
    requires t in ts && (head != null ==> last != null && last in ts)
    modifies ts`queueNext
    ensures newHead == if head == null then t else head
    ensures MemoryOf(ts) == LinkedLast(old(MemoryOf(ts)), head, last, t)
  {
    newHead := t;
    if head != null {
      last.queueNext := t;
      newHead := head;
    }
    t.queueNext := null;
  }

  method SetState(t: Thread, st: State, ghost ts: set<Thread>)
    requires t in ts
    modifies t`state
    ensures t.state == st && MemoryOf(ts) == WithState(old(MemoryOf(ts)), t, st)
  {
    t.state := st;
  }

  /** The same of the memory as it was, while no condition changes. */
  ghost predicate AwakeIn(m: Memory, s: seq<Thread>, on: set<Thread>)
    reads set t | t in s && t in m && m[t].wait != null :: m[t].wait
  {
    forall t :: t in s && t in m ==> (t in on <==> m[t].wait != null && m[t].wait.isSet)
  }

  lemma AwakeMeans(ts: set<Thread>, s: seq<Thread>)
    ensures AwakeIn(MemoryOf(ts), s, Awake(s))
  {
  }

  lemma AwakeOf(m: Memory, s: seq<Thread>, on: set<Thread>, t: Thread)
    requires AwakeIn(m, s, on) && t in s && t in m
    ensures t in on <==> m[t].wait != null && m[t].wait.isSet
  {
  }

  lemma FlagsOf(m: Memory, n: Memory, t: Thread)
    requires SameFlags(m, n) && t in n
    ensures t in m && n[t].wait == m[t].wait
  {
  }

  method SetNext(t: Thread, next: Thread?, ghost ts: set<Thread>)
    requires t in ts
    modifies t`queueNext
    ensures MemoryOf(ts) == Pushed(old(MemoryOf(ts)), next, t)
  {
    t.queueNext := next;
  }

  ghost function WithWait(m: Memory, t: Thread, c: Condition): Memory {
    if t in m then m[t := m[t].(wait := c, state := CondWait)] else m
  }

  method SetWait(t: Thread, c: Condition, ghost ts: set<Thread>)
    requires t in ts
    modifies t`state, t`waitCondition
    ensures t.state == CondWait && t.waitCondition == c
    ensures MemoryOf(ts) == WithWait(old(MemoryOf(ts)), t, c)
  {
    t.waitCondition := c;
    t.state := CondWait;
  }

  method LeaveResult(t: Thread, v: nat, ghost ts: set<Thread>)
    modifies t`returnData
    ensures t.returnData == v && MemoryOf(ts) == old(MemoryOf(ts))
  {
    t.returnData := v;
  }

  method Signal(c: Condition, ghost ts: set<Thread>)
    modifies c
    ensures c.isSet && MemoryOf(ts) == old(MemoryOf(ts))
  {
    c.isSet := true;
  }

  const THREADS_PER_PAGE: nat := 28

  method NewSlots() returns (page: seq<Thread>)
    ensures |page| == 28 && forall t :: t in page ==> fresh(t) && fresh(t.condition) && t.state == Invalid
    ensures forall j, k :: 0 <= j < k < |page| ==> page[j] != page[k]
  {
    page := [];
    while |page| < THREADS_PER_PAGE
      invariant |page| <= THREADS_PER_PAGE
      invariant forall k :: 0 <= k < |page| ==> fresh(page[k]) && fresh(page[k].condition) && page[k].state == Invalid
      invariant forall j, k :: 0 <= j < k < |page| ==> page[j] != page[k]
    {
      var t := new Thread();
      page := page + [t];
    }
  }

  /** A page is cut in slots, each linked to the next. */
  method NewPage() returns (page: seq<Thread>)
    ensures |page| == 28 && forall t :: t in page ==> fresh(t) && fresh(t.condition) && multiset(page)[t] == 1
    ensures Segment(MemoryOf(set t | t in page), page, page[0], null) && All(MemoryOf(set t | t in page), page, Invalid)
  {
    page := NewSlots();
    assert forall t :: t in page ==> fresh(t);
    LinkSlots(page);
    OnceEach(page);
    LinkedPage(page, 0);
    InvalidPage(page);
    assert page[0..] == page;
  }

  method LinkSlots(page: seq<Thread>)
    requires page != [] && forall j, k :: 0 <= j < k < |page| ==> page[j] != page[k]
    modifies (set t | t in page)`queueNext
    ensures (forall k :: 0 <= k < |page| - 1 ==> LinksNext(page, k)) && page[|page| - 1].queueNext == null
  {
    var i := 0;
    while i < |page| - 1
      invariant i <= |page| - 1
      invariant forall k :: 0 <= k < i ==> page[k].queueNext == page[k + 1]
    {
      page[i].queueNext := page[i + 1];
      i := i + 1;
    }
    page[|page| - 1].queueNext := null;
  }

  lemma InvalidPage(s: seq<Thread>)
    requires forall k :: 0 <= k < |s| ==> s[k].state == Invalid
    ensures All(MemoryOf(set t | t in s), s, Invalid)
  {
  }

  ghost predicate LinksNext(s: seq<Thread>, k: nat)
    reads s
  {
    k + 1 < |s| && s[k].queueNext == s[k + 1]
  }

  lemma {:induction false} OnceEach(s: seq<Thread>)
    requires forall i, j :: 0 <= i < j < |s| ==> s[i] != s[j]
    ensures forall t :: t in s ==> multiset(s)[t] == 1
  {
    if s != [] {
      var r, t := s[..|s| - 1], s[|s| - 1];
      OnceEach(r);
      assert s == r + [t] && t !in r;
    }
  }

  lemma {:induction false} LinkedPage(s: seq<Thread>, k: nat)
    requires k < |s| && (forall i :: k <= i < |s| - 1 ==> LinksNext(s, i)) && s[|s| - 1].queueNext == null
    ensures Segment(MemoryOf(set t | t in s), s[k..], s[k], null)
    decreases |s| - k
  {
    var m := MemoryOf(set t | t in s);
    assert s[k] in m;
    assert s[k..][1..] == s[k + 1..];
    if k + 1 < |s| {
      assert LinksNext(s, k);
      LinkedPage(s, k + 1);
    }
  }

  ghost function Initialized(m: Memory, t: Thread): Memory {
    if t in m then m[t := Cell(Created, false, null, null)] else m
  }

  method Initialize(t: Thread, ghost ts: set<Thread>)
    requires t in ts
    modifies t`state, t`detached, t`waitCondition, t`queueNext, t.condition
    ensures t.state == Created && !t.detached && t.waitCondition == null && t.queueNext == null && !t.condition.isSet
    ensures MemoryOf(ts) == Initialized(old(MemoryOf(ts)), t)
  {
    t.queueNext := null;
    t.state := Created;
    t.detached := false;
    t.condition.isSet := false;
    t.waitCondition := null;
  }

  ghost function WithFlag(m: Memory, t: Thread): Memory {
    if t in m then m[t := m[t].(detached := true)] else m
  }

  method SetFlag(t: Thread, ghost ts: set<Thread>)
    requires t in ts
    modifies t`detached
    ensures t.detached && MemoryOf(ts) == WithFlag(old(MemoryOf(ts)), t)
  {
    t.detached := true;
  }

  datatype JoinStatus = InvalidThread | DetachedThread | MustWait | Joined(value: nat)

  ghost function WithoutWait(m: Memory, t: Thread): Memory {
    if t in m then m[t := m[t].(wait := null)] else m
  }

  method ClearWait(t: Thread, ghost ts: set<Thread>)
    requires t in ts
    modifies t`waitCondition
    ensures MemoryOf(ts) == WithoutWait(old(MemoryOf(ts)), t)
  {
    t.waitCondition := null;
  }

  method TakeHead(t: Thread, ghost ts: set<Thread>)
    requires t in ts
    modifies t`state, t`queueNext
    ensures t.state == Running && MemoryOf(ts) == HeadTaken(old(MemoryOf(ts)), t)
  {
    t.queueNext := null;
    t.state := Running;
  }

  class Core {
    var readyHead: Thread?
    var readyLast: Thread?
    var waitHead: Thread?
    var waitLast: Thread?
    var deleteHead: Thread?
    var poolHead: Thread?
    const cleanup: Thread
    ghost var p: Places<Thread>
    ghost var threads: set<Thread>

    ghost function Memory(): Memory
      reads this, threads
    {
      MemoryOf(threads)
    }

    ghost function Heads(): Pointers
      reads this
    {
      Pointers(readyHead, readyLast, waitHead, waitLast, deleteHead, poolHead)
    }

    ghost predicate Valid()
      reads this, threads
    {
      InPlace(Memory(), p, Heads(), cleanup)
    }

    constructor (cleanup: Thread, head: Thread?, ghost pool: seq<Thread>, ghost threads: set<Thread>)
      requires Segment(MemoryOf(threads), pool, head, null) && cleanup !in pool && cleanup in threads && cleanup.state != Terminated
      requires forall t :: t in pool ==> t in threads && t.state == Invalid
      requires forall t :: t in pool ==> multiset(pool)[t] <= 1
      ensures Valid() && this.cleanup == cleanup && this.threads == threads && p == Places([], [], [], pool, [], [])
    {
      readyHead, readyLast, waitHead, waitLast, deleteHead, poolHead := null, null, null, null, null, head;
      this.cleanup := cleanup;
      this.threads := threads;
      p := Places([], [], [], pool, [], []);
    }

    // ---------------------------------------------------------------- the three queueing functions

    /** A round of the loop of QueueReadyThread: t goes behind the last ready thread. */
    method AppendReady(t: Thread)
      requires Valid() && t in threads && t !in Everyone(p) && t != cleanup
      modifies this`readyHead, this`readyLast, this`p, threads`state, threads`queueNext
      ensures Valid() && p == old(p).(ready := old(p.ready) + [t])
      ensures Memory() == LinkedLast(WithState(old(Memory()), t, Ready), old(readyHead), old(readyLast), t)
    {
      hide InPlace, Everyone, LinkedLast, WithState, MemoryOf;
      ghost var m, h := Memory(), Heads();
      CellOf(threads, t);
      SetCell(m, t, Ready);
      WithStateKeeps(m, p, h, cleanup, t, Ready);
      ReadyAppended(WithState(m, t, Ready), p, h, cleanup, t);
      LastReadyKnown(m, p, h, cleanup);
      if readyLast != null { CellOf(threads, readyLast); }
      SetState(t, Ready, threads);
      readyHead := LinkLast(readyHead, readyLast, t, threads);
      readyLast := t;
      p := p.(ready := p.ready + [t]);
    }

    /** Puts a thread among those waiting for a condition. */
    method QueueWaitingThread(t: Thread)
      requires Valid() && t in threads && t !in Everyone(p) && t != cleanup && t.state == CondWait && t.waitCondition != null
      modifies this`waitHead, this`waitLast, this`p, threads`queueNext
      ensures Heads() == WaitHeads(old(Heads()), t)
      ensures Valid() && p == old(p).(waiting := old(p.waiting) + [t])
      ensures Memory() == LinkedLast(old(Memory()), old(waitHead), old(waitLast), t)
    {
      hide InPlace, Everyone, LinkedLast, WithState, MemoryOf;
      ghost var m, h := Memory(), Heads();
      CellOf(threads, t);
      WaitAppended(m, p, h, cleanup, t);
      LastWaitingKnown(m, p, h, cleanup);
      if waitLast != null { CellOf(threads, waitLast); }
      waitHead := LinkLast(waitHead, waitLast, t, threads);
      waitLast := t;
      p := p.(waiting := p.waiting + [t]);
    }

    /** Puts a thread that ended detached on the list of those to destroy. */
    method QueueDetachedThread(t: Thread)
      requires Valid() && t in threads && t !in Everyone(p) && t.state == Detached && t.detached
      modifies this`deleteHead, this`p, t`queueNext
      ensures Valid()
      ensures p == if t == cleanup then old(p) else old(p).(deleted := [t] + old(p.deleted))
    {
      hide InPlace, Everyone;
      if t != cleanup {
        DeletePushed(Memory(), p, Heads(), cleanup, t);
        ghost var n := Pushed(Memory(), deleteHead, t);
        t.queueNext := deleteHead;
        deleteHead := t;
        p := p.(deleted := [t] + p.deleted);
        assert Memory() == n;
      }
    }

    /** Makes a thread ready, and with it all that are chained to it. */
    method QueueReadyThread(t: Thread, ghost chain: seq<Thread>)
      requires Valid() && t in threads && Segment(Memory(), chain, t, null)
      requires OnePlaceEach(p.(ready := p.ready + chain)) && cleanup !in chain
      modifies this`readyHead, this`readyLast, this`p, threads`state, threads`queueNext
      ensures Valid() && SameFlags(old(Memory()), Memory())
      ensures p == if old(t.state) == Invalid then old(p) else old(p).(ready := old(p.ready) + chain)
    {
      hide InPlace, Everyone, OnePlaceEach, Segment, SameFlags, LinkedLast, WithState, MemoryOf;
      ghost var m0 := Memory();
      SameFlagsRefl(m0);
      if t.state != Invalid {
        var thread: Thread? := t;
        ghost var rest := chain;
        while thread != null
          invariant Valid() && Segment(Memory(), rest, thread, null)
          invariant p == old(p).(ready := p.ready) && p.ready + rest == old(p.ready) + chain
          invariant forall u :: u in rest ==> u in chain
          invariant SameFlags(m0, Memory())
          decreases |rest|
        {
          ghost var m := Memory();
          ChainStep(m, p, Heads(), cleanup, rest, thread);
          CellOf(threads, thread);
          RoundKeepsFlags(m0, m, Heads(), thread);
          var next := thread.queueNext;
          AppendReady(thread);
          assert [rest[0]] + rest[1..] == rest;
          rest := rest[1..];
          thread := next;
        }
        EmptyHead(Memory(), rest, null);
      }
    }

    /** One wake-up pass: the waiters whose condition is set become ready, the others wait on. */
    method WakePass()
      requires Valid()
      modifies this, threads
      ensures Valid() && threads == old(threads) && SameFlags(old(Memory()), Memory())
      ensures p == Wake(old(p), old(Awake(p.waiting)))
    {
      hide InPlace, Everyone, OnePlaceEach, Segment, SameFlags, LinkedLast, MemoryOf, AtWaiter, Wake, Pushed, ReversedOnly, Awake;
      ghost var p0, m0, on := p, Memory(), Awake(p.waiting);
      FirstWaiter(m0, p, Heads(), cleanup, on);
      InPlaceApart(m0, p, Heads(), cleanup);
      SameFlagsRefl(m0);
      AwakeMeans(threads, p.waiting);
      var waiting := waitHead;
      waitHead, waitLast := null, null;
      p := p.(waiting := []);
      var resume := SortWaiters(waiting, p0, m0, on);
      if resume != null {
        ghost var m := Memory();
        CellOf(threads, resume);
        QueueReadyThread(resume, ReversedOnly(p0.waiting, on));
        SameFlagsTrans(m0, m, Memory());
      }
    }

    /** The loop over the waiters taken from the list. */
    method SortWaiters(first: Thread?, ghost p0: Places<Thread>, ghost m0: Memory, ghost on: set<Thread>) returns (resume: Thread?)
      requires AtWaiter(Memory(), p0, p, Heads(), cleanup, on, 0, first, null)
      requires OnePlaceEach(p0) && cleanup !in Everyone(p0)
      requires SameFlags(m0, Memory()) && AwakeIn(m0, p0.waiting, on)
      modifies this`waitHead, this`waitLast, this`p, threads`queueNext
      ensures Valid() && SameFlags(m0, Memory())
      ensures var c := ReversedOnly(p0.waiting, on);
        && OnePlaceEach(p.(ready := p.ready + c)) && cleanup !in c && Wake(p0, on) == p.(ready := p.ready + c)
        && (resume == null ==> Wake(p0, on) == p)
        && (resume != null ==> Segment(Memory(), c, resume, null) && Has(Memory(), resume, CondWait))
    {
      hide InPlace, Everyone, OnePlaceEach, Segment, SameFlags, MemoryOf, AtWaiter, Wake, Without, ReversedOnly;
      var waiting := first;
      resume := null;
      ghost var i := 0;
      while waiting != null
        invariant i <= |p0.waiting|
        invariant AtWaiter(Memory(), p0, p, Heads(), cleanup, on, i, waiting, resume)
        invariant SameFlags(m0, Memory()) && AwakeIn(m0, p0.waiting, on)
        decreases |p0.waiting| - i
      {
        NextWaiter(Memory(), p0, p, Heads(), cleanup, on, i, waiting, resume);
        CellOf(threads, waiting);
        FlagsOf(m0, Memory(), waiting);
        AwakeOf(m0, p0.waiting, on, waiting);
        waiting, resume := WakeOne(waiting, resume, p0, m0, on, i);
        i := i + 1;
      }
      LastWaiter(Memory(), p0, p, Heads(), cleanup, on, i, resume);
    }

    /** One round: the waiter joins the chain to resume, or waits on. */
    method WakeOne(t: Thread, resume: Thread?, ghost p0: Places<Thread>, ghost m0: Memory, ghost on: set<Thread>, ghost i: nat)
      returns (next: Thread?, chain: Thread?)
      requires AtWaiter(Memory(), p0, p, Heads(), cleanup, on, i, t, resume)
      requires OnePlaceEach(p0) && cleanup !in Everyone(p0) && t in threads && t.waitCondition != null
      requires t in on <==> t.waitCondition.isSet
      modifies this`waitHead, this`waitLast, this`p, threads`queueNext
      ensures AtWaiter(Memory(), p0, p, Heads(), cleanup, on, i + 1, next, chain)
      ensures SameFlags(m0, old(Memory())) ==> SameFlags(m0, Memory())
    {
      hide InPlace, Everyone, OnePlaceEach, Segment, SameFlags, LinkedLast, MemoryOf, AtWaiter, Pushed;
      ghost var m := Memory();
      CellOf(threads, t);
      NextWaiter(m, p0, p, Heads(), cleanup, on, i, t, resume);
      next := t.queueNext;
      chain := resume;
      if t.waitCondition.isSet {
        WaiterResumes(m, p0, p, Heads(), cleanup, on, i, t, resume);
        PushingKeepsFlags(m0, m, resume, t);
        SetNext(t, resume, threads);
        chain := t;
      } else {
        WaiterPutBack(m, p0, p, Heads(), cleanup, on, i, t, resume);
        PutBackKeepsFlags(m0, m, waitHead, waitLast, t);
        WaiterIsValid(m, p0, p, Heads(), cleanup, on, i, t, resume);
        QueueWaitingThread(t);
      }
    }

    // ---------------------------------------------------------------- destroying threads

    /** A destroyed thread becomes invalid and goes on the pool. */
    method DestroyThread(t: Thread)
      requires Valid() && t in threads && t !in Everyone(p) && t != cleanup
      modifies this`poolHead, this`p, t`state, t`queueNext
      ensures Valid() && Heads() == old(Heads()).(poolHead := poolHead)
      ensures old(t.state) != Invalid ==>
        p == old(p).(pool := [t] + old(p.pool)) && Memory() == Pushed(WithState(old(Memory()), t, Invalid), old(poolHead), t)
      ensures old(t.state) == Invalid ==> p == old(p) && Memory() == old(Memory())
    {
      hide InPlace, Everyone, MemoryOf, WithState, Pushed;
      if t.state != Invalid {
        ghost var m := Memory();
        CellOf(threads, t);
        WithStateKeeps(m, p, Heads(), cleanup, t, Invalid);
        SetCell(m, t, Invalid);
        PoolPushed(WithState(m, t, Invalid), p, Heads(), cleanup, t);
        SetState(t, Invalid, threads);
        SetNext(t, poolHead, threads);
        poolHead := t;
        p := p.(pool := [t] + p.pool);
      }
    }

    /** One turn of the cleanup thread; when it does not get the pool's lock it leaves all as it is. */
    method CleanupPass(gotLock: bool)
      requires Valid()
      modifies this, threads
      ensures Valid() && threads == old(threads)
      ensures p == if gotLock then Clean(old(p)) else old(p)
    {
      hide InPlace, Everyone, OnePlaceEach, Segment, MemoryOf, Pushed, Reversed;
      CleanupInMemory();
      RunCleanup(Running);
      if gotLock {
        ghost var p0 := p;
        DeleteListTaken(Memory(), p, Heads(), cleanup);
        InPlaceApart(Memory(), p, Heads(), cleanup);
        var deleted := deleteHead;
        deleteHead := null;
        p := p.(deleted := []);
        DestroyAll(deleted, p0);
      }
      CleanupInMemory();
      RunCleanup(Ready);
    }

    lemma CleanupInMemory()
      requires Valid()
      ensures cleanup in threads
    {
    }

    method RunCleanup(st: State)
      requires Valid()
      requires st != Terminated
      modifies cleanup`state
      ensures Valid()
    {
      hide InPlace, Everyone, MemoryOf, WithState;
      CleanupKnown(Memory(), p, Heads(), cleanup);
      CellOf(threads, cleanup);
      WithStateKeeps(Memory(), p, Heads(), cleanup, cleanup, st);
      SetState(cleanup, st, threads);
    }

    /** The loop of the cleanup thread over the list it took. */
    method DestroyAll(first: Thread?, ghost p0: Places<Thread>)
      requires Valid() && p == p0.(deleted := []) && OnePlaceEach(p0) && cleanup !in Everyone(p0)
      requires Segment(Memory(), p0.deleted, first, null) && All(Memory(), p0.deleted, Detached)
      modifies this`poolHead, this`p, threads`state, threads`queueNext
      ensures Valid() && p == Clean(p0)
    {
      hide InPlace, Everyone, OnePlaceEach, Segment, MemoryOf, Pushed, WithState, Reversed, All;
      var deleted := first;
      ghost var i := 0;
      FirstDeleted(Memory(), p0);
      while deleted != null
        invariant Valid() && i <= |p0.deleted| && p == p0.(deleted := [], pool := Reversed(p0.deleted[..i]) + p0.pool)
        invariant Segment(Memory(), p0.deleted[i..], deleted, null) && All(Memory(), p0.deleted[i..], Detached)
        decreases |p0.deleted| - i
      {
        NextDeleted(Memory(), p0, p, cleanup, i, deleted, poolHead);
        CellOf(threads, deleted);
        var next := deleted.queueNext;
        DestroyThread(deleted);
        deleted := next;
        i := i + 1;
      }
      LastDeleted(Memory(), p0, i);
    }

    // ---------------------------------------------------------------- running threads

    /** The scheduler takes the head of the ready queue and switches to it. */
    method DispatchPass() returns (t: Thread?)
      requires Valid() && p.running == []
      modifies this`readyHead, this`readyLast, this`p, threads`state, threads`queueNext
      ensures Valid() && p == Dispatch(old(p)) && SameFlags(old(Memory()), Memory())
      ensures t == null <==> old(p.ready) == []
      ensures t != null ==> t == old(p.ready[0]) && p.running == [t] && t in threads && t.state == Running
    {
      hide InPlace, Everyone, OnePlaceEach, MemoryOf, HeadTaken, Dispatch, SameFlags;
      ghost var m := Memory();
      ReadyIsFifo(m, p, Heads(), cleanup);
      NothingToDispatch(p);
      SameFlagsRefl(m);
      t := readyHead;
      if t != null {
        HeadDispatched(m, p, Heads(), cleanup);
        Dispatched(p);
        CellOf(threads, t);
        TakingKeepsFlags(m, t);
        readyHead := readyHead.queueNext;
        TakeHead(t, threads);
        p := Dispatch(p);
      } else {
        StaleLast(m, p, Heads(), cleanup);
        readyLast := null;
      }
    }

    /** The thread that ran has come back; its state says where it goes. */
    method AfterRun(t: Thread)
      requires Valid() && p.running == [t]
      modifies this, threads`state, threads`queueNext
      ensures Valid() && p == Return(old(p), HowBack(old(t.state))) && threads == old(threads)
    {
      hide InPlace, Everyone, OnePlaceEach, MemoryOf, Segment;
      TakenOff(Memory(), p, Heads(), cleanup, t);
      InPlaceApart(Memory(), p.(running := []), Heads(), cleanup);
      CellOf(threads, t);
      ghost var p0 := p;
      p := p.(running := []);
      if t.state == Detached {
        QueueDetachedThread(t);
      } else if t.state == CondWait {
        QueueWaitingThread(t);
      } else if t.state == Running {
        OneChain(Memory(), p, t, cleanup);
        QueueReadyThread(t, [t]);
      } else {
        LeftUnjoined(Memory(), p, Heads(), cleanup, t);
        p := p.(terminated := p.terminated + [t]);
      }
    }

    /** The running thread ends: it leaves its result unless nobody will ask, and signals its condition. */
    method TerminateThread(t: Thread, v: nat)
      requires Valid() && p.running == [t] && t.state == Running
      modifies t`state, t`returnData, t.condition
      ensures Valid() && t.condition.isSet && t.detached == old(t.detached)
      ensures t.state == if t.detached then Detached else Terminated
      ensures t.returnData == if t.detached then old(t.returnData) else v
    {
      hide InPlace, Everyone, MemoryOf, WithState;
      ghost var st := if t.detached then Detached else Terminated;
      RunningInMemory(Memory(), p, Heads(), cleanup, t);
      CellOf(threads, t);
      SetCell(Memory(), t, st);
      RunningSets(Memory(), p, Heads(), cleanup, t, st);
      if t.detached {
        SetState(t, Detached, threads);
      } else {
        SetState(t, Terminated, threads);
        LeaveResult(t, v, threads);
      }
      Signal(t.condition, threads);
    }

    /** The running thread has to wait exactly when the condition is not set. */
    method WaitCondition(t: Thread, c: Condition) returns (waits: bool)
      requires Valid() && p.running == [t] && t.state == Running
      modifies t`state, t`waitCondition
      ensures Valid() && waits == !c.isSet
      ensures waits ==> t.state == CondWait && t.waitCondition == c
      ensures !waits ==> t.state == Running && t.waitCondition == old(t.waitCondition)
    {
      waits := !c.isSet;
      if waits {
        hide InPlace, Everyone, MemoryOf;
        RunningInMemory(Memory(), p, Heads(), cleanup, t);
        RunningWaits(Memory(), p, Heads(), cleanup, t, c);
        CellOf(threads, t);
        SetWait(t, c, threads);
      }
    }

    // ---------------------------------------------------------------- creating and detaching threads

    /** An empty pool gets a page of thread slots. */
    method AddPage() returns (ghost page: seq<Thread>)
      requires Valid() && p.pool == []
      modifies this`poolHead, this`p, this`threads
      ensures Valid() && p == old(p).(pool := page)
      ensures |page| == 28 && threads == old(threads) + (set t | t in page)
      ensures forall t :: t in page ==> t !in old(threads) && fresh(t) && fresh(t.condition)
    {
      hide InPlace, Everyone, OnePlaceEach, Segment, All, MemoryOf;
      ghost var m := Memory();
      var slots := NewPage();
      page := slots;
      ghost var ts := set t | t in page;
      assert Memory() == m;
      threads := threads + ts;
      PageInMemory(old(threads), ts, page);
      PageAdded(m, Memory(), p, Heads(), cleanup, page, slots[0]);
      poolHead := slots[0];
      p := p.(pool := page);
    }

    /** The first slot of the pool, which is then in no list. */
    method TakeSlot() returns (t: Thread)
      requires Valid() && p.pool != []
      modifies this`poolHead, this`p
      ensures t == old(p.pool[0]) && t in threads && p == old(p).(pool := old(p.pool[1..]))
      ensures Valid() && t !in Everyone(p) && t != cleanup
    {
      hide InPlace, Everyone, OnePlaceEach, MemoryOf;
      PoolIsList(Memory(), p, Heads(), cleanup);
      PoolPopped(Memory(), p, Heads(), cleanup);
      t := poolHead;
      CellOf(threads, t);
      poolHead := t.queueNext;
      p := p.(pool := p.pool[1..]);
    }

    /** A thread from the pool is made ready, undetached and with its condition clear. */
    method CreateThread() returns (t: Thread, ghost page: seq<Thread>)
      requires Valid()
      modifies this, threads, set u | u in threads :: u.condition
      ensures Valid() && (old(p.pool) == [] ==> |page| == 28 && forall u :: u in page ==> fresh(u))
      ensures p == Create(old(p), page) && t == p.ready[|p.ready| - 1] && t in threads
      ensures t.state == Ready && !t.detached && t.waitCondition == null && !t.condition.isSet
    {
      hide InPlace, Everyone, OnePlaceEach, Segment, MemoryOf, Initialized;
      page := [];
      PoolIsList(Memory(), p, Heads(), cleanup);
      if poolHead == null {
        page := AddPage();
      }
      t := TakeSlot();
      StartThread(t);
    }

    method StartThread(t: Thread)
      requires Valid() && t in threads && t !in Everyone(p) && t != cleanup
      modifies this`readyHead, this`readyLast, this`p, threads, t.condition
      ensures Valid() && p == old(p).(ready := old(p.ready) + [t])
      ensures t.state == Ready && !t.detached && t.waitCondition == null && !t.condition.isSet
    {
      hide InPlace, Everyone, OnePlaceEach, Segment, MemoryOf, SameFlags;
      InitializedOutside(Memory(), p, Heads(), cleanup, t);
      CellOf(threads, t);
      Initialize(t, threads);
      InPlaceApart(Memory(), p, Heads(), cleanup);
      CellOf(threads, t);
      OneChain(Memory(), p, t, cleanup);
      ghost var m := Memory();
      QueueReadyThread(t, [t]);
      CellOf(threads, t);
      CellFlags(m, Memory(), t);
      LastIsReady(Memory(), p, Heads(), cleanup);
    }

    /**
      Detaching a thread that has ended undetached sends it to be destroyed; the caller is the running
      thread.  Of a thread that is not in use only the flag is set.
     */
    method DetachThread(t: Thread?)
      requires Valid() && (t != null ==> t in threads)
      requires forall r :: r in p.running ==> r.state == Running
      requires t != null && t !in Everyone(p) ==> t == cleanup
      modifies this`deleteHead, this`p, threads
      ensures Valid() && (t != null ==> t.detached)
      ensures t == null || old(t.detached) ==> p == old(p)
      ensures t != null && !old(t.detached) ==> var u: Thread := t; p == Detach(old(p), u)
    {
      if t != null && !t.detached {
        DetachOnce(t);
      }
    }

    method DetachOnce(t: Thread)
      requires Valid() && t in threads && !t.detached
      requires forall r :: r in p.running ==> r.state == Running
      requires t !in Everyone(p) ==> t == cleanup
      modifies this`deleteHead, this`p, threads
      ensures Valid() && t.detached && p == Detach(old(p), t)
    {
      hide InPlace, Everyone, OnePlaceEach, MemoryOf, WithFlag, RemoveFirst;
      CellOf(threads, t);
      RunningCells(threads, p.running);
      EndedAreUnjoined(Memory(), p, Heads(), cleanup, t);
      if t.state == Terminated {
        UnjoinedTaken(Memory(), p, Heads(), cleanup, t);
        p := p.(terminated := RemoveFirst(p.terminated, t));
        FlagOutside(Memory(), p, Heads(), cleanup, t);
        SetFlag(t, threads);
        WithStateKeeps(Memory(), p, Heads(), cleanup, t, Detached);
        SetState(t, Detached, threads);
        QueueDetachedThread(t);
      } else {
        FlagInside(Memory(), p, Heads(), cleanup, t);
        SetFlag(t, threads);
      }
    }

    lemma RunningKnown(t: Thread)
      requires Valid() && p.running == [t]
      ensures t in threads
    {
      assert t in p.running;
    }

    /** The end of a join, once the thread has ended: its result is taken and it is detached. */
    method TakeResult(current: Thread, t: Thread) returns (v: nat)
      requires Valid() && p.running == [current] && current.state == Running && t in threads && t != current && !t.detached
      requires t !in Everyone(p) ==> t == cleanup
      modifies this`deleteHead, this`p, threads
      ensures Valid() && threads == old(threads) && v == old(t.returnData) && t.detached && p == Detach(old(p), t)
    {
      hide InPlace, Everyone, MemoryOf, OnePlaceEach, RemoveFirst;
      RunningKnown(current);
      v := t.returnData;
      StopWaiting(current);
      DetachThread(t);
    }

    method StopWaiting(current: Thread)
      requires Valid() && p.running == [current] && current.state == Running
      modifies current`waitCondition
      ensures Valid()
    {
      hide InPlace, Everyone, MemoryOf;
      RunningInMemory(Memory(), p, Heads(), cleanup, current);
      CellOf(threads, current);
      RunningForgets(Memory(), p, Heads(), cleanup, current);
      ClearWait(current, threads);
    }

    /** A join up to the point where the caller either has its answer or must wait. */
    method WaitThread(current: Thread, t: Thread?) returns (s: JoinStatus)
      requires Valid() && p.running == [current] && current.state == Running && (t != null ==> t in threads)
      requires t != null && t !in Everyone(p) ==> t == cleanup
      modifies this`deleteHead, this`p, threads
      ensures Valid()
      ensures s == InvalidThread <==> t == null || old(t.state) == Invalid || t == current
      ensures s == DetachedThread <==> t != null && old(t.state) != Invalid && t != current && old(t.detached)
      ensures s == MustWait ==> p == old(p) && current.state == CondWait && current.waitCondition == t.condition
      ensures s == MustWait ==> old(t.state) != Terminated && !t.condition.isSet
      ensures s.Joined? ==> var u: Thread := t;
        (old(u.state) == Terminated || u.condition.isSet) && s.value == old(u.returnData) && p == Detach(old(p), u)
    {
      hide InPlace, Everyone, MemoryOf, OnePlaceEach, Detach;
      RunningKnown(current);
      if t == null || t.state == Invalid || t == current { return InvalidThread; }
      if t.detached { return DetachedThread; }
      if t.state != Terminated {
        var waits := WaitCondition(current, t.condition);
        if waits { return MustWait; }
      }
      var v := TakeResult(current, t);
      return Joined(v);
    }
  }

  lemma LastReadyKnown(m: Memory, p: Places<Thread>, h: Pointers, cleanup: Thread)
    requires InPlace(m, p, h, cleanup)
    ensures h.readyHead != null ==> h.readyLast != null && h.readyLast in m
  {
    EmptyHead(m, p.ready, h.readyHead);
    assert p.ready != [] ==> Has(m, p.ready[|p.ready| - 1], Ready);
  }

  lemma LastWaitingKnown(m: Memory, p: Places<Thread>, h: Pointers, cleanup: Thread)
    requires InPlace(m, p, h, cleanup)
    ensures h.waitHead != null ==> h.waitLast != null && h.waitLast in m
  {
    EmptyHead(m, p.waiting, h.waitHead);
    assert p.waiting != [] ==> Has(m, p.waiting[|p.waiting| - 1], CondWait);
  }

  lemma SameFlagsRefl(m: Memory)
    ensures SameFlags(m, m)
  {
  }

  lemma RoundKeepsFlags(m0: Memory, m: Memory, h: Pointers, t: Thread)
    requires SameFlags(m0, m)
    ensures SameFlags(m0, LinkedLast(WithState(m, t, Ready), h.readyHead, h.readyLast, t))
  {
    hide SameFlags, LinkedLast, WithState;
    SettingKeepsFlags(m, t, Ready);
    SameFlagsTrans(m0, m, WithState(m, t, Ready));
    LinkingKeepsFlags(WithState(m, t, Ready), h.readyHead, h.readyLast, t);
    SameFlagsTrans(m0, WithState(m, t, Ready), LinkedLast(WithState(m, t, Ready), h.readyHead, h.readyLast, t));
  }

  lemma PushingKeepsFlags(m0: Memory, m: Memory, next: Thread?, t: Thread)
    ensures SameFlags(m0, m) ==> SameFlags(m0, Pushed(m, next, t))
  {
  }

  lemma PutBackKeepsFlags(m0: Memory, m: Memory, head: Thread?, last: Thread?, t: Thread)
    ensures SameFlags(m0, m) ==> SameFlags(m0, LinkedLast(m, head, last, t))
  {
    LinkingKeepsFlags(m, head, last, t);
    hide LinkedLast;
  }

  lemma WaiterIsValid(m: Memory, p0: Places<Thread>, p: Places<Thread>, h: Pointers, cleanup: Thread, on: set<Thread>,
                      i: nat, waiting: Thread?, resume: Thread?)
    requires AtWaiter(m, p0, p, h, cleanup, on, i, waiting, resume)
    ensures InPlace(m, p, h, cleanup)
  {
  }

  lemma InPlaceApart(m: Memory, p: Places<Thread>, h: Pointers, cleanup: Thread)
    requires InPlace(m, p, h, cleanup)
    ensures OnePlaceEach(p) && cleanup !in Everyone(p)
  {
  }

  /** After the last waiter the chain holds all that woke. */
  lemma LastWaiter(m: Memory, p0: Places<Thread>, p: Places<Thread>, h: Pointers, cleanup: Thread, on: set<Thread>,
                   i: nat, resume: Thread?)
    requires AtWaiter(m, p0, p, h, cleanup, on, i, null, resume) && OnePlaceEach(p0) && cleanup !in Everyone(p0)
    ensures InPlace(m, p, h, cleanup) && Segment(m, ReversedOnly(p0.waiting, on), resume, null)
    ensures var c := ReversedOnly(p0.waiting, on);
      && OnePlaceEach(p.(ready := p.ready + c)) && cleanup !in c && Wake(p0, on) == p.(ready := p.ready + c)
      && (resume == null ==> Wake(p0, on) == p) && (resume != null ==> Has(m, resume, CondWait))
  {
    hide InPlace, Everyone, OnePlaceEach;
    EmptyHead(m, p0.waiting[i..], null);
    assert p0.waiting[..i] == p0.waiting;
    WokenGo(p0, on, cleanup);
    EmptyHead(m, ReversedOnly(p0.waiting, on), resume);
    if resume != null {
      var r: Thread := resume;
      assert r in ReversedOnly(p0.waiting, on);
      WakeIsExact(p0.waiting, on, r);
    }
  }

  lemma CleanupKnown(m: Memory, p: Places<Thread>, h: Pointers, cleanup: Thread)
    requires InPlace(m, p, h, cleanup)
    ensures cleanup in m && cleanup !in Everyone(p) && Endless(m, cleanup)
  {
  }

  lemma FirstDeleted(m: Memory, p0: Places<Thread>)
    ensures p0.deleted[0..] == p0.deleted && Reversed(p0.deleted[..0]) + p0.pool == p0.pool
  {
  }

  lemma LastDeleted(m: Memory, p0: Places<Thread>, i: nat)
    requires i <= |p0.deleted| && Segment(m, p0.deleted[i..], null, null)
    ensures p0.(deleted := [], pool := Reversed(p0.deleted[..i]) + p0.pool) == Clean(p0)
  {
    EmptyHead(m, p0.deleted[i..], null);
    assert p0.deleted[..i] == p0.deleted;
  }

  lemma {:induction false} ReversedStep(s: seq<Thread>, i: nat)
    requires i < |s|
    ensures Reversed(s[..i + 1]) == [s[i]] + Reversed(s[..i])
  {
    assert s[..i + 1][..i] == s[..i];
  }

  /** The next thread to destroy is in no list, and destroying it leaves the rest of the chain. */
  lemma NextDeleted(m: Memory, p0: Places<Thread>, p: Places<Thread>, cleanup: Thread, i: nat, t: Thread, head: Thread?)
    requires OnePlaceEach(p0) && cleanup !in Everyone(p0) && i <= |p0.deleted|
    requires p == p0.(deleted := [], pool := Reversed(p0.deleted[..i]) + p0.pool)
    requires Segment(m, p0.deleted[i..], t, null) && All(m, p0.deleted[i..], Detached)
    ensures i < |p0.deleted| && t in m && t == p0.deleted[i] && t !in Everyone(p) && t != cleanup && m[t].state == Detached
    ensures [t] + p.pool == Reversed(p0.deleted[..i + 1]) + p0.pool
    ensures var n := Pushed(WithState(m, t, Invalid), head, t);
      Segment(n, p0.deleted[i + 1..], m[t].next, null) && All(n, p0.deleted[i + 1..], Detached)
  {
    hide Segment, Everyone, OnePlaceEach;
    Linked(m, p0.deleted[i..], t);
    var n, z := Pushed(WithState(m, t, Invalid), head, t), p0.deleted[i + 1..];
    assert p0.deleted[i..] == [p0.deleted[i]] + z && p0.deleted[i..][1..] == z;
    ReversedStep(p0.deleted, i);
    assert [t] + (Reversed(p0.deleted[..i]) + p0.pool) == ([t] + Reversed(p0.deleted[..i])) + p0.pool;
    DeletedFlight(p0, p, i, cleanup);
    assert Has(m, t, Detached);
    SegmentKept(m, n, z, m[t].next, null);
    forall u | u in z ensures Has(n, u, Detached) {
      assert u in p0.deleted[i..] && Has(m, u, Detached);
    }
  }

  lemma DeletedFlight(p0: Places<Thread>, p: Places<Thread>, i: nat, cleanup: Thread)
    requires OnePlaceEach(p0) && cleanup !in Everyone(p0) && i < |p0.deleted|
    requires p == p0.(deleted := [], pool := Reversed(p0.deleted[..i]) + p0.pool)
    ensures p0.deleted[i] !in Everyone(p) && p0.deleted[i] !in p0.deleted[i + 1..] && p0.deleted[i] != cleanup
  {
    var t, z := p0.deleted[i], p0.deleted[i + 1..];
    DeletedCounts(p0, p, i);
    NotADeleted(p0, i, cleanup);
    hide Everyone, OnePlaceEach;
    FlightCounts(p0, p, [], [], t, z);
  }

  lemma NotADeleted(p0: Places<Thread>, i: nat, cleanup: Thread)
    requires i < |p0.deleted| && cleanup !in Everyone(p0)
    ensures p0.deleted[i] != cleanup
  {
    assert p0.deleted[i] in multiset(p0.deleted);
  }

  lemma DeletedCounts(p0: Places<Thread>, p: Places<Thread>, i: nat)
    requires i < |p0.deleted| && p == p0.(deleted := [], pool := Reversed(p0.deleted[..i]) + p0.pool)
    ensures Everyone(p0) == Everyone(p) + multiset([]) + multiset{p0.deleted[i]} + multiset(p0.deleted[i + 1..])
  {
    var t, r, z := p0.deleted[i], p0.deleted[..i], p0.deleted[i + 1..];
    assert p0.deleted == r + [t] + z;
    ReversedSame(r);
    hide Reversed;
    assert multiset(p.pool) == multiset(r) + multiset(p0.pool);
    assert multiset(p0.deleted) == multiset(r) + multiset{t} + multiset(z);
  }

  lemma ReadyIsFifo(m: Memory, p: Places<Thread>, h: Pointers, cleanup: Thread)
    requires InPlace(m, p, h, cleanup)
    ensures h.readyHead == null <==> p.ready == []
    ensures p.ready != [] ==> h.readyHead == p.ready[0]
  {
    hide OnePlaceEach, Everyone;
    EmptyHead(m, p.ready, h.readyHead);
  }

  lemma NothingToDispatch(p: Places<Thread>)
    ensures p.ready == [] ==> Dispatch(p) == p
  {
  }

  lemma StaleLast(m: Memory, p: Places<Thread>, h: Pointers, cleanup: Thread)
    requires InPlace(m, p, h, cleanup) && p.ready == []
    ensures InPlace(m, p, h.(readyLast := null), cleanup)
  {
    hide OnePlaceEach, Everyone, Segment;
  }

  lemma TakingKeepsFlags(m: Memory, t: Thread)
    ensures SameFlags(m, HeadTaken(m, t))
  {
  }

  lemma OneChain(m: Memory, p: Places<Thread>, t: Thread, cleanup: Thread)
    requires OnePlaceEach(p) && cleanup !in Everyone(p) && t !in Everyone(p) && t != cleanup && t in m && m[t].next == null
    ensures Segment(m, [t], t, null) && OnePlaceEach(p.(ready := p.ready + [t])) && cleanup !in [t]
  {
    assert [t][1..] == [];
    assert Segment(m, [t], t, null);
    hide Segment;
    QueuesInAll(p, t);
    hide Everyone, OnePlaceEach;
    AddedOnce(p, p.(ready := p.ready + [t]), t, cleanup);
  }

  lemma RunningInMemory(m: Memory, p: Places<Thread>, h: Pointers, cleanup: Thread, t: Thread)
    requires InPlace(m, p, h, cleanup) && p.running == [t]
    ensures t in m && m[t].next == null
  {
    hide OnePlaceEach, Everyone, Segment;
    assert t in p.running;
  }

  lemma RunningSets(m: Memory, p: Places<Thread>, h: Pointers, cleanup: Thread, t: Thread, st: State)
    requires InPlace(m, p, h, cleanup) && p.running == [t] && t in m && m[t].next == null
    requires st == if m[t].detached then Detached else Terminated
    ensures InPlace(WithState(m, t, st), p, h, cleanup)
  {
    hide InPlace;
    RunningWrites(m, WithState(m, t, st), p, h, cleanup, t);
  }

  lemma RunningWaits(m: Memory, p: Places<Thread>, h: Pointers, cleanup: Thread, t: Thread, c: Condition)
    requires InPlace(m, p, h, cleanup) && p.running == [t] && t in m && m[t].next == null
    ensures InPlace(WithWait(m, t, c), p, h, cleanup)
  {
    hide InPlace;
    RunningWrites(m, WithWait(m, t, c), p, h, cleanup, t);
  }

  lemma PoolIsList(m: Memory, p: Places<Thread>, h: Pointers, cleanup: Thread)
    requires InPlace(m, p, h, cleanup)
    ensures h.poolHead == null <==> p.pool == []
    ensures p.pool != [] ==> h.poolHead == p.pool[0]
  {
    hide OnePlaceEach, Everyone, Fifo, OnCpu;
    EmptyHead(m, p.pool, h.poolHead);
  }

  lemma LastIsReady(m: Memory, p: Places<Thread>, h: Pointers, cleanup: Thread)
    requires InPlace(m, p, h, cleanup)
    ensures p.ready != [] ==> Has(m, p.ready[|p.ready| - 1], Ready)
  {
    hide OnePlaceEach, Everyone, Segment;
  }

  /** What the page shows in its own memory it shows in the whole. */
  lemma PageInMemory(ts: set<Thread>, new': set<Thread>, page: seq<Thread>)
    requires new' == (set t | t in page) && page != [] && Segment(MemoryOf(new'), page, page[0], null)
    requires All(MemoryOf(new'), page, Invalid)
    ensures Segment(MemoryOf(ts + new'), page, page[0], null) && All(MemoryOf(ts + new'), page, Invalid)
    ensures forall t :: t in MemoryOf(ts) ==> t in MemoryOf(ts + new') && MemoryOf(ts + new')[t] == MemoryOf(ts)[t]
    ensures forall t :: t in page && t !in ts ==> t !in MemoryOf(ts)
  {
    SegmentKept(MemoryOf(new'), MemoryOf(ts + new'), page, page[0], null);
  }

  lemma InitializedOutside(m: Memory, p: Places<Thread>, h: Pointers, cleanup: Thread, t: Thread)
    requires InPlace(m, p, h, cleanup) && t !in Everyone(p)
    ensures InPlace(Initialized(m, t), p, h, cleanup)
  {
    hide InPlace, Everyone;
    CleanupKnown(m, p, h, cleanup);
    WrittenOutside(m, Initialized(m, t), p, h, cleanup, t);
  }

  lemma CellFlags(m: Memory, n: Memory, t: Thread)
    requires SameFlags(m, n) && t in n
    ensures t in m && n[t].wait == m[t].wait && n[t].detached == m[t].detached
  {
  }

  /** Threads in use that have ended are those nobody has joined, or wait to be destroyed. */
  lemma EndedAreUnjoined(m: Memory, p: Places<Thread>, h: Pointers, cleanup: Thread, t: Thread)
    requires InPlace(m, p, h, cleanup) && t in m && !m[t].detached
    requires forall r :: r in p.running && r in m ==> m[r].state == Running
    requires t !in Everyone(p) ==> t == cleanup
    ensures m[t].state == Terminated <==> t in p.terminated
  {
    hide OnePlaceEach, Everyone, Segment;
    OnlyIn(p, t);
    assert t in p.ready ==> Has(m, t, Ready);
    assert t in p.waiting ==> Has(m, t, CondWait);
    assert t in p.deleted ==> Has(m, t, Detached);
    assert t in p.terminated ==> Has(m, t, Terminated);
    assert t in p.pool ==> Has(m, t, Invalid);
  }

  lemma FlagOutside(m: Memory, p: Places<Thread>, h: Pointers, cleanup: Thread, t: Thread)
    requires InPlace(m, p, h, cleanup) && t !in Everyone(p)
    ensures InPlace(WithFlag(m, t), p, h, cleanup)
    ensures WithFlag(m, t).Keys == m.Keys && (t in m ==> WithFlag(m, t)[t] == m[t].(detached := true))
  {
    hide InPlace, Everyone;
    CleanupKnown(m, p, h, cleanup);
    WrittenOutside(m, WithFlag(m, t), p, h, cleanup, t);
  }

  lemma FlagInside(m: Memory, p: Places<Thread>, h: Pointers, cleanup: Thread, t: Thread)
    requires InPlace(m, p, h, cleanup) && t in m && t !in p.terminated
    requires forall r :: r in p.running && r in m ==> m[r].state == Running
    ensures InPlace(WithFlag(m, t), p, h, cleanup)
  {
    hide InPlace, Everyone;
    FlagSet(m, WithFlag(m, t), p, h, cleanup, t);
  }

  lemma RunningCells(ts: set<Thread>, s: seq<Thread>)
    requires forall r :: r in s ==> r.state == Running
    ensures forall r :: r in s && r in MemoryOf(ts) ==> MemoryOf(ts)[r].state == Running
  {
  }

  lemma RunningForgets(m: Memory, p: Places<Thread>, h: Pointers, cleanup: Thread, t: Thread)
    requires InPlace(m, p, h, cleanup) && p.running == [t] && Has(m, t, Running) && m[t].next == null
    ensures InPlace(WithoutWait(m, t), p, h, cleanup)
  {
    hide InPlace;
    RunningWrites(m, WithoutWait(m, t), p, h, cleanup, t);
  }
}
