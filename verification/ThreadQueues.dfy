/**
  The thread queues of kernel/proc/thread.c and kernel/proc/proc.c as they lie in memory: singly
  linked lists over the one field queueNext, with a head and, for two of them, a last pointer.

  Memory is taken as a value, a map from threads to their fields, so that what a few writes do to
  the lists can be stated and proved as lemmas about maps.  The methods that do the writing are in
  Scheduler.
 */
module ThreadQueues {
  import opened Places

  datatype State = CondWait | Terminated | Running | Created | Ready | Detached | Invalid

  class Condition {
    var isSet: bool

    constructor ()
      ensures !isSet
    {
      isSet := false;
    }
  }

  class Thread {
    const condition: Condition
    var state: State
    var detached: bool
    var waitCondition: Condition?
    var queueNext: Thread?
    var returnData: nat

    /** A slot of a fresh page; nothing but the links is ever read before a thread is created in it. */
    constructor ()
      ensures fresh(condition) && state == Invalid
    {
      var c := new Condition();
      condition := c;
      state, detached, waitCondition, queueNext, returnData := Invalid, false, null, null, 0;
    }
  }

  // ------------------------------------------------------------------ what lies in memory, as a value

  datatype Cell = Cell(state: State, detached: bool, wait: Condition?, next: Thread?)

  type Memory = map<Thread, Cell>

  ghost function MemoryOf(ts: set<Thread>): Memory
    reads ts
  {
    map t | t in ts :: Cell(t.state, t.detached, t.waitCondition, t.queueNext)
  }

  lemma CellOf(ts: set<Thread>, t: Thread)
    ensures t in MemoryOf(ts) <==> t in ts
    ensures t in ts ==> MemoryOf(ts)[t] == Cell(t.state, t.detached, t.waitCondition, t.queueNext)
  {
  }

  lemma SetCell(m: Memory, t: Thread, st: State)
    requires t in m
    ensures Has(WithState(m, t, st), t, st) && WithState(m, t, st).Keys == m.Keys
  {
  }

  // ------------------------------------------------------------------ linked lists

  /** Following the links from head passes the threads of s, in order, and comes to end. */
  ghost predicate Segment(m: Memory, s: seq<Thread>, head: Thread?, end: Thread?)
    decreases |s|
  {
    if s == [] then head == end
    else head == s[0] && s[0] in m && Segment(m, s[1..], m[s[0]].next, end)
  }

  ghost predicate Has(m: Memory, t: Thread, st: State) {
    t in m && m[t].state == st
  }

  ghost predicate All(m: Memory, s: seq<Thread>, st: State) {
    forall t :: t in s ==> Has(m, t, st)
  }

  ghost predicate Flagged(m: Memory, s: seq<Thread>, flag: bool) {
    forall t :: t in s && t in m ==> m[t].detached == flag
  }

  ghost predicate Waiting(m: Memory, s: seq<Thread>) {
    forall t :: t in s && t in m ==> m[t].wait != null
  }

  /** A list with a last pointer; of an empty one the last pointer may be stale. */
  ghost predicate Fifo(m: Memory, s: seq<Thread>, head: Thread?, last: Thread?, st: State) {
    Segment(m, s, head, null) && (s != [] ==> last == s[|s| - 1]) && All(m, s, st)
  }

  /** What a thread may have become by the time it comes back to the scheduler. */
  ghost predicate Returning(c: Cell) {
    && c.next == null
    && (c.state == Running || (c.state == CondWait && c.wait != null)
        || (c.state == Terminated && !c.detached) || (c.state == Detached && c.detached))
  }

  ghost predicate OnCpu(m: Memory, s: seq<Thread>) {
    |s| <= 1 && forall t :: t in s ==> t in m && Returning(m[t])
  }

  /** Two memories that show the same in every thread of the list. */
  ghost predicate Agree(m: Memory, n: Memory, s: seq<Thread>) {
    forall t :: t in s && t in m ==> t in n && n[t] == m[t]
  }

  lemma {:induction false} SegmentKept(m: Memory, n: Memory, s: seq<Thread>, head: Thread?, end: Thread?)
    requires Agree(m, n, s) && Segment(m, s, head, end)
    ensures Segment(n, s, head, end)
    decreases |s|
  {
    if s != [] { SegmentKept(m, n, s[1..], m[s[0]].next, end); }
  }

  lemma {:induction false} SegmentSplit(m: Memory, s: seq<Thread>, head: Thread?, end: Thread?)
    requires s != [] && Segment(m, s, head, end)
    ensures Segment(m, s[..|s| - 1], head, s[|s| - 1]) && s[|s| - 1] in m && m[s[|s| - 1]].next == end
    decreases |s|
  {
    if |s| > 1 {
      SegmentSplit(m, s[1..], m[s[0]].next, end);
      assert s[..|s| - 1][1..] == s[1..][..|s| - 2];
    } else {
      assert s[1..] == [] && s[..0] == [];
    }
  }

  lemma {:induction false} SegmentJoin(m: Memory, s: seq<Thread>, head: Thread?, t: Thread, end: Thread?)
    requires Segment(m, s, head, t) && t in m && m[t].next == end
    ensures Segment(m, s + [t], head, end)
    decreases |s|
  {
    if s == [] {
      assert (s + [t])[1..] == [];
    } else {
      SegmentJoin(m, s[1..], m[s[0]].next, t, end);
      assert (s + [t])[1..] == s[1..] + [t];
    }
  }

  /** The memory after t has been linked behind the last thread of a list. */
  ghost function LinkedLast(m: Memory, head: Thread?, last: Thread?, t: Thread): Memory {
    var n := if head != null && last != null && last in m then m[last := m[last].(next := t)] else m;
    if t in n then n[t := n[t].(next := null)] else n
  }

  lemma LinkingLast(m: Memory, s: seq<Thread>, head: Thread?, last: Thread?, t: Thread, st: State)
    requires Fifo(m, s, head, last, st) && t !in s && Has(m, t, st)
    requires s != [] ==> s[|s| - 1] !in s[..|s| - 1]
    ensures Fifo(LinkedLast(m, head, last, t), s + [t], if head == null then t else head, t, st)
  {
    var n := LinkedLast(m, head, last, t);
    if s == [] {
      SegmentJoin(n, s, t, t, null);
    } else {
      SegmentSplit(m, s, head, null);
      var r := s[..|s| - 1];
      assert s == r + [last];
      SegmentKept(m, n, r, head, last);
      SegmentJoin(n, r, head, last, t);
      SegmentJoin(n, s, head, t, null);
    }
  }

  // ------------------------------------------------------------------ everything in its place

  datatype Pointers = Pointers(readyHead: Thread?, readyLast: Thread?, waitHead: Thread?, waitLast: Thread?,
                               deleteHead: Thread?, poolHead: Thread?)

  ghost predicate Others(m: Memory, p: Places<Thread>, h: Pointers) {
    && Segment(m, p.deleted, h.deleteHead, null) && All(m, p.deleted, Detached) && Flagged(m, p.deleted, true)
    && Segment(m, p.pool, h.poolHead, null) && All(m, p.pool, Invalid)
    && All(m, p.terminated, Terminated) && Flagged(m, p.terminated, false)
    && OnCpu(m, p.running)
  }

  /** The cleanup thread never ends. */
  ghost predicate Endless(m: Memory, t: Thread) { t in m && m[t].state != Terminated }

  ghost predicate InPlace(m: Memory, p: Places<Thread>, h: Pointers, cleanup: Thread) {
    && OnePlaceEach(p) && cleanup !in Everyone(p) && Endless(m, cleanup)
    && Fifo(m, p.ready, h.readyHead, h.readyLast, Ready)
    && Fifo(m, p.waiting, h.waitHead, h.waitLast, CondWait) && Waiting(m, p.waiting)
    && Others(m, p, h)
  }

  lemma FifoKept(m: Memory, n: Memory, s: seq<Thread>, head: Thread?, last: Thread?, st: State)
    requires Agree(m, n, s) && Fifo(m, s, head, last, st)
    ensures Fifo(n, s, head, last, st)
  {
    SegmentKept(m, n, s, head, null);
  }

  lemma OthersKept(m: Memory, n: Memory, p: Places<Thread>, h: Pointers)
    requires Agree(m, n, p.deleted) && Agree(m, n, p.pool) && Agree(m, n, p.terminated) && Agree(m, n, p.running)
    requires Others(m, p, h)
    ensures Others(n, p, h)
  {
    hide Segment;
    SegmentKept(m, n, p.deleted, h.deleteHead, null);
    SegmentKept(m, n, p.pool, h.poolHead, null);
  }

  /** A thread is in at most one of the lists, once. */
  lemma OnlyIn(p: Places<Thread>, t: Thread)
    requires OnePlaceEach(p)
    ensures t in p.ready ==> t !in p.waiting && t !in p.deleted && t !in p.pool && t !in p.terminated && t !in p.running
    ensures t in p.waiting ==> t !in p.deleted && t !in p.pool && t !in p.terminated && t !in p.running
    ensures t in p.deleted ==> t !in p.pool && t !in p.terminated && t !in p.running
    ensures t in p.pool ==> t !in p.terminated && t !in p.running
    ensures t in p.terminated ==> t !in p.running
    ensures t !in Everyone(p) <==> t !in p.ready && t !in p.waiting && t !in p.deleted && t !in p.pool && t !in p.terminated && t !in p.running
  {
    assert Everyone(p)[t] == multiset(p.ready)[t] + multiset(p.waiting)[t] + multiset(p.deleted)[t]
                           + multiset(p.pool)[t] + multiset(p.terminated)[t] + multiset(p.running)[t];
  }

  lemma {:induction false} LastOnce(p: Places<Thread>, s: seq<Thread>)
    requires OnePlaceEach(p) && multiset(s) <= Everyone(p)
    ensures s != [] ==> s[|s| - 1] !in s[..|s| - 1]
  {
    hide Everyone;
    if s != [] {
      var t := s[|s| - 1];
      assert s == s[..|s| - 1] + [t];
      assert multiset(s)[t] == multiset(s[..|s| - 1])[t] + 1;
      assert t in multiset(s);
    }
  }

  /** With t added to one list, or with some threads left out, still nobody is in two places. */
  lemma AddedOnce(p: Places<Thread>, q: Places<Thread>, t: Thread, cleanup: Thread)
    requires OnePlaceEach(p) && cleanup !in Everyone(p) && t !in Everyone(p) && t != cleanup
    requires Everyone(q) == Everyone(p) + multiset{t}
    ensures OnePlaceEach(q) && cleanup !in Everyone(q)
  {
    hide Everyone;
  }

  lemma Fewer(p: Places<Thread>, q: Places<Thread>, cleanup: Thread)
    requires OnePlaceEach(p) && cleanup !in Everyone(p) && Everyone(q) <= Everyone(p)
    ensures OnePlaceEach(q) && cleanup !in Everyone(q)
  {
    hide Everyone;
  }

  lemma QueuesInAll(p: Places<Thread>, t: Thread)
    ensures multiset(p.ready) <= Everyone(p) && multiset(p.waiting) <= Everyone(p)
    ensures Everyone(p.(ready := p.ready + [t])) == Everyone(p) + multiset{t}
    ensures Everyone(p.(waiting := p.waiting + [t])) == Everyone(p) + multiset{t}
    ensures Everyone(p.(deleted := [t] + p.deleted)) == Everyone(p) + multiset{t}
    ensures Everyone(p.(pool := [t] + p.pool)) == Everyone(p) + multiset{t}
    ensures Everyone(p.(terminated := p.terminated + [t])) == Everyone(p) + multiset{t}
  {
  }

  ghost function ReadyHeads(h: Pointers, t: Thread): Pointers {
    h.(readyHead := if h.readyHead == null then t else h.readyHead, readyLast := t)
  }

  ghost function WaitHeads(h: Pointers, t: Thread): Pointers {
    h.(waitHead := if h.waitHead == null then t else h.waitHead, waitLast := t)
  }

  ghost function WithState(m: Memory, t: Thread, st: State): Memory {
    if t in m then m[t := m[t].(state := st)] else m
  }

  /** What is written in a thread that is in no list shows in none. */
  lemma WrittenOutside(m: Memory, n: Memory, p: Places<Thread>, h: Pointers, cleanup: Thread, t: Thread)
    requires InPlace(m, p, h, cleanup) && t !in Everyone(p)
    requires n.Keys == m.Keys && forall u :: u in m && u != t ==> n[u] == m[u]
    requires t == cleanup ==> Endless(n, t)
    ensures InPlace(n, p, h, cleanup)
  {
    hide Everyone, OnePlaceEach, Others, Fifo;
    OnlyIn(p, t);
    FifoKept(m, n, p.ready, h.readyHead, h.readyLast, Ready);
    FifoKept(m, n, p.waiting, h.waitHead, h.waitLast, CondWait);
    OthersKept(m, n, p, h);
  }

  lemma WithStateKeeps(m: Memory, p: Places<Thread>, h: Pointers, cleanup: Thread, t: Thread, st: State)
    requires InPlace(m, p, h, cleanup) && t !in Everyone(p) && (t == cleanup ==> st != Terminated)
    ensures InPlace(WithState(m, t, st), p, h, cleanup)
  {
    hide Everyone, Others, Fifo, Waiting, OnePlaceEach;
    WrittenOutside(m, WithState(m, t, st), p, h, cleanup, t);
  }

  lemma ReadyAppended(m: Memory, p: Places<Thread>, h: Pointers, cleanup: Thread, t: Thread)
    requires InPlace(m, p, h, cleanup) && t !in Everyone(p) && t != cleanup && Has(m, t, Ready)
    ensures InPlace(LinkedLast(m, h.readyHead, h.readyLast, t), p.(ready := p.ready + [t]), ReadyHeads(h, t), cleanup)
  {
    var n := LinkedLast(m, h.readyHead, h.readyLast, t);
    var q := p.(ready := p.ready + [t]);
    hide Everyone, OnePlaceEach, Others, Segment, Waiting;
    QueuesInAll(p, t);
    AddedOnce(p, q, t, cleanup);
    OnlyIn(p, t);
    LastOnce(p, p.ready);
    LinkingLast(m, p.ready, h.readyHead, h.readyLast, t, Ready);
    ReadyAgrees(m, p, h, t);
    FifoKept(m, n, p.waiting, h.waitHead, h.waitLast, CondWait);
    WaitingKept(m, n, p.waiting);
    OthersKept(m, n, p, h);
    SameOthers(n, p, q, h, ReadyHeads(h, t));
  }

  lemma SameOthers(m: Memory, p: Places<Thread>, q: Places<Thread>, h: Pointers, k: Pointers)
    requires Others(m, p, h)
    requires q == p.(ready := q.ready, waiting := q.waiting) && k.deleteHead == h.deleteHead && k.poolHead == h.poolHead
    ensures Others(m, q, k)
  {
  }

  lemma WaitingKept(m: Memory, n: Memory, s: seq<Thread>)
    requires Agree(m, n, s) && Waiting(m, s) && All(m, s, CondWait)
    ensures Waiting(n, s)
  {
  }

  lemma ReadyAgrees(m: Memory, p: Places<Thread>, h: Pointers, t: Thread)
    requires OnePlaceEach(p) && t !in Everyone(p) && Fifo(m, p.ready, h.readyHead, h.readyLast, Ready)
    ensures var n := LinkedLast(m, h.readyHead, h.readyLast, t);
      Agree(m, n, p.waiting) && Agree(m, n, p.deleted) && Agree(m, n, p.pool) && Agree(m, n, p.terminated) && Agree(m, n, p.running)
  {
    hide Everyone, OnePlaceEach, Segment;
    OnlyIn(p, t);
    if p.ready != [] { OnlyIn(p, p.ready[|p.ready| - 1]); }
    EmptyHead(m, p.ready, h.readyHead);
  }

  lemma EmptyHead(m: Memory, s: seq<Thread>, head: Thread?)
    requires Segment(m, s, head, null)
    ensures s == [] <==> head == null
  {
  }

  lemma WaitAgrees(m: Memory, p: Places<Thread>, h: Pointers, t: Thread)
    requires OnePlaceEach(p) && t !in Everyone(p) && Fifo(m, p.waiting, h.waitHead, h.waitLast, CondWait)
    ensures var n := LinkedLast(m, h.waitHead, h.waitLast, t);
      Agree(m, n, p.ready) && Agree(m, n, p.deleted) && Agree(m, n, p.pool) && Agree(m, n, p.terminated) && Agree(m, n, p.running)
  {
    hide Everyone, OnePlaceEach, Segment;
    OnlyIn(p, t);
    if p.waiting != [] { OnlyIn(p, p.waiting[|p.waiting| - 1]); }
    EmptyHead(m, p.waiting, h.waitHead);
  }

  lemma WaitLinked(m: Memory, h: Pointers, t: Thread, s: seq<Thread>)
    requires Waiting(m, s) && t in m && m[t].wait != null
    ensures Waiting(LinkedLast(m, h.waitHead, h.waitLast, t), s + [t]) && LinkedLast(m, h.waitHead, h.waitLast, t).Keys == m.Keys
  {
  }

  lemma WaitAppended(m: Memory, p: Places<Thread>, h: Pointers, cleanup: Thread, t: Thread)
    requires InPlace(m, p, h, cleanup) && t !in Everyone(p) && t != cleanup && Has(m, t, CondWait) && m[t].wait != null
    ensures InPlace(LinkedLast(m, h.waitHead, h.waitLast, t), p.(waiting := p.waiting + [t]), WaitHeads(h, t), cleanup)
  {
    var n := LinkedLast(m, h.waitHead, h.waitLast, t);
    var q := p.(waiting := p.waiting + [t]);
    hide Everyone, OnePlaceEach, Others, Segment, LinkedLast;
    QueuesInAll(p, t);
    AddedOnce(p, q, t, cleanup);
    OnlyIn(p, t);
    LastOnce(p, p.waiting);
    WaitLinked(m, h, t, p.waiting);
    LinkingIsEndless(m, h.waitHead, h.waitLast, t, cleanup);
    LinkingLast(m, p.waiting, h.waitHead, h.waitLast, t, CondWait);
    WaitAgrees(m, p, h, t);
    FifoKept(m, n, p.ready, h.readyHead, h.readyLast, Ready);
    OthersKept(m, n, p, h);
    SameOthers(n, p, q, h, WaitHeads(h, t));
  }

  lemma LinkingIsEndless(m: Memory, head: Thread?, last: Thread?, t: Thread, cleanup: Thread)
    requires Endless(m, cleanup)
    ensures Endless(LinkedLast(m, head, last, t), cleanup)
  {
  }

  /** The memory after t has been pushed in front of a list. */
  ghost function Pushed(m: Memory, head: Thread?, t: Thread): Memory {
    if t in m then m[t := m[t].(next := head)] else m
  }

  lemma {:induction false} PushedFront(m: Memory, s: seq<Thread>, head: Thread?, t: Thread)
    requires Segment(m, s, head, null) && t !in s && t in m
    ensures Segment(Pushed(m, head, t), [t] + s, t, null)
  {
    SegmentKept(m, Pushed(m, head, t), s, head, null);
    assert ([t] + s)[1..] == s;
  }

  lemma DeletePushed(m: Memory, p: Places<Thread>, h: Pointers, cleanup: Thread, t: Thread)
    requires InPlace(m, p, h, cleanup) && t !in Everyone(p) && t != cleanup && Has(m, t, Detached) && m[t].detached
    ensures InPlace(Pushed(m, h.deleteHead, t), p.(deleted := [t] + p.deleted), h.(deleteHead := t), cleanup)
  {
    var n := Pushed(m, h.deleteHead, t);
    var q := p.(deleted := [t] + p.deleted);
    hide Everyone, OnePlaceEach, Segment, Fifo, OnCpu;
    QueuesInAll(p, t);
    AddedOnce(p, q, t, cleanup);
    OnlyIn(p, t);
    FifoKept(m, n, p.ready, h.readyHead, h.readyLast, Ready);
    FifoKept(m, n, p.waiting, h.waitHead, h.waitLast, CondWait);
    OthersKept(m, n, p, h);
    PushedFront(m, p.deleted, h.deleteHead, t);
  }

  lemma PoolPushed(m: Memory, p: Places<Thread>, h: Pointers, cleanup: Thread, t: Thread)
    requires InPlace(m, p, h, cleanup) && t !in Everyone(p) && t != cleanup && Has(m, t, Invalid)
    ensures InPlace(Pushed(m, h.poolHead, t), p.(pool := [t] + p.pool), h.(poolHead := t), cleanup)
  {
    var n := Pushed(m, h.poolHead, t);
    var q := p.(pool := [t] + p.pool);
    hide Everyone, OnePlaceEach, Segment, Fifo, OnCpu;
    QueuesInAll(p, t);
    AddedOnce(p, q, t, cleanup);
    OnlyIn(p, t);
    FifoKept(m, n, p.ready, h.readyHead, h.readyLast, Ready);
    FifoKept(m, n, p.waiting, h.waitHead, h.waitLast, CondWait);
    OthersKept(m, n, p, h);
    PushedFront(m, p.pool, h.poolHead, t);
  }

  /** A thread that ended undetached is put in no list. */
  lemma LeftUnjoined(m: Memory, p: Places<Thread>, h: Pointers, cleanup: Thread, t: Thread)
    requires InPlace(m, p, h, cleanup) && t !in Everyone(p) && t != cleanup && Has(m, t, Terminated) && !m[t].detached
    ensures InPlace(m, p.(terminated := p.terminated + [t]), h, cleanup)
  {
    hide Everyone, OnePlaceEach, Segment;
    QueuesInAll(p, t);
    AddedOnce(p, p.(terminated := p.terminated + [t]), t, cleanup);
  }

  /** The memory after the ready head has been taken and set running. */
  ghost function HeadTaken(m: Memory, t: Thread): Memory {
    if t in m then m[t := m[t].(next := null, state := Running)] else m
  }

  lemma HeadDispatched(m: Memory, p: Places<Thread>, h: Pointers, cleanup: Thread)
    requires InPlace(m, p, h, cleanup) && p.running == [] && p.ready != []
    ensures var t := p.ready[0];
      t in m && h.readyHead == t && InPlace(HeadTaken(m, t), Dispatch(p), h.(readyHead := m[t].next), cleanup)
    ensures Everyone(Dispatch(p)) == Everyone(p)
  {
    hide Everyone, OnePlaceEach, Others, Dispatch, Waiting, Fifo;
    var t := p.ready[0];
    var n := HeadTaken(m, t);
    DispatchConserves(p);
    HeadIsApart(p);
    Fewer(p, Dispatch(p), cleanup);
    OnlyIn(p, t);
    TailOfFifo(m, p.ready, h.readyHead, h.readyLast, Ready);
    FifoKept(m, n, p.ready[1..], m[t].next, h.readyLast, Ready);
    FifoKept(m, n, p.waiting, h.waitHead, h.waitLast, CondWait);
    FifoWaits(m, p, h);
    WaitingKept(m, n, p.waiting);
    OthersKept(m, n, p, h);
    NowOnCpu(n, p, h, m[t].next);
    Dispatched(p);
  }

  lemma FifoWaits(m: Memory, p: Places<Thread>, h: Pointers)
    requires Fifo(m, p.waiting, h.waitHead, h.waitLast, CondWait)
    ensures All(m, p.waiting, CondWait)
  {
  }

  lemma Dispatched(p: Places<Thread>)
    requires p.ready != []
    ensures Dispatch(p) == p.(running := [p.ready[0]], ready := p.ready[1..])
  {
  }

  lemma TailOfFifo(m: Memory, s: seq<Thread>, head: Thread?, last: Thread?, st: State)
    requires Fifo(m, s, head, last, st) && s != []
    ensures head == s[0] && s[0] in m && Fifo(m, s[1..], m[s[0]].next, last, st)
  {
  }

  lemma NowOnCpu(m: Memory, p: Places<Thread>, h: Pointers, next: Thread?)
    requires Others(m, p, h) && p.ready != [] && Has(m, p.ready[0], Running) && m[p.ready[0]].next == null
    ensures Others(m, p.(running := [p.ready[0]], ready := p.ready[1..]), h.(readyHead := next))
  {
  }

  lemma HeadIsApart(p: Places<Thread>)
    requires OnePlaceEach(p) && p.ready != []
    ensures p.ready[0] !in p.ready[1..]
  {
    HeadAndTail(p.ready);
    var t := p.ready[0];
    assert t in p.ready && Everyone(p)[t] <= 1;
  }

  /** A thread taken off the processor is in no list for the moment. */
  lemma TakenOff(m: Memory, p: Places<Thread>, h: Pointers, cleanup: Thread, t: Thread)
    requires InPlace(m, p, h, cleanup) && p.running == [t]
    ensures InPlace(m, p.(running := []), h, cleanup) && t !in Everyone(p.(running := []))
    ensures t != cleanup && t in m && Returning(m[t])
  {
    var q := p.(running := []);
    assert Everyone(p) == Everyone(q) + multiset{t};
    hide Everyone, Segment;
    assert t in Everyone(p) && Everyone(p)[t] == Everyone(q)[t] + 1;
    Fewer(p, q, cleanup);
  }

  // ------------------------------------------------------------------ threads in flight between two lists

  /** Only links and states differ. */
  ghost predicate SameFlags(m: Memory, n: Memory) {
    m.Keys == n.Keys && forall t :: t in m ==> n[t].detached == m[t].detached && n[t].wait == m[t].wait
  }

  lemma LinkingKeepsFlags(m: Memory, head: Thread?, last: Thread?, t: Thread)
    ensures SameFlags(m, LinkedLast(m, head, last, t))
  {
  }

  lemma SettingKeepsFlags(m: Memory, t: Thread, st: State)
    ensures SameFlags(m, WithState(m, t, st))
  {
  }

  lemma SameFlagsTrans(m: Memory, n: Memory, o: Memory)
    requires SameFlags(m, n) && SameFlags(n, o)
    ensures SameFlags(m, o)
  {
  }

  lemma LinkingLeaves(m: Memory, head: Thread?, last: Thread?, t: Thread, st: State, x: seq<Thread>)
    requires t !in x && (head != null ==> last !in x)
    ensures Agree(m, LinkedLast(m, head, last, t), x)
    ensures Agree(m, LinkedLast(WithState(m, t, st), head, last, t), x)
  {
  }

  /** The head of a chain, none of whose threads is in a list yet, can be made ready; the rest is still a chain. */
  lemma ChainStep(m: Memory, p: Places<Thread>, h: Pointers, cleanup: Thread, rest: seq<Thread>, t: Thread)
    requires InPlace(m, p, h, cleanup) && Segment(m, rest, t, null)
    requires OnePlaceEach(p.(ready := p.ready + rest)) && cleanup !in rest
    ensures t in m && t !in Everyone(p) && t != cleanup && rest != [] && t == rest[0]
    ensures Segment(LinkedLast(WithState(m, t, Ready), h.readyHead, h.readyLast, t), rest[1..], m[t].next, null)
  {
    hide Everyone, OnePlaceEach, Others, LinkedLast, WithState, Waiting, All;
    var n := LinkedLast(WithState(m, t, Ready), h.readyHead, h.readyLast, t);
    FlightApart(p, rest);
    EmptyHead(m, p.ready, h.readyHead);
    LinkingLeaves(m, h.readyHead, h.readyLast, t, Ready, rest[1..]);
    SegmentKept(m, n, rest[1..], m[t].next, null);
  }

  lemma FlightApart(p: Places<Thread>, rest: seq<Thread>)
    requires OnePlaceEach(p.(ready := p.ready + rest)) && rest != []
    ensures rest[0] !in Everyone(p) && rest[0] !in rest[1..]
    ensures forall u :: u in p.ready ==> u !in rest[1..]
  {
    var q := p.(ready := p.ready + rest);
    assert Everyone(q) == Everyone(p) + multiset(rest);
    assert multiset(p.ready) <= Everyone(p);
    hide Everyone, OnePlaceEach;
    HeadAndTail(rest);
    FlightCounts(q, p, p.ready, [], rest[0], rest[1..]);
  }

  lemma {:induction false} FilterStep(s: seq<Thread>, on: set<Thread>, i: nat)
    requires i < |s|
    ensures Without(s[..i + 1], on) == if s[i] in on then Without(s[..i], on) else Without(s[..i], on) + [s[i]]
    ensures ReversedOnly(s[..i + 1], on) == if s[i] in on then [s[i]] + ReversedOnly(s[..i], on) else ReversedOnly(s[..i], on)
  {
    assert s[..i + 1][..i] == s[..i];
  }

  /** While the pass is at waiter i, that waiter is in no list and in neither of the two chains. */
  lemma WakeFlight(p: Places<Thread>, on: set<Thread>, i: nat)
    requires OnePlaceEach(p) && i < |p.waiting|
    ensures var t := p.waiting[i]; var r := p.waiting[..i];
      && t !in Everyone(p.(waiting := Without(r, on))) && t !in ReversedOnly(r, on) && t !in p.waiting[i + 1..]
      && (forall u :: u in Without(r, on) ==> u !in ReversedOnly(r, on) && u !in p.waiting[i + 1..])
  {
    var t, r, z := p.waiting[i], p.waiting[..i], p.waiting[i + 1..];
    assert p.waiting == r + ([t] + z);
    FilterSplits(r, on);
    var q := p.(waiting := Without(r, on));
    assert Everyone(p) == Everyone(q) + multiset(ReversedOnly(r, on)) + multiset{t} + multiset(z);
    assert multiset(Without(r, on)) <= Everyone(q);
    FlightCounts(p, q, Without(r, on), ReversedOnly(r, on), t, z);
  }

  lemma FlightCounts(p: Places<Thread>, q: Places<Thread>, w: seq<Thread>, c: seq<Thread>, t: Thread, z: seq<Thread>)
    requires OnePlaceEach(p) && Everyone(p) == Everyone(q) + multiset(c) + multiset{t} + multiset(z) && multiset(w) <= Everyone(q)
    ensures t !in Everyone(q) && t !in c && t !in z && forall u :: u in w ==> u !in c && u !in z
  {
    hide Everyone;
    assert t in Everyone(p) && Everyone(p)[t] <= 1;
    assert multiset(c)[t] == 0 && multiset(z)[t] == 0;
    forall u | u in w ensures u !in c && u !in z {
      assert u in multiset(w) && u in Everyone(p) && Everyone(p)[u] <= 1;
      assert multiset(c)[u] == 0 && multiset(z)[u] == 0;
    }
  }

  /** A waiter put back leaves the rest of the waiters, and the chain to resume, as they were. */
  lemma PutBack(m: Memory, p: Places<Thread>, h: Pointers, t: Thread, x: seq<Thread>, head: Thread?)
    requires Fifo(m, p.waiting, h.waitHead, h.waitLast, CondWait) && Segment(m, x, head, null)
    requires t !in x && forall u :: u in p.waiting ==> u !in x
    ensures Segment(LinkedLast(m, h.waitHead, h.waitLast, t), x, head, null)
  {
    EmptyHead(m, p.waiting, h.waitHead);
    SegmentKept(m, LinkedLast(m, h.waitHead, h.waitLast, t), x, head, null);
  }

  /** The wait list taken away whole; its threads are in flight. */
  lemma WaitListTaken(m: Memory, p: Places<Thread>, h: Pointers, cleanup: Thread)
    requires InPlace(m, p, h, cleanup)
    ensures InPlace(m, p.(waiting := []), h.(waitHead := null, waitLast := null), cleanup)
    ensures Segment(m, p.waiting, h.waitHead, null) && All(m, p.waiting, CondWait) && Waiting(m, p.waiting)
  {
    var q := p.(waiting := []);
    assert Everyone(q) <= Everyone(p);
    hide Everyone, OnePlaceEach, Segment;
    Fewer(p, q, cleanup);
    EmptySegment(m);
  }

  lemma EmptySegment(m: Memory)
    ensures Segment(m, [], null, null)
  {
  }

  /** The waiters that woke go behind the ready threads. */
  lemma WokenGo(p: Places<Thread>, on: set<Thread>, cleanup: Thread)
    requires OnePlaceEach(p) && cleanup !in Everyone(p)
    ensures var q := p.(waiting := Without(p.waiting, on)); var c := ReversedOnly(p.waiting, on);
      OnePlaceEach(q.(ready := q.ready + c)) && cleanup !in c && Wake(p, on) == q.(ready := q.ready + c)
  {
    WakeConserves(p, on);
    var c := ReversedOnly(p.waiting, on);
    assert multiset(c) <= Everyone(Wake(p, on));
    assert cleanup in c ==> cleanup in multiset(c);
    hide Everyone;
    Fewer(p, Wake(p, on), cleanup);
  }

  lemma Linked(m: Memory, s: seq<Thread>, t: Thread)
    requires Segment(m, s, t, null)
    ensures s != [] && t == s[0] && t in m && Segment(m, s[1..], m[t].next, null)
  {
  }

  /** How things stand when the wake-up pass has looked at i of the waiters s. */
  ghost predicate AtWaiter(m: Memory, p0: Places<Thread>, p: Places<Thread>, h: Pointers, cleanup: Thread, on: set<Thread>,
                           i: nat, waiting: Thread?, resume: Thread?) {
    && i <= |p0.waiting|
    && InPlace(m, p, h, cleanup) && p == p0.(waiting := Without(p0.waiting[..i], on))
    && Segment(m, p0.waiting[i..], waiting, null)
    && Segment(m, ReversedOnly(p0.waiting[..i], on), resume, null)
    && All(m, p0.waiting, CondWait) && Waiting(m, p0.waiting)
  }

  lemma FirstWaiter(m: Memory, p: Places<Thread>, h: Pointers, cleanup: Thread, on: set<Thread>)
    requires InPlace(m, p, h, cleanup)
    ensures AtWaiter(m, p, p.(waiting := []), h.(waitHead := null, waitLast := null), cleanup, on, 0, h.waitHead, null)
  {
    WaitListTaken(m, p, h, cleanup);
    hide InPlace, Segment;
    assert p.waiting[0..] == p.waiting && p.waiting[..0] == [];
    EmptySegment(m);
  }

  lemma NextWaiter(m: Memory, p0: Places<Thread>, p: Places<Thread>, h: Pointers, cleanup: Thread, on: set<Thread>,
                   i: nat, t: Thread, resume: Thread?)
    requires AtWaiter(m, p0, p, h, cleanup, on, i, t, resume) && OnePlaceEach(p0) && cleanup !in Everyone(p0)
    ensures i < |p0.waiting| && t == p0.waiting[i] && t != cleanup && Has(m, t, CondWait) && m[t].wait != null
    ensures Segment(m, p0.waiting[i + 1..], m[t].next, null)
    ensures t !in Everyone(p) && t !in ReversedOnly(p0.waiting[..i], on) && t !in p0.waiting[i + 1..]
    ensures forall u :: u in p.waiting ==> u !in ReversedOnly(p0.waiting[..i], on) && u !in p0.waiting[i + 1..]
  {
    hide InPlace, Segment, Everyone;
    Linked(m, p0.waiting[i..], t);
    assert p0.waiting[i..][1..] == p0.waiting[i + 1..];
    WakeFlight(p0, on, i);
    NotACleanup(p0, t, cleanup);
  }

  lemma NotACleanup(p: Places<Thread>, t: Thread, cleanup: Thread)
    requires t in p.waiting && cleanup !in Everyone(p)
    ensures t != cleanup
  {
    assert t in Everyone(p);
  }

  /** A waiter that wakes goes in front of the chain to resume. */
  lemma WaiterResumes(m: Memory, p0: Places<Thread>, p: Places<Thread>, h: Pointers, cleanup: Thread, on: set<Thread>,
                      i: nat, t: Thread, resume: Thread?)
    requires AtWaiter(m, p0, p, h, cleanup, on, i, t, resume) && OnePlaceEach(p0) && cleanup !in Everyone(p0)
    requires t in on
    ensures t in m && AtWaiter(Pushed(m, resume, t), p0, p, h, cleanup, on, i + 1, m[t].next, t)
  {
    hide InPlace, Segment, Everyone, OnePlaceEach, Without, ReversedOnly;
    NextWaiter(m, p0, p, h, cleanup, on, i, t, resume);
    FilterStep(p0.waiting, on, i);
    var n := Pushed(m, resume, t);
    WrittenOutside(m, n, p, h, cleanup, t);
    PushedFront(m, ReversedOnly(p0.waiting[..i], on), resume, t);
    SegmentKept(m, n, p0.waiting[i + 1..], m[t].next, null);
  }

  /** A waiter that does not is put back behind those that do not. */
  lemma WaiterPutBack(m: Memory, p0: Places<Thread>, p: Places<Thread>, h: Pointers, cleanup: Thread, on: set<Thread>,
                      i: nat, t: Thread, resume: Thread?)
    requires AtWaiter(m, p0, p, h, cleanup, on, i, t, resume) && OnePlaceEach(p0) && cleanup !in Everyone(p0)
    requires t !in on
    ensures t in m && AtWaiter(LinkedLast(m, h.waitHead, h.waitLast, t), p0, p.(waiting := p.waiting + [t]), WaitHeads(h, t),
                               cleanup, on, i + 1, m[t].next, resume)
  {
    hide InPlace, Segment, Everyone, OnePlaceEach, Without, ReversedOnly, LinkedLast;
    NextWaiter(m, p0, p, h, cleanup, on, i, t, resume);
    FilterStep(p0.waiting, on, i);
    var n := LinkedLast(m, h.waitHead, h.waitLast, t);
    WaitAppended(m, p, h, cleanup, t);
    WaitIsFifo(m, p, h, cleanup);
    PutBack(m, p, h, t, p0.waiting[i + 1..], m[t].next);
    PutBack(m, p, h, t, ReversedOnly(p0.waiting[..i], on), resume);
    LinkingKeepsStates(m, h.waitHead, h.waitLast, t, p0.waiting);
  }

  lemma WaitIsFifo(m: Memory, p: Places<Thread>, h: Pointers, cleanup: Thread)
    requires InPlace(m, p, h, cleanup)
    ensures Fifo(m, p.waiting, h.waitHead, h.waitLast, CondWait)
  {
  }

  lemma LinkingKeepsStates(m: Memory, head: Thread?, last: Thread?, t: Thread, s: seq<Thread>)
    requires All(m, s, CondWait) && Waiting(m, s)
    ensures All(LinkedLast(m, head, last, t), s, CondWait) && Waiting(LinkedLast(m, head, last, t), s)
  {
  }

  // ------------------------------------------------------------------ taking threads out of a list

  lemma DeleteListTaken(m: Memory, p: Places<Thread>, h: Pointers, cleanup: Thread)
    requires InPlace(m, p, h, cleanup)
    ensures InPlace(m, p.(deleted := []), h.(deleteHead := null), cleanup)
    ensures Segment(m, p.deleted, h.deleteHead, null) && All(m, p.deleted, Detached)
  {
    var q := p.(deleted := []);
    assert Everyone(q) <= Everyone(p);
    hide Everyone, OnePlaceEach, Segment;
    Fewer(p, q, cleanup);
    EmptySegment(m);
  }

  lemma PoolPopped(m: Memory, p: Places<Thread>, h: Pointers, cleanup: Thread)
    requires InPlace(m, p, h, cleanup) && p.pool != []
    ensures var t := p.pool[0]; var q := p.(pool := p.pool[1..]);
      && t in m && h.poolHead == t && t != cleanup && t !in Everyone(q)
      && InPlace(m, q, h.(poolHead := m[t].next), cleanup)
  {
    var t, q := p.pool[0], p.(pool := p.pool[1..]);
    HeadAndTail(p.pool);
    assert Everyone(p) == Everyone(q) + multiset{t};
    hide Everyone, Fifo, OnCpu;
    assert t in Everyone(p) && Everyone(p)[t] == Everyone(q)[t] + 1;
    Fewer(p, q, cleanup);
  }

  lemma PageAdded(m: Memory, n: Memory, p: Places<Thread>, h: Pointers, cleanup: Thread, page: seq<Thread>, head: Thread?)
    requires InPlace(m, p, h, cleanup) && p.pool == [] && Segment(n, page, head, null) && All(n, page, Invalid)
    requires (forall t :: t in page ==> t !in m && multiset(page)[t] == 1) && forall t :: t in m ==> t in n && n[t] == m[t]
    ensures InPlace(n, p.(pool := page), h.(poolHead := head), cleanup)
  {
    var q := p.(pool := page);
    hide Everyone, OnePlaceEach, Segment, Fifo, OnCpu;
    AllKnown(m, p, h, cleanup);
    PageApart(m, p, q, cleanup, page);
    PageLeavesLists(m, n, p);
    FifoWaits(m, p, h);
    WaitingKept(m, n, p.waiting);
    FifoKept(m, n, p.ready, h.readyHead, h.readyLast, Ready);
    FifoKept(m, n, p.waiting, h.waitHead, h.waitLast, CondWait);
    OthersKept(m, n, p, h);
  }

  lemma PageApart(m: Memory, p: Places<Thread>, q: Places<Thread>, cleanup: Thread, page: seq<Thread>)
    requires OnePlaceEach(p) && cleanup !in Everyone(p) && cleanup in m && p.pool == [] && q == p.(pool := page)
    requires (forall t :: t in page ==> t !in m && multiset(page)[t] == 1) && forall t :: t in Everyone(p) ==> t in m
    ensures OnePlaceEach(q) && cleanup !in Everyone(q)
  {
    assert Everyone(q) == Everyone(p) + multiset(page);
    hide Everyone;
    forall t | t in Everyone(q) ensures Everyone(q)[t] <= 1 {
      if t in page { assert t !in m; }
    }
  }

  lemma PageLeavesLists(m: Memory, n: Memory, p: Places<Thread>)
    requires forall t :: t in m ==> t in n && n[t] == m[t]
    ensures Agree(m, n, p.ready) && Agree(m, n, p.waiting) && Agree(m, n, p.deleted) && Agree(m, n, p.pool)
    ensures Agree(m, n, p.terminated) && Agree(m, n, p.running)
  {
  }

  /** Every thread in a list is in memory. */
  lemma AllKnown(m: Memory, p: Places<Thread>, h: Pointers, cleanup: Thread)
    requires InPlace(m, p, h, cleanup)
    ensures forall t :: t in Everyone(p) ==> t in m
  {
    hide Segment, OnePlaceEach, Everyone;
    SegmentKnown(m, p.deleted, h.deleteHead, null);
    SegmentKnown(m, p.pool, h.poolHead, null);
    forall t | t in Everyone(p) ensures t in m {
      OnlyIn(p, t);
      assert t in p.ready ==> Has(m, t, Ready);
    }
  }

  lemma {:induction false} SegmentKnown(m: Memory, s: seq<Thread>, head: Thread?, end: Thread?)
    requires Segment(m, s, head, end)
    ensures forall t :: t in s ==> t in m
    decreases |s|
  {
    if s != [] {
      SegmentKnown(m, s[1..], m[s[0]].next, end);
      assert s == [s[0]] + s[1..];
    }
  }

  /** A thread leaves those that ended and nobody has joined. */
  lemma UnjoinedTaken(m: Memory, p: Places<Thread>, h: Pointers, cleanup: Thread, t: Thread)
    requires InPlace(m, p, h, cleanup) && t in p.terminated
    ensures var q := p.(terminated := RemoveFirst(p.terminated, t));
      InPlace(m, q, h, cleanup) && t !in Everyone(q) && t != cleanup && t in m
  {
    var q := p.(terminated := RemoveFirst(p.terminated, t));
    RemoveFirstLess(p.terminated, t);
    assert Everyone(p) == Everyone(q) + multiset{t};
    forall u | u in q.terminated ensures u in p.terminated {
      assert u in multiset(q.terminated) && u in multiset(p.terminated);
    }
    hide Everyone, Segment, Fifo, OnCpu, RemoveFirst;
    assert t in Everyone(p) && Everyone(p)[t] == Everyone(q)[t] + 1;
    Fewer(p, q, cleanup);
  }

  // ------------------------------------------------------------------ what a running thread writes

  /** A running thread may write itself as long as what it becomes can come back to the scheduler. */
  lemma RunningWrites(m: Memory, n: Memory, p: Places<Thread>, h: Pointers, cleanup: Thread, t: Thread)
    requires InPlace(m, p, h, cleanup) && p.running == [t] && t in n && Returning(n[t])
    requires n.Keys == m.Keys && forall u :: u in m && u != t ==> n[u] == m[u]
    ensures InPlace(n, p, h, cleanup)
  {
    hide Everyone, OnePlaceEach, Segment, Returning;
    OnlyIn(p, t);
    FifoKept(m, n, p.ready, h.readyHead, h.readyLast, Ready);
    FifoKept(m, n, p.waiting, h.waitHead, h.waitLast, CondWait);
    SegmentKept(m, n, p.deleted, h.deleteHead, null);
    SegmentKept(m, n, p.pool, h.poolHead, null);
  }

  /** Flagging a thread as detached disturbs nothing unless it has ended unjoined. */
  lemma FlagSet(m: Memory, n: Memory, p: Places<Thread>, h: Pointers, cleanup: Thread, t: Thread)
    requires InPlace(m, p, h, cleanup) && t in m && t !in p.terminated && n == m[t := m[t].(detached := true)]
    requires t in p.running ==> m[t].state == Running || m[t].state == CondWait
    ensures InPlace(n, p, h, cleanup)
  {
    hide Everyone, OnePlaceEach, Segment;
    SameLinks(m, n, p.ready, h.readyHead, null);
    SameLinks(m, n, p.waiting, h.waitHead, null);
    SameLinks(m, n, p.deleted, h.deleteHead, null);
    SameLinks(m, n, p.pool, h.poolHead, null);
  }

  lemma {:induction false} SameLinks(m: Memory, n: Memory, s: seq<Thread>, head: Thread?, end: Thread?)
    requires n.Keys == m.Keys && (forall t :: t in m ==> n[t].next == m[t].next) && Segment(m, s, head, end)
    ensures Segment(n, s, head, end)
    decreases |s|
  {
    if s != [] { SameLinks(m, n, s[1..], m[s[0]].next, end); }
  }
}
