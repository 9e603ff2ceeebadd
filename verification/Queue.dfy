/**
  The lock-free FIFO queue of kernel/rt/queue.c as a step machine.

  A fixed but arbitrary number of threads call push and pop.  Every read of a shared word and
  every compare-and-swap is one step of one thread; any interleaving of steps is a run.  Writes
  to a node that only its owner can reach are folded into the step beside them.
 */
module Queue {
  import opened Sequences

  /** An element pointer; 0 is NULL, which push ignores. */
  type Elem = nat

  /** A node address: an index into the node store.  Address 0 is NULL. */
  type Node = nat

  type Tid = nat

  datatype Cell = Cell(next: Node, item: Elem)

  datatype Op = Push(e: Elem) | Pop

  /** Where a thread stands; each constructor is the point before one shared access. */
  datatype Pc =
    | Idle
    | PushIgnored                                          // push of NULL
    | PushAlloc(e: Elem)                                   // take a node
    | PushReadTail(e: Elem, n: Node)                       // read queue->tail, fill in the item
    | PushScan(n: Node, oldTail: Node, tail: Node)         // test tail->next
    | PushAdvance(n: Node, oldTail: Node, tail: Node)      // re-read tail->next
    | PushLink(n: Node, oldTail: Node, tail: Node)         // CAS tail->next
    | PushSwing(n: Node, oldTail: Node)                    // CAS queue->tail
    | PopReadHead                                          // read queue->prev_head
    | PopTest(p: Node)                                     // test prev_head->next
    | PopArgument(p: Node)                                 // re-read prev_head->next
    | PopSwap(p: Node, next: Node)                         // CAS queue->prev_head
    | PopReadNext(p: Node)                                 // read prev_head->next once more
    | PopReadItem(p: Node, next: Node)                     // read next->item
    | PopFree(p: Node, r: Elem)                            // give the old head node back
    | Finished(r: Elem)

  /** The shared words, the returned nodes (head of the free list first), and every thread's pc. */
  datatype State = State(heap: seq<Cell>, prevHead: Node, tail: Node, free: seq<Node>, pcs: seq<Pc>)

  /** What a step shows: calls and returns, and the instant at which a call takes effect. */
  datatype Event =
    | Quiet
    | Call(t: Tid, op: Op)
    | Effect(t: Tid, op: Op, r: Elem)
    | Return(t: Tid, r: Elem)

  /** The scheduler's choice: an idle thread starts a call, or a busy thread takes its next step. */
  datatype Move = Start(t: Tid, op: Op) | Go(t: Tid)

  datatype Outcome = Outcome(s: State, ev: Event)

  function Init(n: nat): State {
    State([Cell(0, 0), Cell(0, 0)], 1, 1, [], seq(n, _ => Idle))
  }

  // ------------------------------------------------------------------ the steps

  /** Reads of an address outside the store never happen; 0 stands for them. */
  function NextOf(s: State, n: Node): Node {
    if n < |s.heap| then s.heap[n].next else 0
  }

  function ItemOf(s: State, n: Node): Elem {
    if n < |s.heap| then s.heap[n].item else 0
  }

  function SetNext(s: State, n: Node, v: Node): State {
    if n < |s.heap| then s.(heap := s.heap[n := s.heap[n].(next := v)]) else s
  }

  function SetItem(s: State, n: Node, e: Elem): State {
    if n < |s.heap| then s.(heap := s.heap[n := s.heap[n].(item := e)]) else s
  }

  function At(s: State, t: Tid, pc: Pc): State
    requires t < |s.pcs|
  {
    s.(pcs := s.pcs[t := pc])
  }

  /** Take a node: the head of the free list when nodes are recycled, else one never used before. */
  function TakeNode(s: State, recycle: bool): (State, Node) {
    if recycle && s.free != [] && s.free[0] < |s.heap| then
      (s.(heap := s.heap[s.free[0] := Cell(0, 0)], free := s.free[1..]), s.free[0])
    else
      (s.(heap := s.heap + [Cell(0, 0)]), |s.heap|)
  }

  /** Give a node back: its link is made to lead to the next node that may be taken. */
  function GiveNode(s: State, p: Node): State {
    SetNext(s, p, if s.free == [] then |s.heap| else s.free[0]).(free := [p] + s.free)
  }

  function Begin(op: Op): Pc {
    match op
    case Push(e) => if e == 0 then PushIgnored else PushAlloc(e)
    case Pop => PopReadHead
  }

  function StepThread(s: State, t: Tid, recycle: bool): Outcome
    requires t < |s.pcs|
  {
    match s.pcs[t]
    case Idle => Outcome(s, Quiet)
    case PushIgnored => Outcome(At(s, t, Finished(0)), Effect(t, Push(0), 0))
    case PushAlloc(e) =>
      var (s1, n) := TakeNode(s, recycle);
      Outcome(At(s1, t, PushReadTail(e, n)), Quiet)
    case PushReadTail(e, n) =>
      Outcome(At(SetItem(s, n, e), t, PushScan(n, s.tail, s.tail)), Quiet)
    case PushScan(n, from, tail) =>
      Outcome(At(s, t, if NextOf(s, tail) != 0 then PushAdvance(n, from, tail) else PushLink(n, from, tail)), Quiet)
    case PushAdvance(n, from, tail) =>
      Outcome(At(s, t, PushScan(n, from, NextOf(s, tail))), Quiet)
    case PushLink(n, from, tail) =>
      if NextOf(s, tail) == 0 then
        Outcome(At(SetNext(s, tail, n), t, PushSwing(n, from)), Effect(t, Push(ItemOf(s, n)), 0))
      else
        Outcome(At(s, t, PushScan(n, from, tail)), Quiet)
    case PushSwing(n, from) =>
      Outcome(At(if s.tail == from then s.(tail := n) else s, t, Finished(0)), Quiet)
    case PopReadHead => Outcome(At(s, t, PopTest(s.prevHead)), Quiet)
    case PopTest(p) =>
      if NextOf(s, p) == 0 then
        Outcome(At(s, t, Finished(0)), Effect(t, Pop, 0))
      else
        Outcome(At(s, t, PopArgument(p)), Quiet)
    case PopArgument(p) => Outcome(At(s, t, PopSwap(p, NextOf(s, p))), Quiet)
    case PopSwap(p, next) =>
      if s.prevHead == p then
        Outcome(At(s.(prevHead := next), t, PopReadNext(p)), Effect(t, Pop, ItemOf(s, next)))
      else
        Outcome(At(s, t, PopTest(s.prevHead)), Quiet)
    case PopReadNext(p) => Outcome(At(s, t, PopReadItem(p, NextOf(s, p))), Quiet)
    case PopReadItem(p, next) => Outcome(At(s, t, PopFree(p, ItemOf(s, next))), Quiet)
    case PopFree(p, r) => Outcome(At(if recycle then GiveNode(s, p) else s, t, Finished(r)), Quiet)
    case Finished(r) => Outcome(At(s, t, Idle), Return(t, r))
  }

  /** A move by a thread that cannot make it changes nothing. */
  function Step(s: State, m: Move, recycle: bool): Outcome {
    match m
    case Start(t, op) =>
      if t < |s.pcs| && s.pcs[t].Idle? then Outcome(At(s, t, Begin(op)), Call(t, op)) else Outcome(s, Quiet)
    case Go(t) =>
      if t < |s.pcs| then StepThread(s, t, recycle) else Outcome(s, Quiet)
  }

  /** The state and the events after a whole schedule, started with n idle threads. */
  datatype Run = Run(s: State, events: seq<Event>)

  function Execute(n: nat, moves: seq<Move>, recycle: bool): Run {
    if moves == [] then Run(Init(n), [])
    else
      var r := Execute(n, moves[..|moves| - 1], recycle);
      var o := Step(r.s, moves[|moves| - 1], recycle);
      Run(o.s, r.events + [o.ev])
  }

  // ------------------------------------------------------------------ the sequential specification

  /** A FIFO queue of elements: the only result each operation may have, and what it leaves. */
  function FifoStep(q: seq<Elem>, op: Op, r: Elem): Option<seq<Elem>> {
    match op
    case Push(e) => if r != 0 then None else if e == 0 then Some(q) else Some(q + [e])
    case Pop =>
      if q == [] then (if r == 0 then Some([]) else None)
      else if r == q[0] then Some(q[1..])
      else None
  }

  /** The queue after all effects in order, or None when some effect is not a FIFO step. */
  function Fifo(events: seq<Event>): Option<seq<Elem>> {
    if events == [] then Some([])
    else
      var before := Fifo(events[..|events| - 1]);
      match events[|events| - 1]
      case Effect(_, op, r) => if before.None? then None else FifoStep(before.value, op, r)
      case _ => before
  }

  /** One thread's progress through its calls: call, one effect, return of that effect's result. */
  datatype Phase = Free | Called(op: Op) | Effected(op: Op, r: Elem) | Broken

  function PhaseStep(p: Phase, t: Tid, ev: Event): Phase {
    match ev
    case Call(u, op) => if u != t then p else if p.Free? then Called(op) else Broken
    case Effect(u, op, r) => if u != t then p else if p == Called(op) then Effected(op, r) else Broken
    case Return(u, r) => if u != t then p else if p.Effected? && p.r == r then Free else Broken
    case Quiet => p
  }

  function PhaseOf(t: Tid, events: seq<Event>): Phase {
    if events == [] then Free
    else PhaseStep(PhaseOf(t, events[..|events| - 1]), t, events[|events| - 1])
  }

  /** What a client can see: the calls and returns. */
  function History(events: seq<Event>): seq<Event> {
    if events == [] then []
    else
      var ev := events[|events| - 1];
      History(events[..|events| - 1]) + (if ev.Call? || ev.Return? then [ev] else [])
  }

  /**
    A history is linearizable when an instant can be placed between each call and its return
    such that, taken in the order of those instants, the calls are a run of the FIFO queue.
    A call that has not returned may or may not have had its instant.
   */
  ghost predicate Linearizable(h: seq<Event>) {
    exists events: seq<Event> ::
      && History(events) == h
      && Fifo(events).Some?
      && forall t: Tid :: !PhaseOf(t, events).Broken?
  }

  // ------------------------------------------------------------------ the invariant

  /** The nodes ever linked, in link order: the initial node and every node a push has linked. */
  function Chain(n: nat, moves: seq<Move>): seq<Node> {
    if moves == [] then [1]
    else
      var before := moves[..|moves| - 1];
      Chain(n, before) + NewLink(Execute(n, before, false).s, moves[|moves| - 1])
  }

  function NewLink(s: State, m: Move): seq<Node> {
    if m.Go? && m.t < |s.pcs| && s.pcs[m.t].PushLink? && NextOf(s, s.pcs[m.t].tail) == 0
    then [s.pcs[m.t].n] else []
  }

  /** The position of a node on the chain. */
  ghost function Pos(c: seq<Node>, n: Node): (i: nat)
    requires n in c
    ensures i < |c| && c[i] == n
  {
    var i :| 0 <= i < |c| && c[i] == n;
    i
  }

  /** The i-th node of the chain leads to the next one, the last one to NULL; all but the first carry an element. */
  ghost predicate LinkedAt(s: State, c: seq<Node>, i: nat)
    requires i < |c|
  {
    && NextOf(s, c[i]) == (if i + 1 < |c| then c[i + 1] else 0)
    && (i > 0 ==> ItemOf(s, c[i]) != 0)
  }

  /** The node store holds the chain: linked in order, ended by NULL, every linked item non-NULL. */
  ghost predicate HoldsChain(s: State, c: seq<Node>) {
    && c != []
    && Distinct(c)
    && (forall i :: 0 <= i < |c| ==> 0 < c[i] < |s.heap|)
    && (forall i :: 0 <= i < |c| ==> LinkedAt(s, c, i))
    && s.prevHead in c
    && s.tail in c
  }

  /** The node a thread has taken and not yet linked; 0 when it has none. */
  function OwnNode(pc: Pc): Node {
    match pc
    case PushReadTail(_, n) => n
    case PushScan(n, _, _) => n
    case PushAdvance(n, _, _) => n
    case PushLink(n, _, _) => n
    case _ => 0
  }

  /** What a thread's locals mean, and how far it is through its call. */
  ghost predicate PcHolds(s: State, c: seq<Node>, pc: Pc, ph: Phase) {
    match pc
    case Idle => ph == Free
    case PushIgnored => ph == Called(Push(0))
    case PushAlloc(e) => e != 0 && ph == Called(Push(e))
    case PushReadTail(e, n) => Owns(s, c, n) && e != 0 && ph == Called(Push(e))
    case PushScan(n, from, tail) => Scanning(s, c, n, from, tail, ph)
    case PushAdvance(n, from, tail) => Scanning(s, c, n, from, tail, ph) && NextOf(s, tail) != 0
    case PushLink(n, from, tail) => Scanning(s, c, n, from, tail, ph)
    case PushSwing(n, from) => Ahead(c, from, n) && ph.Effected? && ph.op.Push? && ph.r == 0
    case PopReadHead => ph == Called(Pop)
    case PopTest(p) => Ahead(c, p, s.prevHead) && ph == Called(Pop)
    case PopArgument(p) => Ahead(c, p, s.prevHead) && NextOf(s, p) != 0 && ph == Called(Pop)
    case PopSwap(p, next) =>
      Ahead(c, p, s.prevHead) && next != 0 && next == NextOf(s, p) && ph == Called(Pop)
    case PopReadNext(p) => p in c && NextOf(s, p) != 0 && ph == Effected(Pop, ItemOf(s, NextOf(s, p)))
    case PopReadItem(p, next) => next in c && ph == Effected(Pop, ItemOf(s, next))
    case PopFree(p, r) => ph == Effected(Pop, r)
    case Finished(r) => ph.Effected? && ph.r == r
  }

  /** The node is this thread's alone: allocated, not linked, and ended by NULL. */
  ghost predicate Owns(s: State, c: seq<Node>, n: Node) {
    0 < n < |s.heap| && n !in c && NextOf(s, n) == 0
  }

  ghost predicate Scanning(s: State, c: seq<Node>, n: Node, from: Node, tail: Node, ph: Phase) {
    && Owns(s, c, n)
    && Ahead(c, from, tail)
    && ItemOf(s, n) != 0
    && ph == Called(Push(ItemOf(s, n)))
  }

  /** b is a, or was linked after it. */
  ghost predicate Ahead(c: seq<Node>, a: Node, b: Node) {
    a in c && b in c && Pos(c, a) <= Pos(c, b)
  }

  ghost predicate AllPcsHold(s: State, c: seq<Node>, ph: seq<Phase>) {
    && |ph| == |s.pcs|
    && forall t :: 0 <= t < |s.pcs| ==> PcHolds(s, c, s.pcs[t], ph[t])
  }

  ghost predicate OwnersDiffer(s: State) {
    forall t, u :: 0 <= t < |s.pcs| && 0 <= u < |s.pcs| && t != u && OwnNode(s.pcs[t]) != 0
      ==> OwnNode(s.pcs[t]) != OwnNode(s.pcs[u])
  }

  ghost predicate Inv(s: State, c: seq<Node>, ph: seq<Phase>) {
    HoldsChain(s, c) && AllPcsHold(s, c, ph) && OwnersDiffer(s)
  }

  /** The elements in the queue: the items of the nodes after prev_head, in link order. */
  ghost function Contents(s: State, c: seq<Node>): seq<Elem> {
    if s.prevHead in c then Items(s, c[Pos(c, s.prevHead) + 1..]) else []
  }

  ghost function Items(s: State, c: seq<Node>): (q: seq<Elem>)
    ensures |q| == |c|
  {
    seq(|c|, i requires 0 <= i < |c| => ItemOf(s, c[i]))
  }

  // ------------------------------------------------------------------ every step keeps the invariant

  lemma PosIs(c: seq<Node>, i: nat)
    requires Distinct(c) && i < |c|
    ensures c[i] in c && Pos(c, c[i]) == i
  {
  }

  lemma PosGrows(c: seq<Node>, c': seq<Node>, n: Node)
    requires n in c && c <= c' && Distinct(c')
    ensures n in c' && Pos(c', n) == Pos(c, n)
  {
    PosIs(c', Pos(c, n));
  }

  lemma AheadGrows(c: seq<Node>, c': seq<Node>, a: Node, b: Node)
    requires c <= c' && Distinct(c') && Ahead(c, a, b)
    ensures Ahead(c', a, b)
  {
    PosGrows(c, c', a);
    PosGrows(c, c', b);
  }

  /** On the chain, a node's link leads to the next node of the chain. */
  lemma NextOnChain(s: State, c: seq<Node>, a: Node)
    requires HoldsChain(s, c) && a in c
    ensures NextOf(s, a) == 0 <==> Pos(c, a) == |c| - 1
    ensures NextOf(s, a) != 0 ==>
              && NextOf(s, a) == c[Pos(c, a) + 1]
              && NextOf(s, a) in c
              && Pos(c, NextOf(s, a)) == Pos(c, a) + 1
  {
    var i := Pos(c, a);
    assert LinkedAt(s, c, i);
    if i < |c| - 1 {
      PosIs(c, i + 1);
    }
  }

  /** What one thread's step may do to the words another thread relies on. */
  ghost predicate Grows(s: State, c: seq<Node>, s': State, c': seq<Node>) {
    && c <= c'
    && Distinct(c')
    && |s.heap| <= |s'.heap|
    && (forall n :: n in c ==> ItemOf(s', n) == ItemOf(s, n))
    && (forall n :: n in c && NextOf(s, n) != 0 ==> NextOf(s', n) == NextOf(s, n))
    && Ahead(c', s.prevHead, s'.prevHead)
    && Ahead(c', s.tail, s'.tail)
  }

  /** A thread that does not move keeps its assertion, as long as its own node is left alone. */
  lemma OtherHolds(s: State, c: seq<Node>, s': State, c': seq<Node>, pc: Pc, ph: Phase)
    requires HoldsChain(s, c) && Grows(s, c, s', c') && PcHolds(s, c, pc, ph)
    requires OwnNode(pc) != 0 ==>
               ItemOf(s', OwnNode(pc)) == ItemOf(s, OwnNode(pc)) && Owns(s', c', OwnNode(pc))
    ensures PcHolds(s', c', pc, ph)
  {
    match pc {
      case PushScan(n, from, tail) => AheadGrows(c, c', from, tail); hide *;
      case PushAdvance(n, from, tail) => AheadGrows(c, c', from, tail); hide Distinct; hide Ahead; hide Owns;
      case PushLink(n, from, tail) => AheadGrows(c, c', from, tail); hide Distinct; hide Ahead; hide Owns;
      case PushSwing(n, from) => AheadGrows(c, c', from, n); hide Distinct; hide Ahead; hide Owns;
      case PopTest(p) => HeadAheadGrows(s, c, s', c', p); hide Distinct; hide Ahead; hide Owns;
      case PopArgument(p) => HeadAheadGrows(s, c, s', c', p); hide Distinct; hide Owns;
      case PopSwap(p, next) => HeadAheadGrows(s, c, s', c', p); hide Distinct; hide Owns;
      case PopReadNext(p) => NextOnChain(s, c, p); hide Distinct; hide Ahead; hide Owns;
      case _ => hide Distinct; hide Ahead; hide Owns;
    }
  }

  lemma HeadAheadGrows(s: State, c: seq<Node>, s': State, c': seq<Node>, p: Node)
    requires Grows(s, c, s', c') && Ahead(c, p, s.prevHead)
    ensures Ahead(c', p, s'.prevHead)
  {
    AheadGrows(c, c', p, s.prevHead);
  }

  ghost function PhasesAfter(ph: seq<Phase>, ev: Event): (r: seq<Phase>)
    ensures |r| == |ph|
  {
    seq(|ph|, t requires 0 <= t < |ph| => PhaseStep(ph[t], t, ev))
  }

  ghost predicate EffectFits(ev: Event, q: seq<Elem>, q': seq<Elem>) {
    if ev.Effect? then FifoStep(q, ev.op, ev.r) == Some(q') else q' == q
  }

  /** What a step has to show: invariant, effect on the queue, and pointers that only move forward. */
  ghost predicate Keeps(s: State, c: seq<Node>, ph: seq<Phase>, o: Outcome, c': seq<Node>) {
    && Inv(o.s, c', PhasesAfter(ph, o.ev))
    && Grows(s, c, o.s, c')
    && EffectFits(o.ev, Contents(s, c), Contents(o.s, c'))
  }

  /** The step leaves alone the node every other thread owns. */
  ghost predicate SparesOthers(s: State, s': State, c': seq<Node>, t: Tid) {
    forall u :: 0 <= u < |s.pcs| && u != t && OwnNode(s.pcs[u]) != 0
      ==> ItemOf(s', OwnNode(s.pcs[u])) == ItemOf(s, OwnNode(s.pcs[u])) && Owns(s', c', OwnNode(s.pcs[u]))
  }

  ghost predicate OnlyMoves(s: State, s': State, t: Tid, ev: Event) {
    && t < |s.pcs|
    && |s'.pcs| == |s.pcs|
    && s'.pcs == s.pcs[t := s'.pcs[t]]
    && (ev.Quiet? || ev.t == t)
  }

  /** The threads that did not move, all at once. */
  lemma OthersHold(s: State, c: seq<Node>, ph: seq<Phase>, s': State, c': seq<Node>, ev: Event, t: Tid)
    requires HoldsChain(s, c) && AllPcsHold(s, c, ph) && Grows(s, c, s', c')
    requires OnlyMoves(s, s', t, ev) && SparesOthers(s, s', c', t)
    requires PcHolds(s', c', s'.pcs[t], PhaseStep(ph[t], t, ev))
    ensures AllPcsHold(s', c', PhasesAfter(ph, ev))
  {
    hide HoldsChain; hide Grows; hide PcHolds; hide Owns;
    forall u | 0 <= u < |s.pcs| ensures PcHolds(s', c', s'.pcs[u], PhasesAfter(ph, ev)[u]) {
      if u != t {
        OtherHolds(s, c, s', c', s.pcs[u], ph[u]);
      }
    }
  }

  lemma OwnersStayDifferent(s: State, c: seq<Node>, ph: seq<Phase>, s': State, t: Tid, ev: Event)
    requires AllPcsHold(s, c, ph) && OwnersDiffer(s) && OnlyMoves(s, s', t, ev)
    requires OwnNode(s'.pcs[t]) == 0 || OwnNode(s'.pcs[t]) == OwnNode(s.pcs[t]) || OwnNode(s'.pcs[t]) >= |s.heap|
    ensures OwnersDiffer(s')
  {
    forall u | 0 <= u < |s.pcs| ensures OwnNode(s.pcs[u]) < |s.heap| || OwnNode(s.pcs[u]) == 0 {
      assert PcHolds(s, c, s.pcs[u], ph[u]);
    }
    hide PcHolds;
  }

  /** The chain does not depend on where the two shared pointers stand on it. */
  lemma SameHeap(s: State, c: seq<Node>, s': State)
    requires HoldsChain(s, c) && s'.heap == s.heap && s'.prevHead in c && s'.tail in c
    ensures HoldsChain(s', c)
  {
    forall i | 0 <= i < |c| ensures LinkedAt(s', c, i) {
      assert LinkedAt(s, c, i);
    }
  }

  /** A step that keeps the store and the shared pointers. */
  lemma SameStore(s: State, c: seq<Node>, s': State)
    requires HoldsChain(s, c) && s'.heap == s.heap && s'.prevHead == s.prevHead && s'.tail == s.tail
    ensures HoldsChain(s', c) && Grows(s, c, s', c) && Contents(s', c) == Contents(s, c)
  {
    forall i | 0 <= i < |c| ensures LinkedAt(s', c, i) {
      assert LinkedAt(s, c, i);
    }
    assert Items(s', c[Pos(c, s.prevHead) + 1..]) == Items(s, c[Pos(c, s.prevHead) + 1..]);
  }

  lemma SameStoreHolds(s: State, s': State, c: seq<Node>, pc: Pc, ph: Phase)
    requires s'.heap == s.heap && s'.prevHead == s.prevHead && PcHolds(s, c, pc, ph)
    ensures PcHolds(s', c, pc, ph)
  {
  }

  lemma OwnersHold(s: State, c: seq<Node>, ph: seq<Phase>, t: Tid)
    requires AllPcsHold(s, c, ph)
    ensures SparesOthers(s, s, c, t)
  {
    forall u | 0 <= u < |s.pcs| && OwnNode(s.pcs[u]) != 0 ensures Owns(s, c, OwnNode(s.pcs[u])) {
      assert PcHolds(s, c, s.pcs[u], ph[u]);
    }
  }

  /** Steps that change only the thread's own locals. */
  lemma LocalStep(s: State, c: seq<Node>, ph: seq<Phase>, t: Tid, pc: Pc, free: seq<Node>, ev: Event)
    requires Inv(s, c, ph) && t < |s.pcs| && (ev.Quiet? || ev.t == t)
    requires PcHolds(s, c, pc, PhaseStep(ph[t], t, ev))
    requires OwnNode(pc) == 0 || OwnNode(pc) == OwnNode(s.pcs[t])
    requires EffectFits(ev, Contents(s, c), Contents(s, c))
    ensures Keeps(s, c, ph, Outcome(At(s, t, pc).(free := free), ev), c)
  {
    var s' := At(s, t, pc).(free := free);
    SameStore(s, c, s');
    OwnersHold(s, c, ph, t);
    assert SparesOthers(s, s', c, t);
    hide HoldsChain; hide Grows; hide Contents; hide Owns;
    SameStoreHolds(s, s', c, pc, PhaseStep(ph[t], t, ev));
    hide PcHolds;
    OthersHold(s, c, ph, s', c, ev, t);
    OwnersStayDifferent(s, c, ph, s', t, ev);
  }

  /** A step that keeps the chain, its items and links, and the shared pointers. */
  lemma SameChain(s: State, c: seq<Node>, s': State)
    requires HoldsChain(s, c) && s'.prevHead == s.prevHead && s'.tail == s.tail
    requires |s.heap| <= |s'.heap| && forall n :: n in c ==> s'.heap[n] == s.heap[n]
    ensures HoldsChain(s', c) && Grows(s, c, s', c) && Contents(s', c) == Contents(s, c)
  {
    forall i | 0 <= i < |c| ensures LinkedAt(s', c, i) {
      assert LinkedAt(s, c, i);
    }
    assert Items(s', c[Pos(c, s.prevHead) + 1..]) == Items(s, c[Pos(c, s.prevHead) + 1..]);
  }

  lemma TakeFreshStep(s: State, c: seq<Node>, ph: seq<Phase>, t: Tid)
    requires Inv(s, c, ph) && t < |s.pcs| && s.pcs[t].PushAlloc?
    ensures Keeps(s, c, ph, StepThread(s, t, false), c)
  {
    var s' := StepThread(s, t, false).s;
    assert s'.pcs[t] == PushReadTail(s.pcs[t].e, |s.heap|);
    SameChain(s, c, s');
    OwnersHold(s, c, ph, t);
    assert SparesOthers(s, s', c, t);
    assert PcHolds(s, c, s.pcs[t], ph[t]);
    assert PcHolds(s', c, s'.pcs[t], ph[t]);
    hide HoldsChain; hide Grows; hide Contents; hide Owns; hide PcHolds;
    OthersHold(s, c, ph, s', c, Quiet, t);
    OwnersStayDifferent(s, c, ph, s', t, Quiet);
  }

  lemma FillItemStep(s: State, c: seq<Node>, ph: seq<Phase>, t: Tid)
    requires Inv(s, c, ph) && t < |s.pcs| && s.pcs[t].PushReadTail?
    ensures Keeps(s, c, ph, StepThread(s, t, false), c)
  {
    var s' := StepThread(s, t, false).s;
    var n := s.pcs[t].n;
    assert PcHolds(s, c, s.pcs[t], ph[t]);
    SameChain(s, c, s');
    OwnersHold(s, c, ph, t);
    assert SparesOthers(s, s', c, t);
    assert PcHolds(s', c, s'.pcs[t], ph[t]);
    hide HoldsChain; hide Grows; hide Contents; hide Owns; hide PcHolds;
    OthersHold(s, c, ph, s', c, Quiet, t);
    OwnersStayDifferent(s, c, ph, s', t, Quiet);
  }

  /** Linking a node behind the last one extends the chain by it, and the contents by its item. */
  lemma LinkChain(s: State, c: seq<Node>, n: Node)
    requires HoldsChain(s, c) && Owns(s, c, n) && ItemOf(s, n) != 0
    ensures HoldsChain(SetNext(s, c[|c| - 1], n), c + [n])
  {
    var s', c' := SetNext(s, c[|c| - 1], n), c + [n];
    forall i | 0 <= i < |c'| ensures LinkedAt(s', c', i) {
      if i < |c| { assert LinkedAt(s, c, i); }
    }
  }

  lemma LinkGrows(s: State, c: seq<Node>, n: Node)
    requires HoldsChain(s, c) && Distinct(c + [n])
    ensures Grows(s, c, SetNext(s, c[|c| - 1], n), c + [n])
  {
    assert LinkedAt(s, c, |c| - 1);
    PosGrows(c, c + [n], s.prevHead);
    PosGrows(c, c + [n], s.tail);
  }

  lemma LinkAppends(s: State, c: seq<Node>, n: Node)
    requires HoldsChain(s, c) && Distinct(c + [n])
    ensures Contents(SetNext(s, c[|c| - 1], n), c + [n]) == Contents(s, c) + [ItemOf(s, n)]
  {
    var s' := SetNext(s, c[|c| - 1], n);
    assert forall m :: ItemOf(s', m) == ItemOf(s, m);
    assert s'.prevHead == s.prevHead && s.prevHead in c;
    PosGrows(c, c + [n], s.prevHead);
    var h := Pos(c, s.prevHead) + 1;
    hide HoldsChain; hide Distinct; hide SetNext;
    assert (c + [n])[h..] == c[h..] + [n];
    assert Items(s', c[h..] + [n]) == Items(s, c[h..]) + [ItemOf(s, n)];
  }

  lemma LinkSpares(s: State, c: seq<Node>, ph: seq<Phase>, t: Tid, s': State)
    requires HoldsChain(s, c) && AllPcsHold(s, c, ph) && OwnersDiffer(s)
    requires t < |s.pcs| && s.pcs[t].PushLink? && s'.heap == SetNext(s, c[|c| - 1], s.pcs[t].n).heap
    ensures SparesOthers(s, s', c + [s.pcs[t].n], t)
  {
    OwnersHold(s, c, ph, t);
    hide AllPcsHold; hide LinkedAt;
    assert c[|c| - 1] in c;
    hide HoldsChain;
  }

  /** After the link the thread's node is on the chain, behind the tail the thread set out from. */
  lemma LinkedBehind(c: seq<Node>, n: Node, from: Node)
    requires Distinct(c + [n]) && from in c
    ensures Ahead(c + [n], from, n)
  {
    PosGrows(c, c + [n], from);
    PosIs(c + [n], |c|);
  }

  /** The linking step as a whole. */
  lemma LinkHolds(s: State, c: seq<Node>, n: Node, tail: Node, s': State)
    requires HoldsChain(s, c) && Owns(s, c, n) && ItemOf(s, n) != 0 && tail in c && NextOf(s, tail) == 0
    requires s'.heap == SetNext(s, tail, n).heap && s'.prevHead == s.prevHead && s'.tail == s.tail
    ensures tail == c[|c| - 1]
    ensures HoldsChain(s', c + [n]) && Grows(s, c, s', c + [n])
    ensures Contents(s', c + [n]) == Contents(s, c) + [ItemOf(s, n)]
  {
    NextOnChain(s, c, tail);
    LinkChain(s, c, n);
    assert Distinct(c + [n]);
    hide Distinct; hide Contents; hide LinkedAt; hide Owns;
    LinkGrows(s, c, n);
    LinkAppends(s, c, n);
    var s1 := SetNext(s, tail, n);
    SameStore(s1, c + [n], s');
    hide HoldsChain;
  }

  lemma LinkStep(s: State, c: seq<Node>, ph: seq<Phase>, t: Tid)
    requires Inv(s, c, ph) && t < |s.pcs| && s.pcs[t].PushLink? && NextOf(s, s.pcs[t].tail) == 0
    ensures Keeps(s, c, ph, StepThread(s, t, false), c + [s.pcs[t].n])
  {
    var o := StepThread(s, t, false);
    var PushLink(n, from, tail) := s.pcs[t];
    var c' := c + [n];
    assert Scanning(s, c, n, from, tail, ph[t]) by { assert PcHolds(s, c, s.pcs[t], ph[t]); }
    hide OwnersDiffer; hide SparesOthers; hide Contents; hide Grows; hide Owns; hide AllPcsHold; hide LinkedAt;
    LinkHolds(s, c, n, tail, o.s);
    assert PcHolds(o.s, c', PushSwing(n, from), PhaseStep(ph[t], t, o.ev)) by { LinkedBehind(c, n, from); }
    hide PcHolds; hide Distinct; hide Scanning;
    LinkSpares(s, c, ph, t, o.s);
    hide HoldsChain;
    OthersHold(s, c, ph, o.s, c', o.ev, t);
    OwnersStayDifferent(s, c, ph, o.s, t, o.ev);
  }

  /** The lagging tail only moves forward. */
  lemma SwingGrows(s: State, c: seq<Node>, s': State)
    requires HoldsChain(s, c) && s'.heap == s.heap && s'.prevHead == s.prevHead && Ahead(c, s.tail, s'.tail)
    ensures HoldsChain(s', c) && Grows(s, c, s', c) && Contents(s', c) == Contents(s, c)
  {
    SameHeap(s, c, s');
    assert Items(s', c[Pos(c, s.prevHead) + 1..]) == Items(s, c[Pos(c, s.prevHead) + 1..]);
  }

  lemma SwingStep(s: State, c: seq<Node>, ph: seq<Phase>, t: Tid)
    requires Inv(s, c, ph) && t < |s.pcs| && s.pcs[t].PushSwing?
    ensures Keeps(s, c, ph, StepThread(s, t, false), c)
  {
    var s' := StepThread(s, t, false).s;
    assert PcHolds(s, c, s.pcs[t], ph[t]);
    assert PcHolds(s', c, s'.pcs[t], ph[t]);
    assert Ahead(c, s.tail, s'.tail);
    SwingGrows(s, c, s');
    OwnersHold(s, c, ph, t);
    hide HoldsChain; hide Grows; hide Contents; hide PcHolds; hide AllPcsHold; hide OwnersDiffer; hide Ahead;
    assert SparesOthers(s, s', c, t);
    hide Owns; hide SparesOthers;
    OthersHold(s, c, ph, s', c, Quiet, t);
    OwnersStayDifferent(s, c, ph, s', t, Quiet);
  }

  /** Moving prev_head to the next node takes the first element off the contents. */
  lemma SwapChain(s: State, c: seq<Node>, s': State)
    requires HoldsChain(s, c) && NextOf(s, s.prevHead) != 0
    requires s'.heap == s.heap && s'.tail == s.tail && s'.prevHead == NextOf(s, s.prevHead)
    ensures HoldsChain(s', c) && Grows(s, c, s', c)
    ensures Contents(s, c) == [ItemOf(s, s'.prevHead)] + Contents(s', c)
  {
    NextOnChain(s, c, s.prevHead);
    SameHeap(s, c, s');
    var h := Pos(c, s.prevHead) + 1;
    assert c[h..] == [s'.prevHead] + c[h + 1..];
    assert Items(s, c[h..]) == [ItemOf(s, s'.prevHead)] + Items(s', c[h + 1..]);
  }

  lemma SwapStep(s: State, c: seq<Node>, ph: seq<Phase>, t: Tid)
    requires Inv(s, c, ph) && t < |s.pcs| && s.pcs[t].PopSwap? && s.prevHead == s.pcs[t].p
    ensures Keeps(s, c, ph, StepThread(s, t, false), c)
  {
    var o := StepThread(s, t, false);
    assert PcHolds(s, c, s.pcs[t], ph[t]);
    SwapChain(s, c, o.s);
    assert PcHolds(o.s, c, o.s.pcs[t], PhaseStep(ph[t], t, o.ev));
    OwnersHold(s, c, ph, t);
    assert SparesOthers(s, o.s, c, t);
    hide HoldsChain; hide Grows; hide Contents; hide Owns; hide PcHolds;
    OthersHold(s, c, ph, o.s, c, o.ev, t);
    OwnersStayDifferent(s, c, ph, o.s, t, o.ev);
  }

  lemma EmptyAtLast(s: State, c: seq<Node>, p: Node)
    requires HoldsChain(s, c) && Ahead(c, p, s.prevHead) && NextOf(s, p) == 0
    ensures Contents(s, c) == []
  {
    NextOnChain(s, c, p);
  }

  predicate BetweenWrites(s: State, pc: Pc) {
    && !pc.PushAlloc? && !pc.PushReadTail? && !pc.PushSwing?
    && (pc.PushLink? ==> NextOf(s, pc.tail) != 0)
    && (pc.PopSwap? ==> s.prevHead != pc.p)
  }

  /** A step between two shared writes leaves its own thread's assertion true, and fits the FIFO queue. */
  lemma QuietPushHolds(s: State, c: seq<Node>, t: Tid, ph: Phase)
    requires HoldsChain(s, c) && t < |s.pcs| && PcHolds(s, c, s.pcs[t], ph)
    requires var pc := s.pcs[t];
      pc.Idle? || pc.PushIgnored? || pc.PushScan? || pc.PushAdvance? || (pc.PushLink? && NextOf(s, pc.tail) != 0)
    ensures var o := StepThread(s, t, false);
      && PcHolds(s, c, o.s.pcs[t], PhaseStep(ph, t, o.ev))
      && EffectFits(o.ev, Contents(s, c), Contents(s, c))
  {
    if s.pcs[t].PushAdvance? { NextOnChain(s, c, s.pcs[t].tail); }
    hide HoldsChain; hide Contents; hide Owns;
  }

  lemma QuietPopHolds(s: State, c: seq<Node>, t: Tid, ph: Phase)
    requires HoldsChain(s, c) && t < |s.pcs| && PcHolds(s, c, s.pcs[t], ph)
    requires var pc := s.pcs[t];
      pc.PopReadHead? || pc.PopTest? || pc.PopArgument? || (pc.PopSwap? && s.prevHead != pc.p)
      || pc.PopReadNext? || pc.PopReadItem? || pc.PopFree? || pc.Finished?
    ensures var o := StepThread(s, t, false);
      && PcHolds(s, c, o.s.pcs[t], PhaseStep(ph, t, o.ev))
      && EffectFits(o.ev, Contents(s, c), Contents(s, c))
  {
    assert Ahead(c, s.prevHead, s.prevHead);
    match s.pcs[t] {
      case PopTest(p) => if NextOf(s, p) == 0 { EmptyAtLast(s, c, p); }
      case PopReadNext(p) => NextOnChain(s, c, p);
      case _ =>
    }
    hide HoldsChain; hide Contents; hide Ahead;
  }

  lemma QuietHolds(s: State, c: seq<Node>, t: Tid, ph: Phase)
    requires HoldsChain(s, c) && t < |s.pcs| && PcHolds(s, c, s.pcs[t], ph) && BetweenWrites(s, s.pcs[t])
    ensures var o := StepThread(s, t, false);
      && PcHolds(s, c, o.s.pcs[t], PhaseStep(ph, t, o.ev))
      && EffectFits(o.ev, Contents(s, c), Contents(s, c))
  {
    hide HoldsChain; hide PcHolds; hide StepThread; hide EffectFits; hide PhaseStep;
    var pc := s.pcs[t];
    if pc.Idle? || pc.PushIgnored? || pc.PushScan? || pc.PushAdvance? || pc.PushLink? {
      QuietPushHolds(s, c, t, ph);
    } else {
      QuietPopHolds(s, c, t, ph);
    }
  }

  lemma QuietStep(s: State, c: seq<Node>, ph: seq<Phase>, t: Tid)
    requires Inv(s, c, ph) && t < |s.pcs| && BetweenWrites(s, s.pcs[t])
    ensures Keeps(s, c, ph, StepThread(s, t, false), c)
  {
    var o := StepThread(s, t, false);
    assert PcHolds(s, c, s.pcs[t], ph[t]);
    QuietHolds(s, c, t, ph[t]);
    hide PcHolds; hide Contents; hide HoldsChain; hide Grows; hide OwnersDiffer; hide AllPcsHold; hide EffectFits;
    assert o.s == At(s, t, o.s.pcs[t]).(free := o.s.free);
    LocalStep(s, c, ph, t, o.s.pcs[t], o.s.free, o.ev);
  }

  lemma ThreadKeeps(s: State, c: seq<Node>, ph: seq<Phase>, t: Tid)
    requires Inv(s, c, ph) && t < |s.pcs|
    ensures Keeps(s, c, ph, StepThread(s, t, false), c + NewLink(s, Go(t)))
  {
    hide Inv; hide Keeps; hide StepThread;
    assert c + [] == c;
    match s.pcs[t] {
      case PushAlloc(_) => TakeFreshStep(s, c, ph, t);
      case PushReadTail(_, _) => FillItemStep(s, c, ph, t);
      case PushLink(_, _, tail) => if NextOf(s, tail) == 0 { LinkStep(s, c, ph, t); } else { QuietStep(s, c, ph, t); }
      case PushSwing(_, _) => SwingStep(s, c, ph, t);
      case PopSwap(p, _) => if s.prevHead == p { SwapStep(s, c, ph, t); } else { QuietStep(s, c, ph, t); }
      case _ => QuietStep(s, c, ph, t);
    }
  }

  lemma MoveKeeps(s: State, c: seq<Node>, ph: seq<Phase>, m: Move)
    requires Inv(s, c, ph)
    ensures Keeps(s, c, ph, Step(s, m, false), c + NewLink(s, m))
  {
    assert c + [] == c;
    assert !m.Go? ==> NewLink(s, m) == [];
    assert m.t >= |s.pcs| ==> NewLink(s, m) == [];
    hide Keeps; hide Inv; hide StepThread; hide NewLink; hide Begin;
    if m.t < |s.pcs| && m.Go? {
      ThreadKeeps(s, c, ph, m.t);
    } else if m.t < |s.pcs| && s.pcs[m.t].Idle? {
      CallKeeps(s, c, ph, m.t, m.op);
    } else {
      StandStill(s, c, ph);
    }
  }

  lemma CallKeeps(s: State, c: seq<Node>, ph: seq<Phase>, t: Tid, op: Op)
    requires Inv(s, c, ph) && t < |s.pcs| && s.pcs[t].Idle?
    ensures Keeps(s, c, ph, Outcome(At(s, t, Begin(op)), Call(t, op)), c)
  {
    assert PcHolds(s, c, s.pcs[t], ph[t]);
    hide HoldsChain; hide AllPcsHold; hide OwnersDiffer; hide Contents; hide Grows; hide Keeps;
    assert At(s, t, Begin(op)) == At(s, t, Begin(op)).(free := s.free);
    LocalStep(s, c, ph, t, Begin(op), s.free, Call(t, op));
  }

  lemma StandStill(s: State, c: seq<Node>, ph: seq<Phase>)
    requires Inv(s, c, ph)
    ensures Keeps(s, c, ph, Outcome(s, Quiet), c)
  {
    assert PhasesAfter(ph, Quiet) == ph;
  }

  // ------------------------------------------------------------------ every run

  ghost function Phases(n: nat, events: seq<Event>): (ph: seq<Phase>)
    ensures |ph| == n
  {
    seq(n, t requires 0 <= t < n => PhaseOf(t, events))
  }

  lemma PhasesStep(n: nat, events: seq<Event>, ev: Event)
    ensures Phases(n, events + [ev]) == PhasesAfter(Phases(n, events), ev)
  {
    assert (events + [ev])[..|events|] == events;
  }

  lemma FifoExtends(events: seq<Event>, ev: Event, q: seq<Elem>, q': seq<Elem>)
    requires Fifo(events) == Some(q) && EffectFits(ev, q, q')
    ensures Fifo(events + [ev]) == Some(q')
  {
    assert (events + [ev])[..|events|] == events;
  }

  /** The invariant of every run: where every thread stands, and what the queue holds. */
  lemma {:induction false} RunKeeps(n: nat, moves: seq<Move>)
    ensures var r := Execute(n, moves, false);
      var c := Chain(n, moves);
      && Inv(r.s, c, Phases(n, r.events))
      && Fifo(r.events) == Some(Contents(r.s, c))
  {
    if moves == [] {
      PosIs([1], 0);
    } else {
      var before, m := moves[..|moves| - 1], moves[|moves| - 1];
      RunKeeps(n, before);
      hide Inv; hide Contents; hide Grows; hide Step; hide Fifo; hide PhasesAfter; hide Phases;
      var r0 := Execute(n, before, false);
      var c0 := Chain(n, before);
      MoveKeeps(r0.s, c0, Phases(n, r0.events), m);
      PhasesStep(n, r0.events, Step(r0.s, m, false).ev);
      FifoExtends(r0.events, Step(r0.s, m, false).ev, Contents(r0.s, c0), Contents(Step(r0.s, m, false).s, Chain(n, moves)));
    }
  }

  lemma NeverBroken(s: State, c: seq<Node>, pc: Pc, ph: Phase)
    requires PcHolds(s, c, pc, ph)
    ensures !ph.Broken?
  {
  }

  /** Only the n threads of the run ever call. */
  lemma {:induction false} OutsidersSilent(n: nat, moves: seq<Move>, t: Tid)
    requires t >= n
    ensures var r := Execute(n, moves, false); |r.s.pcs| == n && PhaseOf(t, r.events) == Free
  {
    if moves != [] {
      var before, m := moves[..|moves| - 1], moves[|moves| - 1];
      OutsidersSilent(n, before, t);
      var r0 := Execute(n, before, false);
      var o := Step(r0.s, m, false);
      assert |o.s.pcs| == n && (o.ev.Quiet? || o.ev.t != t) by {
        if m.Go? && m.t < n { ThreadEvent(r0.s, m.t, false); }
      }
      assert (r0.events + [o.ev])[..|r0.events|] == r0.events;
    }
  }

  lemma ThreadEvent(s: State, t: Tid, recycle: bool)
    requires t < |s.pcs|
    ensures var o := StepThread(s, t, recycle); OnlyMoves(s, o.s, t, o.ev)
  {
  }

  /**
    Main result: with any number of threads and any interleaving, the calls and returns of a run in
    which no node is given back are those of a FIFO queue, each call taking effect at one instant
    between its call and its return.
   */
  lemma QueueIsLinearizable(n: nat, moves: seq<Move>)
    ensures Linearizable(History(Execute(n, moves, false).events))
  {
    var r := Execute(n, moves, false);
    RunKeeps(n, moves);
    forall t: Tid ensures !PhaseOf(t, r.events).Broken? {
      if t < n {
        OutsidersSilent(n, moves, n);
        assert Phases(n, r.events)[t] == PhaseOf(t, r.events);
        NeverBroken(r.s, Chain(n, moves), r.s.pcs[t], PhaseOf(t, r.events));
      } else {
        OutsidersSilent(n, moves, t);
      }
    }
  }

  /** The chain of linked nodes is append-only, and prev_head and the lagging tail only move forward on it. */
  lemma {:induction false} PointersOnlyAdvance(n: nat, earlier: seq<Move>, later: seq<Move>)
    requires earlier <= later
    ensures var s, s' := Execute(n, earlier, false).s, Execute(n, later, false).s;
      var c := Chain(n, later);
      && Chain(n, earlier) <= c
      && Ahead(c, s.prevHead, s'.prevHead)
      && Ahead(c, s.tail, s'.tail)
    decreases |later|
  {
    RunKeeps(n, later);
    hide AllPcsHold; hide OwnersDiffer; hide Fifo; hide Contents; hide LinkedAt;
    if earlier == later {
    } else {
      var before, m := later[..|later| - 1], later[|later| - 1];
      PointersOnlyAdvance(n, earlier, before);
      RunKeeps(n, before);
      var r0 := Execute(n, before, false);
      hide Inv; hide Step; hide Ahead;
      MoveKeeps(r0.s, Chain(n, before), Phases(n, r0.events), m);
      hide Phases;
      var c0, c := Chain(n, before), Chain(n, later);
      var s := Execute(n, earlier, false).s;
      AheadGrows(c0, c, s.prevHead, r0.s.prevHead);
      AheadGrows(c0, c, s.tail, r0.s.tail);
      AheadTrans(c, s.prevHead, r0.s.prevHead, Execute(n, later, false).s.prevHead);
      AheadTrans(c, s.tail, r0.s.tail, Execute(n, later, false).s.tail);
    }
  }

  lemma AheadTrans(c: seq<Node>, a: Node, b: Node, d: Node)
    requires Ahead(c, a, b) && Ahead(c, b, d)
    ensures Ahead(c, a, d)
  {
  }

  // ------------------------------------------------------------------ what goes in comes out

  /** The elements of the pushes, and of the non-empty pops, in the order they took effect. */
  function Pushed(events: seq<Event>): seq<Elem> {
    if events == [] then []
    else
      var ev := events[|events| - 1];
      Pushed(events[..|events| - 1]) + (if ev.Effect? && ev.op.Push? && ev.op.e != 0 then [ev.op.e] else [])
  }

  function Popped(events: seq<Event>): seq<Elem> {
    if events == [] then []
    else
      var ev := events[|events| - 1];
      Popped(events[..|events| - 1]) + (if ev.Effect? && ev.op.Pop? && ev.r != 0 then [ev.r] else [])
  }

  /** The items met by following next from prev_head, at most fuel links far. */
  function Reachable(s: State, n: Node, fuel: nat): seq<Elem>
    decreases fuel
  {
    if fuel == 0 || NextOf(s, n) == 0 then []
    else [ItemOf(s, NextOf(s, n))] + Reachable(s, NextOf(s, n), fuel - 1)
  }

  /** Everything pushed is either popped already, in push order, or still reachable, in push order. */
  predicate Conserved(r: Run) {
    Pushed(r.events) == Popped(r.events) + Reachable(r.s, r.s.prevHead, |r.s.heap|)
  }

  lemma {:induction false} FifoConserves(events: seq<Event>)
    requires Fifo(events).Some?
    ensures 0 !in Fifo(events).value
    ensures Pushed(events) == Popped(events) + Fifo(events).value
  {
    if events != [] {
      var before, ev := events[..|events| - 1], events[|events| - 1];
      FifoConserves(before);
      var q, p := Fifo(before).value, Popped(before);
      assert Fifo(events) == if ev.Effect? then FifoStep(q, ev.op, ev.r) else Some(q);
      hide Fifo;
      if ev.Effect? && ev.op.Pop? && q != [] {
        assert p + q == (p + [q[0]]) + q[1..];
        assert 0 !in q[1..];
      } else if ev.Effect? && ev.op.Push? && ev.op.e != 0 {
        assert (p + q) + [ev.op.e] == p + (q + [ev.op.e]);
      } else {
        assert p + [] == p && Pushed(before) + [] == Pushed(before);
      }
    }
  }

  lemma {:induction false} ReachableIsSuffix(s: State, c: seq<Node>, i: nat, fuel: nat)
    requires (forall j :: 0 <= j < |c| ==> LinkedAt(s, c, j)) && (forall j :: 0 <= j < |c| ==> 0 < c[j])
    requires i < |c| && |c| - i <= fuel
    ensures Reachable(s, c[i], fuel) == Items(s, c[i + 1..])
    decreases |c| - i
  {
    assert LinkedAt(s, c, i);
    if i + 1 < |c| {
      ReachableIsSuffix(s, c, i + 1, fuel - 1);
      hide LinkedAt;
      assert c[i + 1..] == [c[i + 1]] + c[i + 2..];
      assert Items(s, c[i + 1..]) == [ItemOf(s, c[i + 1])] + Items(s, c[i + 2..]);
    }
  }

  /** With no node given back, no element is ever lost, doubled or reordered, at any instant of any run. */
  lemma NothingIsLost(n: nat, moves: seq<Move>)
    ensures Conserved(Execute(n, moves, false))
  {
    var r := Execute(n, moves, false);
    var c := Chain(n, moves);
    RunKeeps(n, moves);
    FifoConserves(r.events);
    hide AllPcsHold; hide OwnersDiffer; hide Fifo; hide LinkedAt; hide Execute; hide Chain;
    Pigeonhole(c, |r.s.heap|);
    ReachableIsSuffix(r.s, c, Pos(c, r.s.prevHead), |r.s.heap|);
  }

  /** A pop takes effect with NULL at exactly those instants at which the queue is empty, else with the first element. */
  lemma PopTakesFirst(n: nat, moves: seq<Move>, m: Move)
    requires Step(Execute(n, moves, false).s, m, false).ev.Effect?
    requires Step(Execute(n, moves, false).s, m, false).ev.op.Pop?
    ensures var s := Execute(n, moves, false).s;
      var q := Reachable(s, s.prevHead, |s.heap|);
      Step(s, m, false).ev.r == (if q == [] then 0 else q[0])
  {
    var r := Execute(n, moves, false);
    var c := Chain(n, moves);
    RunKeeps(n, moves);
    MoveKeeps(r.s, c, Phases(n, r.events), m);
    hide AllPcsHold; hide OwnersDiffer; hide Fifo; hide LinkedAt; hide Grows; hide Step;
    Pigeonhole(c, |r.s.heap|);
    ReachableIsSuffix(r.s, c, Pos(c, r.s.prevHead), |r.s.heap|);
  }
}
