/** The queue of kernel/rt/queue.c with its nodes given back and taken again, as the code does. */
module QueueRecycling {
  import opened Sequences
  import opened Queue

  // The code keeps no reference counts, so a thread may come to look at a node that has been given
  // back and taken by another.  It does not as long as pushes take turns among themselves and pops
  // among themselves, as they would under one lock for each end: then every run is a run of a FIFO
  // queue.  Neither half of that can be dropped.

  // ------------------------------------------------------------------ taking turns

  /** The call a thread has made and not returned from, as its callers see it. */
  function OpenCall(t: Tid, h: seq<Event>): Option<Op> {
    if h == [] then None
    else
      match h[|h| - 1]
      case Call(u, op) => if u == t then Some(op) else OpenCall(t, h[..|h| - 1])
      case Return(u, _) => if u == t then None else OpenCall(t, h[..|h| - 1])
      case _ => OpenCall(t, h[..|h| - 1])
  }

  /** Which end of the queue a call works on; a push of NULL works on neither. */
  datatype End = Back | Front

  predicate WorksOn(op: Option<Op>, end: End) {
    op.Some? && match op.value case Push(e) => e != 0 && end == Back case Pop => end == Front
  }

  ghost predicate OneAt(h: seq<Event>, end: End) {
    forall t: Tid, u: Tid :: t != u ==> !(WorksOn(OpenCall(t, h), end) && WorksOn(OpenCall(u, h), end))
  }

  /** At no instant are two calls under way that work on this end. */
  ghost predicate InTurn(h: seq<Event>, end: End) {
    OneAt(h, end) && (h != [] ==> InTurn(h[..|h| - 1], end))
  }

  // ------------------------------------------------------------------ the invariant

  /** The nodes from prev_head on: the one popped last and those that hold the elements. */
  function Live(n: nat, moves: seq<Move>): seq<Node> {
    if moves == [] then [1]
    else
      var before := moves[..|moves| - 1];
      LiveAfter(Execute(n, before, true).s, Live(n, before), moves[|moves| - 1])
  }

  function LiveAfter(s: State, c: seq<Node>, m: Move): seq<Node> {
    if m.Start? || m.t >= |s.pcs| then c
    else
      match s.pcs[m.t]
      case PushLink(n, _, tail) => if NextOf(s, tail) == 0 then c + [n] else c
      case PopSwap(p, _) => if s.prevHead == p && c != [] then c[1..] else c
      case _ => c
  }

  /** The store holds the live nodes, linked in order, all but the first with an element. */
  ghost predicate HoldsLive(s: State, c: seq<Node>) {
    && c != [] && Distinct(c) && c[0] == s.prevHead
    && (forall i :: 0 <= i < |c| ==> 0 < c[i] < |s.heap|)
    && (forall i :: 0 <= i < |c| ==> LinkedAt(s, c, i))
  }

  /** The nodes given back are others. */
  ghost predicate FreeApart(s: State, c: seq<Node>) {
    Distinct(s.free) && forall n :: n in s.free ==> 0 < n < |s.heap| && n !in c
  }

  predicate Pushing(pc: Pc) {
    pc.PushAlloc? || pc.PushReadTail? || pc.PushScan? || pc.PushAdvance? || pc.PushLink? || pc.PushSwing?
  }

  predicate Popping(pc: Pc) {
    pc.PopReadHead? || pc.PopTest? || pc.PopArgument? || pc.PopSwap? || pc.PopReadNext? || pc.PopReadItem? || pc.PopFree?
  }

  /** The node a thread has to itself: taken and not linked yet, or popped and not given back yet. */
  function Held(pc: Pc): Node {
    match pc
    case PopReadNext(p) => p
    case PopReadItem(p, _) => p
    case PopFree(p, _) => p
    case _ => OwnNode(pc)
  }

  /** It is neither live nor free. */
  predicate Apart(s: State, c: seq<Node>, n: Node) { 0 < n < |s.heap| && n !in c && n !in s.free }

  predicate Linking(s: State, c: seq<Node>, n: Node, from: Node, tail: Node, ph: Phase) {
    && Apart(s, c, n) && NextOf(s, n) == 0 && c != [] && from == tail == s.tail == c[|c| - 1]
    && ItemOf(s, n) != 0 && ph == Called(Push(ItemOf(s, n)))
  }

  /** What a thread's locals mean. */
  ghost predicate PcIs(s: State, c: seq<Node>, pc: Pc, ph: Phase) {
    c != [] &&
    match pc
    case Idle => ph == Free
    case PushIgnored => ph == Called(Push(0))
    case PushAlloc(e) => e != 0 && ph == Called(Push(e)) && s.tail == c[|c| - 1]
    case PushReadTail(e, n) => Apart(s, c, n) && NextOf(s, n) == 0 && e != 0 && ph == Called(Push(e)) && s.tail == c[|c| - 1]
    case PushScan(n, from, tail) => Linking(s, c, n, from, tail, ph)
    case PushAdvance(_, _, _) => false
    case PushLink(n, from, tail) => Linking(s, c, n, from, tail, ph)
    case PushSwing(n, from) => n == c[|c| - 1] && s.tail == from && ph.Effected? && ph.op.Push? && ph.op.e != 0 && ph.r == 0
    case PopReadHead => ph == Called(Pop)
    case PopTest(p) => p == c[0] && ph == Called(Pop)
    case PopArgument(p) => p == c[0] && |c| > 1 && ph == Called(Pop)
    case PopSwap(p, next) => p == c[0] && |c| > 1 && next == c[1] && ph == Called(Pop)
    case PopReadNext(p) => Apart(s, c, p) && NextOf(s, p) == c[0] && ph == Effected(Pop, ItemOf(s, c[0]))
    case PopReadItem(p, next) => Apart(s, c, p) && next == c[0] && ph == Effected(Pop, ItemOf(s, c[0]))
    case PopFree(p, r) => Apart(s, c, p) && ph == Effected(Pop, r)
    case Finished(r) => ph.Effected? && ph.r == r
  }

  ghost predicate AllPcsAre(s: State, c: seq<Node>, ph: seq<Phase>) {
    |ph| == |s.pcs| && forall t :: 0 <= t < |s.pcs| ==> PcIs(s, c, s.pcs[t], ph[t])
  }

  ghost predicate HeldDiffer(s: State) {
    forall t, u :: 0 <= t < |s.pcs| && 0 <= u < |s.pcs| && t != u && Held(s.pcs[t]) != 0
      ==> Held(s.pcs[t]) != Held(s.pcs[u])
  }

  /** The tail is the last live node, unless a push is about to make it so. */
  ghost predicate TailIsLast(s: State, c: seq<Node>) {
    c != [] && ((forall t :: 0 <= t < |s.pcs| ==> !s.pcs[t].PushSwing?) ==> s.tail == c[|c| - 1])
  }

  ghost predicate Ordered(s: State, c: seq<Node>, ph: seq<Phase>) {
    HoldsLive(s, c) && FreeApart(s, c) && AllPcsAre(s, c, ph) && HeldDiffer(s) && TailIsLast(s, c)
  }

  /** The same, of the threads' phases: no two are under way at one end. */
  function OpenOp(ph: Phase): Option<Op> {
    match ph
    case Called(op) => Some(op)
    case Effected(op, _) => Some(op)
    case _ => None
  }

  ghost predicate Turns(ph: seq<Phase>) {
    forall t, u :: 0 <= t < |ph| && 0 <= u < |ph| && t != u ==>
      !(WorksOn(OpenOp(ph[t]), Back) && WorksOn(OpenOp(ph[u]), Back))
      && !(WorksOn(OpenOp(ph[t]), Front) && WorksOn(OpenOp(ph[u]), Front))
  }

  ghost function Elements(s: State, c: seq<Node>): seq<Elem> {
    if c == [] then [] else Items(s, c[1..])
  }

  lemma PcEnds(s: State, c: seq<Node>, pc: Pc, ph: Phase)
    requires PcIs(s, c, pc, ph)
    ensures Pushing(pc) ==> WorksOn(OpenOp(ph), Back)
    ensures Popping(pc) ==> WorksOn(OpenOp(ph), Front)
  {
  }

  /** While one thread pushes no other does, and the same for pops. */
  lemma TakesTurns(s: State, c: seq<Node>, ph: seq<Phase>, t: Tid, u: Tid)
    requires AllPcsAre(s, c, ph) && Turns(ph) && t < |s.pcs| && u < |s.pcs| && t != u
    ensures !(Pushing(s.pcs[t]) && Pushing(s.pcs[u])) && !(Popping(s.pcs[t]) && Popping(s.pcs[u]))
  {
    PcEnds(s, c, s.pcs[t], ph[t]);
    PcEnds(s, c, s.pcs[u], ph[u]);
    hide PcIs, WorksOn, OpenOp, Pushing, Popping;
  }

  // ------------------------------------------------------------------ what a step leaves to the others

  predicate BackKept(s: State, c: seq<Node>, s': State, c': seq<Node>) {
    c != [] && c' != [] && s'.tail == s.tail && c'[|c'| - 1] == c[|c| - 1]
  }

  predicate FrontKept(s: State, c: seq<Node>, s': State, c': seq<Node>) {
    c != [] && c' != [] && c'[0] == c[0] && ItemOf(s', c[0]) == ItemOf(s, c[0])
    && (|c| > 1 ==> |c'| > 1 && c'[1] == c[1])
  }

  predicate HeldKept(s: State, s': State, c': seq<Node>, n: Node) {
    n == 0 || (n < |s.heap| && Apart(s', c', n) && s'.heap[n] == s.heap[n])
  }

  lemma OtherIs(s: State, c: seq<Node>, s': State, c': seq<Node>, pc: Pc, ph: Phase)
    requires PcIs(s, c, pc, ph) && c' != [] && HeldKept(s, s', c', Held(pc))
    requires Pushing(pc) ==> BackKept(s, c, s', c')
    requires Popping(pc) ==> FrontKept(s, c, s', c')
    ensures PcIs(s', c', pc, ph)
  {
  }

  /** The two sides as a step by a thread at this point must leave them. */
  predicate Leaves(s: State, c: seq<Node>, s': State, c': seq<Node>, pc: Pc) {
    && c' != []
    && (!Pushing(pc) ==> BackKept(s, c, s', c'))
    && (!Popping(pc) ==> FrontKept(s, c, s', c'))
  }

  ghost predicate LeavesHeld(s: State, s': State, c': seq<Node>, t: Tid) {
    forall u :: 0 <= u < |s.pcs| && u != t ==> HeldKept(s, s', c', Held(s.pcs[u]))
  }

  lemma OthersAre(s: State, c: seq<Node>, ph: seq<Phase>, s': State, c': seq<Node>, ev: Event, t: Tid)
    requires AllPcsAre(s, c, ph) && Turns(ph) && OnlyMoves(s, s', t, ev)
    requires Leaves(s, c, s', c', s.pcs[t]) && LeavesHeld(s, s', c', t)
    requires PcIs(s', c', s'.pcs[t], PhaseStep(ph[t], t, ev))
    ensures AllPcsAre(s', c', PhasesAfter(ph, ev))
  {
    hide PcIs, HeldKept, BackKept, FrontKept, Pushing, Popping, Turns;
    forall u | 0 <= u < |s.pcs| ensures PcIs(s', c', s'.pcs[u], PhasesAfter(ph, ev)[u]) {
      if u != t {
        TakesTurns(s, c, ph, t, u);
        OtherIs(s, c, s', c', s.pcs[u], ph[u]);
      }
    }
  }

  lemma HeldIsApart(s: State, c: seq<Node>, ph: seq<Phase>, t: Tid)
    requires AllPcsAre(s, c, ph) && t < |s.pcs| && Held(s.pcs[t]) != 0
    ensures Apart(s, c, Held(s.pcs[t]))
  {
    assert PcIs(s, c, s.pcs[t], ph[t]);
    hide Apart;
  }

  lemma StillDiffer(s: State, c: seq<Node>, ph: seq<Phase>, s': State, t: Tid, ev: Event)
    requires AllPcsAre(s, c, ph) && HeldDiffer(s) && OnlyMoves(s, s', t, ev)
    requires var n := Held(s'.pcs[t]); n == 0 || n == Held(s.pcs[t]) || n in c || n in s.free || n >= |s.heap|
    ensures HeldDiffer(s')
  {
    forall u | 0 <= u < |s.pcs| && Held(s.pcs[u]) != 0 ensures Apart(s, c, Held(s.pcs[u])) {
      HeldIsApart(s, c, ph, u);
    }
    hide AllPcsAre, Held;
  }

  lemma TailStays(s: State, c: seq<Node>, s': State, c': seq<Node>, t: Tid, ev: Event)
    requires TailIsLast(s, c) && OnlyMoves(s, s', t, ev) && BackKept(s, c, s', c')
    requires s.pcs[t].PushSwing? ==> s'.pcs[t].PushSwing?
    ensures TailIsLast(s', c')
  {
    if forall u :: 0 <= u < |s'.pcs| ==> !s'.pcs[u].PushSwing? {
      forall u | 0 <= u < |s.pcs| ensures !s.pcs[u].PushSwing? {
        assert u != t ==> s'.pcs[u] == s.pcs[u];
      }
    }
  }

  /** What a step has to show. */
  ghost predicate Continues(s: State, c: seq<Node>, ph: seq<Phase>, o: Outcome, c': seq<Node>) {
    Ordered(o.s, c', PhasesAfter(ph, o.ev)) && EffectFits(o.ev, Elements(s, c), Elements(o.s, c'))
  }

  /** Steps that write nothing shared. */
  lemma QuietContinues(s: State, c: seq<Node>, ph: seq<Phase>, t: Tid, pc: Pc, ev: Event)
    requires Ordered(s, c, ph) && Turns(ph) && t < |s.pcs| && (ev.Quiet? || ev.t == t)
    requires PcIs(s, c, pc, PhaseStep(ph[t], t, ev)) && EffectFits(ev, Elements(s, c), Elements(s, c))
    requires (Held(pc) == 0 || Held(pc) == Held(s.pcs[t])) && !s.pcs[t].PushSwing?
    ensures Continues(s, c, ph, Outcome(At(s, t, pc), ev), c)
  {
    var s' := At(s, t, pc);
    SameLive(s, c, s');
    LeavesAll(s, c, ph, s', t);
    hide HoldsLive, FreeApart, Elements, PcIs, Held, EffectFits;
    PcSame(s, c, s', pc, PhaseStep(ph[t], t, ev));
    OthersAre(s, c, ph, s', c, ev, t);
    StillDiffer(s, c, ph, s', t, ev);
    TailStays(s, c, s', c, t, ev);
  }

  lemma PcSame(s: State, c: seq<Node>, s': State, pc: Pc, ph: Phase)
    requires PcIs(s, c, pc, ph) && s'.heap == s.heap && s'.free == s.free && s'.tail == s.tail && s'.prevHead == s.prevHead
    ensures PcIs(s', c, pc, ph)
  {
  }

  lemma SameLive(s: State, c: seq<Node>, s': State)
    requires HoldsLive(s, c) && FreeApart(s, c)
    requires s'.heap == s.heap && s'.free == s.free && s'.prevHead == s.prevHead
    ensures HoldsLive(s', c) && FreeApart(s', c) && Elements(s', c) == Elements(s, c)
  {
    forall i | 0 <= i < |c| ensures LinkedAt(s', c, i) { assert LinkedAt(s, c, i); }
    assert Items(s', c[1..]) == Items(s, c[1..]);
  }

  lemma LeavesAll(s: State, c: seq<Node>, ph: seq<Phase>, s': State, t: Tid)
    requires AllPcsAre(s, c, ph) && t < |s.pcs| && c != []
    requires s'.heap == s.heap && s'.free == s.free && s'.tail == s.tail
    ensures Leaves(s, c, s', c, s.pcs[t]) && LeavesHeld(s, s', c, t)
  {
    forall u | 0 <= u < |s.pcs| && Held(s.pcs[u]) != 0 ensures Apart(s, c, Held(s.pcs[u])) {
      HeldIsApart(s, c, ph, u);
    }
    hide AllPcsAre, Held;
  }

  // ------------------------------------------------------------------ the steps that write

  /** A store that differs only in nodes that are not live. */
  lemma LiveUntouched(s: State, c: seq<Node>, s': State)
    requires HoldsLive(s, c) && s'.prevHead == s.prevHead && |s.heap| <= |s'.heap|
    requires forall n :: n in c ==> s'.heap[n] == s.heap[n]
    ensures HoldsLive(s', c) && Elements(s', c) == Elements(s, c) && FrontKept(s, c, s', c)
  {
    forall i | 0 <= i < |c| ensures LinkedAt(s', c, i) { assert LinkedAt(s, c, i); }
    assert Items(s', c[1..]) == Items(s, c[1..]);
  }

  lemma TakeFrees(s: State, c: seq<Node>)
    requires HoldsLive(s, c) && FreeApart(s, c)
    ensures var (s1, n) := TakeNode(s, true);
      && Apart(s1, c, n) && s1.heap[n] == Cell(0, 0) && FreeApart(s1, c) && |s.heap| <= |s1.heap|
      && (n in s.free || n == |s.heap|) && (forall f :: f in s1.free ==> f in s.free)
      && (forall k :: 0 <= k < |s.heap| && k != n ==> s1.heap[k] == s.heap[k])
      && s1.tail == s.tail && s1.prevHead == s.prevHead && s1.pcs == s.pcs
  {
    if s.free != [] {
      assert s.free[0] in s.free;
      assert forall f :: f in s.free[1..] ==> f in s.free;
    }
  }

  lemma TakeContinues(s: State, c: seq<Node>, ph: seq<Phase>, t: Tid)
    requires Ordered(s, c, ph) && Turns(ph) && t < |s.pcs| && s.pcs[t].PushAlloc?
    ensures Continues(s, c, ph, StepThread(s, t, true), c)
  {
    var s' := StepThread(s, t, true).s;
    assert PcIs(s, c, s.pcs[t], ph[t]);
    TakeFrees(s, c);
    hide TakeNode;
    LiveUntouched(s, c, s');
    assert FreeApart(s', c);
    assert PcIs(s', c, s'.pcs[t], ph[t]);
    forall u | 0 <= u < |s.pcs| && u != t ensures HeldKept(s, s', c, Held(s.pcs[u])) {
      if Held(s.pcs[u]) != 0 { HeldIsApart(s, c, ph, u); }
    }
    hide HoldsLive, FreeApart, Elements, PcIs;
    OthersAre(s, c, ph, s', c, Quiet, t);
    StillDiffer(s, c, ph, s', t, Quiet);
    TailStays(s, c, s', c, t, Quiet);
  }

  lemma FillContinues(s: State, c: seq<Node>, ph: seq<Phase>, t: Tid)
    requires Ordered(s, c, ph) && Turns(ph) && t < |s.pcs| && s.pcs[t].PushReadTail?
    ensures Continues(s, c, ph, StepThread(s, t, true), c)
  {
    var s' := StepThread(s, t, true).s;
    assert PcIs(s, c, s.pcs[t], ph[t]);
    LiveUntouched(s, c, s');
    assert FreeApart(s', c);
    assert PcIs(s', c, s'.pcs[t], ph[t]);
    forall u | 0 <= u < |s.pcs| && u != t ensures HeldKept(s, s', c, Held(s.pcs[u])) {
      if Held(s.pcs[u]) != 0 { HeldIsApart(s, c, ph, u); }
    }
    hide HoldsLive, FreeApart, Elements, PcIs;
    OthersAre(s, c, ph, s', c, Quiet, t);
    StillDiffer(s, c, ph, s', t, Quiet);
    TailStays(s, c, s', c, t, Quiet);
  }

  /** Linking a node behind the last extends the live nodes by it, and the elements by its item. */
  lemma LiveLinked(s: State, c: seq<Node>, n: Node, s': State)
    requires HoldsLive(s, c) && FreeApart(s, c) && Apart(s, c, n) && NextOf(s, n) == 0 && ItemOf(s, n) != 0
    requires s'.heap == SetNext(s, c[|c| - 1], n).heap && s'.free == s.free && s'.prevHead == s.prevHead
    ensures HoldsLive(s', c + [n]) && FreeApart(s', c + [n]) && FrontKept(s, c, s', c + [n])
    ensures Elements(s', c + [n]) == Elements(s, c) + [ItemOf(s, n)]
  {
    var c' := c + [n];
    assert c[|c| - 1] in c;
    forall i | 0 <= i < |c'| ensures LinkedAt(s', c', i) {
      if i < |c| { assert LinkedAt(s, c, i); }
    }
    assert forall m :: ItemOf(s', m) == ItemOf(s, m);
    assert c'[1..] == c[1..] + [n];
    assert Items(s', c[1..] + [n]) == Items(s, c[1..]) + [ItemOf(s, n)];
  }

  lemma LinkContinues(s: State, c: seq<Node>, ph: seq<Phase>, t: Tid)
    requires Ordered(s, c, ph) && Turns(ph) && t < |s.pcs| && s.pcs[t].PushLink?
    ensures NextOf(s, s.pcs[t].tail) == 0
    ensures Continues(s, c, ph, StepThread(s, t, true), c + [s.pcs[t].n])
  {
    var PushLink(n, from, tail) := s.pcs[t];
    assert PcIs(s, c, s.pcs[t], ph[t]);
    assert LinkedAt(s, c, |c| - 1) && tail == c[|c| - 1];
    var o := StepThread(s, t, true);
    var c' := c + [n];
    LiveLinked(s, c, n, o.s);
    assert PcIs(o.s, c', o.s.pcs[t], PhaseStep(ph[t], t, o.ev));
    forall u | 0 <= u < |s.pcs| && u != t ensures HeldKept(s, o.s, c', Held(s.pcs[u])) {
      if Held(s.pcs[u]) != 0 { HeldIsApart(s, c, ph, u); assert c[|c| - 1] in c; }
    }
    hide HoldsLive, FreeApart, Elements, PcIs, FrontKept;
    OthersAre(s, c, ph, o.s, c', o.ev, t);
    StillDiffer(s, c, ph, o.s, t, o.ev);
    assert o.s.pcs[t].PushSwing?;
  }

  lemma SwingContinues(s: State, c: seq<Node>, ph: seq<Phase>, t: Tid)
    requires Ordered(s, c, ph) && Turns(ph) && t < |s.pcs| && s.pcs[t].PushSwing?
    ensures Continues(s, c, ph, StepThread(s, t, true), c)
  {
    var s' := StepThread(s, t, true).s;
    assert PcIs(s, c, s.pcs[t], ph[t]);
    SameLive(s, c, s');
    assert PcIs(s', c, s'.pcs[t], ph[t]);
    forall u | 0 <= u < |s.pcs| && u != t ensures HeldKept(s, s', c, Held(s.pcs[u])) {
      if Held(s.pcs[u]) != 0 { HeldIsApart(s, c, ph, u); }
    }
    hide HoldsLive, FreeApart, Elements, PcIs;
    OthersAre(s, c, ph, s', c, Quiet, t);
    StillDiffer(s, c, ph, s', t, Quiet);
  }

  /** Moving prev_head on leaves the node it was at to the thread that moved it. */
  lemma LivePopped(s: State, c: seq<Node>, s': State)
    requires HoldsLive(s, c) && FreeApart(s, c) && |c| > 1
    requires s'.heap == s.heap && s'.free == s.free && s'.tail == s.tail && s'.prevHead == c[1]
    ensures HoldsLive(s', c[1..]) && FreeApart(s', c[1..]) && BackKept(s, c, s', c[1..])
    ensures Elements(s, c) == [ItemOf(s, c[1])] + Elements(s', c[1..])
    ensures Apart(s', c[1..], c[0]) && NextOf(s, c[0]) == c[1]
  {
    var c' := c[1..];
    assert LinkedAt(s, c, 0) && c[0] in c;
    forall i | 0 <= i < |c'| ensures LinkedAt(s', c', i) { assert LinkedAt(s, c, i + 1); }
    assert c[1..] == [c[1]] + c'[1..];
    assert Items(s, c[1..]) == [ItemOf(s, c[1])] + Items(s', c'[1..]);
  }

  lemma SwapContinues(s: State, c: seq<Node>, ph: seq<Phase>, t: Tid)
    requires Ordered(s, c, ph) && Turns(ph) && t < |s.pcs| && s.pcs[t].PopSwap?
    ensures s.prevHead == s.pcs[t].p && c != []
    ensures Continues(s, c, ph, StepThread(s, t, true), c[1..])
  {
    var o := StepThread(s, t, true);
    assert PcIs(s, c, s.pcs[t], ph[t]);
    LivePopped(s, c, o.s);
    var c' := c[1..];
    assert PcIs(o.s, c', o.s.pcs[t], PhaseStep(ph[t], t, o.ev));
    forall u | 0 <= u < |s.pcs| && u != t ensures HeldKept(s, o.s, c', Held(s.pcs[u])) {
      if Held(s.pcs[u]) != 0 { HeldIsApart(s, c, ph, u); }
    }
    assert c[0] in c;
    hide HoldsLive, FreeApart, Elements, PcIs, BackKept;
    OthersAre(s, c, ph, o.s, c', o.ev, t);
    StillDiffer(s, c, ph, o.s, t, o.ev);
    TailStays(s, c, o.s, c', t, o.ev);
  }

  lemma FreeContinues(s: State, c: seq<Node>, ph: seq<Phase>, t: Tid)
    requires Ordered(s, c, ph) && Turns(ph) && t < |s.pcs| && s.pcs[t].PopFree?
    ensures Continues(s, c, ph, StepThread(s, t, true), c)
  {
    var s' := StepThread(s, t, true).s;
    assert PcIs(s, c, s.pcs[t], ph[t]);
    LiveUntouched(s, c, s');
    assert FreeApart(s', c);
    assert PcIs(s', c, s'.pcs[t], ph[t]);
    forall u | 0 <= u < |s.pcs| && u != t ensures HeldKept(s, s', c, Held(s.pcs[u])) {
      if Held(s.pcs[u]) != 0 { HeldIsApart(s, c, ph, u); }
    }
    hide HoldsLive, FreeApart, Elements, PcIs;
    OthersAre(s, c, ph, s', c, Quiet, t);
    StillDiffer(s, c, ph, s', t, Quiet);
    TailStays(s, c, s', c, t, Quiet);
  }

  // ------------------------------------------------------------------ the steps that only read

  predicate Reads(pc: Pc) {
    pc.Idle? || pc.PushIgnored? || pc.PushScan? || pc.PopReadHead? || pc.PopTest? || pc.PopArgument?
    || pc.PopReadNext? || pc.PopReadItem? || pc.Finished?
  }

  lemma ReadIs(s: State, c: seq<Node>, t: Tid, ph: Phase)
    requires HoldsLive(s, c) && t < |s.pcs| && PcIs(s, c, s.pcs[t], ph) && Reads(s.pcs[t])
    ensures var o := StepThread(s, t, true);
      && o.s == At(s, t, o.s.pcs[t]) && PcIs(s, c, o.s.pcs[t], PhaseStep(ph, t, o.ev))
      && EffectFits(o.ev, Elements(s, c), Elements(s, c))
      && (Held(o.s.pcs[t]) == 0 || Held(o.s.pcs[t]) == Held(s.pcs[t]))
  {
    assert LinkedAt(s, c, 0) && LinkedAt(s, c, |c| - 1);
    hide HoldsLive, Apart;
  }

  lemma ReadContinues(s: State, c: seq<Node>, ph: seq<Phase>, t: Tid)
    requires Ordered(s, c, ph) && Turns(ph) && t < |s.pcs| && Reads(s.pcs[t])
    ensures Continues(s, c, ph, StepThread(s, t, true), c)
  {
    var o := StepThread(s, t, true);
    assert PcIs(s, c, s.pcs[t], ph[t]);
    ReadIs(s, c, t, ph[t]);
    assert o.ev.Quiet? || o.ev.t == t by { ThreadEvent(s, t, true); }
    assert !s.pcs[t].PushSwing?;
    hide Ordered, PcIs, Turns, Continues, EffectFits, Held, StepThread, Elements;
    QuietContinues(s, c, ph, t, o.s.pcs[t], o.ev);
  }

  lemma CallContinues(s: State, c: seq<Node>, ph: seq<Phase>, t: Tid, op: Op)
    requires Ordered(s, c, ph) && Turns(ph) && t < |s.pcs| && s.pcs[t].Idle? && Turns(PhasesAfter(ph, Call(t, op)))
    ensures Continues(s, c, ph, Outcome(At(s, t, Begin(op)), Call(t, op)), c)
  {
    assert PcIs(s, c, s.pcs[t], ph[t]);
    if op.Push? && op.e != 0 {
      forall u | 0 <= u < |s.pcs| ensures !s.pcs[u].PushSwing? {
        if u != t {
          PcEnds(s, c, s.pcs[u], ph[u]);
          assert PhasesAfter(ph, Call(t, op))[u] == ph[u] && PhasesAfter(ph, Call(t, op))[t] == Called(op);
        }
      }
    }
    hide HoldsLive, FreeApart, AllPcsAre, HeldDiffer, Turns, Elements, Continues;
    QuietContinues(s, c, ph, t, Begin(op), Call(t, op));
  }

  lemma GoContinues(s: State, c: seq<Node>, ph: seq<Phase>, t: Tid)
    requires Ordered(s, c, ph) && Turns(ph) && t < |s.pcs|
    ensures Continues(s, c, ph, StepThread(s, t, true), LiveAfter(s, c, Go(t)))
  {
    assert !s.pcs[t].PushAdvance? by { assert PcIs(s, c, s.pcs[t], ph[t]); }
    hide Ordered, Turns, Continues, StepThread;
    match s.pcs[t] {
      case PushAlloc(_) => TakeContinues(s, c, ph, t);
      case PushReadTail(_, _) => FillContinues(s, c, ph, t);
      case PushLink(_, _, _) => LinkContinues(s, c, ph, t);
      case PushSwing(_, _) => SwingContinues(s, c, ph, t);
      case PopSwap(_, _) => SwapContinues(s, c, ph, t);
      case PopFree(_, _) => FreeContinues(s, c, ph, t);
      case _ => ReadContinues(s, c, ph, t);
    }
  }

  lemma NothingContinues(s: State, c: seq<Node>, ph: seq<Phase>)
    requires Ordered(s, c, ph)
    ensures Continues(s, c, ph, Outcome(s, Quiet), c)
  {
    hide Ordered, Elements;
    assert PhasesAfter(ph, Quiet) == ph;
  }

  lemma MoveContinues(s: State, c: seq<Node>, ph: seq<Phase>, m: Move)
    requires Ordered(s, c, ph) && Turns(ph) && Turns(PhasesAfter(ph, Step(s, m, true).ev))
    ensures Continues(s, c, ph, Step(s, m, true), LiveAfter(s, c, m))
  {
    assert m.Start? || m.t >= |s.pcs| ==> LiveAfter(s, c, m) == c;
    hide Ordered, Turns, Continues, StepThread, LiveAfter, Begin, PhasesAfter;
    if m.t >= |s.pcs| || (m.Start? && !s.pcs[m.t].Idle?) {
      NothingContinues(s, c, ph);
    } else if m.Start? {
      CallContinues(s, c, ph, m.t, m.op);
    } else {
      assert m == Go(m.t);
      GoContinues(s, c, ph, m.t);
    }
  }

  // ------------------------------------------------------------------ every run in which both ends take turns

  /** A thread's open call is what its phase says. */
  lemma {:induction false} OpenAgrees(t: Tid, events: seq<Event>)
    requires !PhaseOf(t, events).Broken?
    ensures OpenCall(t, History(events)) == OpenOp(PhaseOf(t, events))
    decreases |events|
  {
    if events != [] {
      hide History, OpenCall, PhaseOf, PhaseStep, OpenOp;
      var before, ev := events[..|events| - 1], events[|events| - 1];
      LastPhase(t, events);
      OpenOpStep(PhaseOf(t, before), t, ev);
      OpenAgrees(t, before);
      LastSeen(events);
      OpenCallStep(t, History(before), ev);
    } else {
      assert OpenOp(PhaseOf(t, events)) == None;
    }
  }

  lemma OpenOpStep(ph: Phase, t: Tid, ev: Event)
    requires !PhaseStep(ph, t, ev).Broken?
    ensures !ph.Broken?
    ensures OpenOp(PhaseStep(ph, t, ev)) == if ev.Call? && ev.t == t then Some(ev.op) else if ev.Return? && ev.t == t then None else OpenOp(ph)
  {
  }

  lemma LastSeen(events: seq<Event>)
    requires events != []
    ensures var before, ev := events[..|events| - 1], events[|events| - 1];
      History(events) == if ev.Call? || ev.Return? then History(before) + [ev] else History(before)
  {
  }

  lemma LastPhase(t: Tid, events: seq<Event>)
    requires events != []
    ensures PhaseOf(t, events) == PhaseStep(PhaseOf(t, events[..|events| - 1]), t, events[|events| - 1])
  {
  }

  lemma OpenCallStep(t: Tid, h: seq<Event>, ev: Event)
    ensures OpenCall(t, h + [ev])
         == if ev.Call? && ev.t == t then Some(ev.op) else if ev.Return? && ev.t == t then None else OpenCall(t, h)
  {
    assert (h + [ev])[..|h|] == h;
  }

  lemma HistoryStep(events: seq<Event>, ev: Event)
    ensures History(events + [ev]) == if ev.Call? || ev.Return? then History(events) + [ev] else History(events)
    ensures ev.Call? || ev.Return? ==> var h := History(events + [ev]); h[..|h| - 1] == History(events) && h[|h| - 1] == ev
  {
    assert (events + [ev])[..|events|] == events;
  }

  lemma TurnsKept(ph: seq<Phase>, ev: Event)
    requires Turns(ph) && !ev.Call?
    ensures Turns(PhasesAfter(ph, ev))
  {
    forall t | 0 <= t < |ph|
      ensures OpenOp(PhasesAfter(ph, ev)[t]) == OpenOp(ph[t]) || OpenOp(PhasesAfter(ph, ev)[t]) == None
    {
    }
    hide OpenOp;
  }

  ghost predicate BothInTurn(h: seq<Event>) { InTurn(h, Back) && InTurn(h, Front) }

  lemma TurnsBySight(n: nat, events: seq<Event>)
    requires BothInTurn(History(events)) && forall t: Tid :: t < n ==> !PhaseOf(t, events).Broken?
    ensures Turns(Phases(n, events))
  {
    var ph := Phases(n, events);
    forall t | 0 <= t < n ensures OpenOp(ph[t]) == OpenCall(t, History(events)) { OpenAgrees(t, events); }
    hide OpenOp, OpenCall, History, WorksOn;
    assert OneAt(History(events), Back) && OneAt(History(events), Front);
  }

  lemma CalledIsWhole(n: nat, events: seq<Event>, s: State, c: seq<Node>, ev: Event)
    requires AllPcsAre(s, c, Phases(n, events)) && ev.Call? && ev.t < n && s.pcs[ev.t].Idle?
    ensures forall t: Tid :: t < n ==> !PhaseOf(t, events + [ev]).Broken?
  {
    assert (events + [ev])[..|events|] == events;
    forall t: Tid | t < n ensures !PhaseOf(t, events + [ev]).Broken? {
      assert PcIs(s, c, s.pcs[t], Phases(n, events)[t]);
    }
  }

  ghost predicate Serial(n: nat, moves: seq<Move>) { BothInTurn(History(Execute(n, moves, true).events)) }

  lemma SerialBefore(n: nat, moves: seq<Move>)
    requires Serial(n, moves) && moves != []
    ensures Serial(n, moves[..|moves| - 1])
  {
    var r0, m := Execute(n, moves[..|moves| - 1], true), moves[|moves| - 1];
    HistoryStep(r0.events, Step(r0.s, m, true).ev);
    hide History, Step;
  }

  /** The invariant of every such run. */
  ghost predicate RunOrdered(n: nat, moves: seq<Move>) {
    var r := Execute(n, moves, true);
    var c := Live(n, moves);
    Ordered(r.s, c, Phases(n, r.events)) && Turns(Phases(n, r.events)) && Fifo(r.events) == Some(Elements(r.s, c))
  }

  lemma StartOrdered(n: nat)
    ensures RunOrdered(n, [])
  {
    var s, c := Init(n), [1];
    assert LinkedAt(s, c, 0);
    assert Items(s, c[1..]) == [];
  }

  lemma {:induction false} RunContinues(n: nat, moves: seq<Move>)
    requires Serial(n, moves)
    ensures RunOrdered(n, moves)
    decreases |moves|
  {
    if moves == [] {
      StartOrdered(n);
    } else {
      SerialBefore(n, moves);
      RunContinues(n, moves[..|moves| - 1]);
      RunStep(n, moves);
    }
  }

  lemma RunStep(n: nat, moves: seq<Move>)
    requires moves != [] && Serial(n, moves) && RunOrdered(n, moves[..|moves| - 1])
    ensures RunOrdered(n, moves)
  {
    var before, m := moves[..|moves| - 1], moves[|moves| - 1];
    var r0, c := Execute(n, before, true), Live(n, before);
    var o := Step(r0.s, m, true);
    var ph := Phases(n, r0.events);
    PhasesStep(n, r0.events, o.ev);
    assert Execute(n, moves, true) == Run(o.s, r0.events + [o.ev]);
    if o.ev.Call? {
      CallOf(r0.s, m);
      assert |r0.s.pcs| == n;
      CalledIsWhole(n, r0.events, r0.s, c, o.ev);
      TurnsBySight(n, r0.events + [o.ev]);
    } else {
      TurnsKept(ph, o.ev);
    }
    hide Ordered, Turns, Step, Fifo, Elements, PhasesAfter, Phases, LiveAfter, Serial, BothInTurn;
    MoveContinues(r0.s, c, ph, m);
    FifoExtends(r0.events, o.ev, Elements(r0.s, c), Elements(o.s, LiveAfter(r0.s, c, m)));
  }

  lemma CallOf(s: State, m: Move)
    requires Step(s, m, true).ev.Call?
    ensures var ev := Step(s, m, true).ev; ev.t < |s.pcs| && s.pcs[ev.t].Idle?
  {
  }

  lemma PcWhole(s: State, c: seq<Node>, pc: Pc, ph: Phase)
    requires PcIs(s, c, pc, ph)
    ensures !ph.Broken?
  {
  }

  lemma {:induction false} Outside(n: nat, moves: seq<Move>, t: Tid)
    requires t >= n
    ensures var r := Execute(n, moves, true); |r.s.pcs| == n && PhaseOf(t, r.events) == Free
    decreases |moves|
  {
    if moves != [] {
      var before, m := moves[..|moves| - 1], moves[|moves| - 1];
      Outside(n, before, t);
      var r0 := Execute(n, before, true);
      var o := Step(r0.s, m, true);
      assert |o.s.pcs| == n && (o.ev.Quiet? || o.ev.t != t) by {
        if m.Go? && m.t < n { ThreadEvent(r0.s, m.t, true); }
      }
      assert (r0.events + [o.ev])[..|r0.events|] == r0.events;
    }
  }

  /**
    Main result: with nodes given back and taken again, any number of threads and any interleaving,
    the queue is a FIFO queue and loses nothing as long as no two pushes and no two pops overlap.
   */
  lemma TurnsMakeItLinearizable(n: nat, moves: seq<Move>)
    requires BothInTurn(History(Execute(n, moves, true).events))
    ensures Linearizable(History(Execute(n, moves, true).events))
    ensures Conserved(Execute(n, moves, true))
  {
    hide BothInTurn, RunOrdered;
    RunContinues(n, moves);
    OrderedConserves(n, moves);
    var r := Execute(n, moves, true);
    forall t: Tid ensures !PhaseOf(t, r.events).Broken? { OrderedWhole(n, moves, t); }
    assert Fifo(r.events).Some?;
  }

  lemma OrderedWhole(n: nat, moves: seq<Move>, t: Tid)
    requires RunOrdered(n, moves)
    ensures !PhaseOf(t, Execute(n, moves, true).events).Broken?
  {
    var r, c := Execute(n, moves, true), Live(n, moves);
    Outside(n, moves, n);
    if t < n {
      assert Phases(n, r.events)[t] == PhaseOf(t, r.events);
      PcWhole(r.s, c, r.s.pcs[t], PhaseOf(t, r.events));
    } else {
      Outside(n, moves, t);
    }
    hide Execute, Live, Fifo, PcIs, HoldsLive;
  }

  lemma OrderedConserves(n: nat, moves: seq<Move>)
    requires RunOrdered(n, moves)
    ensures Conserved(Execute(n, moves, true)) && Fifo(Execute(n, moves, true).events).Some?
  {
    var r, c := Execute(n, moves, true), Live(n, moves);
    hide Execute, Live, AllPcsAre, HeldDiffer, TailIsLast, FreeApart, Fifo, LinkedAt;
    FifoConserves(r.events);
    Pigeonhole(c, |r.s.heap|);
    ReachableIsSuffix(r.s, c, 0, |r.s.heap|);
  }

  /** In such a run a pop takes effect with NULL exactly when the queue is empty, and else with its first element. */
  lemma PopTakesFirst(n: nat, moves: seq<Move>, m: Move)
    requires BothInTurn(History(Execute(n, moves, true).events))
    requires var ev := Step(Execute(n, moves, true).s, m, true).ev; ev.Effect? && ev.op.Pop?
    ensures var s := Execute(n, moves, true).s;
      var q := Reachable(s, s.prevHead, |s.heap|);
      Step(s, m, true).ev.r == (if q == [] then 0 else q[0])
  {
    var r, c := Execute(n, moves, true), Live(n, moves);
    RunContinues(n, moves);
    var o := Step(r.s, m, true);
    TurnsKept(Phases(n, r.events), o.ev);
    MoveContinues(r.s, c, Phases(n, r.events), m);
    LiveReachable(r.s, c);
    hide Execute, Live, Step, Turns, Phases, Ordered, BothInTurn, Elements, Reachable;
  }

  lemma LiveReachable(s: State, c: seq<Node>)
    requires HoldsLive(s, c)
    ensures Reachable(s, s.prevHead, |s.heap|) == Elements(s, c)
  {
    Pigeonhole(c, |s.heap|);
    ReachableIsSuffix(s, c, 0, |s.heap|);
    hide LinkedAt;
  }

  // ------------------------------------------------------------------ runs that do not take turns

  /** A run of two threads, as a state, what went in and came out, and what callers saw. */
  datatype Ledger = Ledger(s: State, pushed: seq<Elem>, popped: seq<Elem>, history: seq<Event>)

  function LedgerOf(moves: seq<Move>): Ledger {
    var r := Execute(2, moves, true);
    Ledger(r.s, Pushed(r.events), Popped(r.events), History(r.events))
  }

  function Entry(l: Ledger, m: Move): Ledger {
    var o := Step(l.s, m, true);
    Ledger(o.s,
           if o.ev.Effect? && o.ev.op.Push? && o.ev.op.e != 0 then l.pushed + [o.ev.op.e] else l.pushed,
           if o.ev.Effect? && o.ev.op.Pop? && o.ev.r != 0 then l.popped + [o.ev.r] else l.popped,
           if o.ev.Call? || o.ev.Return? then l.history + [o.ev] else l.history)
  }

  lemma More(moves: seq<Move>, m: Move) returns (r: seq<Move>)
    ensures r == moves + [m] && LedgerOf(r) == Entry(LedgerOf(moves), m)
  {
    r := moves + [m];
    assert r[..|r| - 1] == moves;
    var e := Execute(2, r, true).events;
    assert e[..|e| - 1] == Execute(2, moves, true).events;
  }

  lemma LedgerMeans(moves: seq<Move>)
    ensures var r := Execute(2, moves, true); LedgerOf(moves) == Ledger(r.s, Pushed(r.events), Popped(r.events), History(r.events))
  {
  }

  lemma NoMoves() returns (r: seq<Move>)
    ensures LedgerOf(r) == Ledger(Init(2), [], [], []) && Init(2) == State([Cell(0, 0), Cell(0, 0)], 1, 1, [], [Idle, Idle])
  {
    r := [];
    assert Init(2).pcs == [Idle, Idle];
  }

  /** Only this thread ever calls for this end. */
  lemma {:induction false} OneCaller(h: seq<Event>, end: End, t: Tid)
    requires forall i :: 0 <= i < |h| && h[i].Call? && WorksOn(Some(h[i].op), end) ==> h[i].t == t
    ensures InTurn(h, end)
    decreases |h|
  {
    forall u: Tid | WorksOn(OpenCall(u, h), end) ensures u == t { OpenCaller(h, end, u); }
    if h != [] { OneCaller(h[..|h| - 1], end, t); }
  }

  lemma {:induction false} OpenCaller(h: seq<Event>, end: End, u: Tid)
    requires WorksOn(OpenCall(u, h), end)
    ensures exists i :: 0 <= i < |h| && h[i].Call? && h[i].t == u && WorksOn(Some(h[i].op), end)
    decreases |h|
  {
    var ev := h[|h| - 1];
    if !(ev.Call? && ev.t == u) {
      OpenCaller(h[..|h| - 1], end, u);
      var i :| 0 <= i < |h| - 1 && h[..|h| - 1][i].Call? && h[..|h| - 1][i].t == u && WorksOn(Some(h[..|h| - 1][i].op), end);
      assert h[i].Call?;
    }
  }

  // ------------------------------------------------------------------ overlapping pushes

  /** Two pushes take their nodes; the first has read the tail. */
  lemma BothTakeNodes(start: seq<Move>) returns (r: seq<Move>)
    requires LedgerOf(start) == Ledger(State([Cell(0, 0), Cell(0, 0)], 1, 1, [], [Idle, Idle]), [], [], [])
    ensures LedgerOf(r) == Ledger(State([Cell(0, 0), Cell(0, 0), Cell(0, 7), Cell(0, 0)], 1, 1, [], [PushLink(2, 1, 1), PushReadTail(8, 3)]),
                                  [], [], [Call(0, Push(7)), Call(1, Push(8))])
  {
    hide LedgerOf;
    r := start;
    r := More(r, Start(0, Push(7))); r := More(r, Go(0)); r := More(r, Go(0)); r := More(r, Go(0));
    r := More(r, Start(1, Push(8))); r := More(r, Go(1));
  }

  /** The second reads the same tail, and links behind the node the first has linked. */
  lemma BothReadTail(start: seq<Move>) returns (r: seq<Move>)
    requires LedgerOf(start) == Ledger(State([Cell(0, 0), Cell(0, 0), Cell(0, 7), Cell(0, 0)], 1, 1, [], [PushLink(2, 1, 1), PushReadTail(8, 3)]),
                                       [], [], [Call(0, Push(7)), Call(1, Push(8))])
    ensures LedgerOf(r) == Ledger(State([Cell(0, 0), Cell(2, 0), Cell(0, 7), Cell(0, 8)], 1, 1, [], [PushSwing(2, 1), PushLink(3, 1, 2)]),
                                  [7], [], [Call(0, Push(7)), Call(1, Push(8))])
  {
    hide LedgerOf;
    r := start;
    r := More(r, Go(1)); r := More(r, Go(0)); r := More(r, Go(1)); r := More(r, Go(1));
    r := More(r, Go(1));
  }

  const BothPushed: seq<Event> := [Call(0, Push(7)), Call(1, Push(8)), Return(0, 0), Return(1, 0)]

  /** The first swings the tail to its own node; the second finds the tail moved and leaves it. */
  lemma TailStaysBehind(start: seq<Move>) returns (r: seq<Move>)
    requires LedgerOf(start) == Ledger(State([Cell(0, 0), Cell(2, 0), Cell(0, 7), Cell(0, 8)], 1, 1, [], [PushSwing(2, 1), PushLink(3, 1, 2)]),
                                       [7], [], [Call(0, Push(7)), Call(1, Push(8))])
    ensures LedgerOf(r) == Ledger(State([Cell(0, 0), Cell(2, 0), Cell(3, 7), Cell(0, 8)], 1, 2, [], [Idle, Idle]), [7, 8], [], BothPushed)
  {
    hide LedgerOf;
    r := start;
    r := More(r, Go(1)); r := More(r, Go(0)); r := More(r, Go(0)); r := More(r, Go(1));
    r := More(r, Go(1));
  }

  /** A pop by thread 0 with nobody else moving, up to and past the instant at which it takes effect. */
  lemma PopAloneTakes(start: seq<Move>) returns (r: seq<Move>)
    requires var l := LedgerOf(start);
      |l.s.pcs| == 2 && l.s.pcs[0] == Idle && NextOf(l.s, l.s.prevHead) != 0 && ItemOf(l.s, NextOf(l.s, l.s.prevHead)) != 0
    ensures var l := LedgerOf(start);
      var next := NextOf(l.s, l.s.prevHead);
      LedgerOf(r) == Ledger(l.s.(prevHead := next, pcs := [PopReadNext(l.s.prevHead), l.s.pcs[1]]), l.pushed,
                            l.popped + [ItemOf(l.s, next)], l.history + [Call(0, Pop)])
  {
    hide LedgerOf;
    r := start;
    r := More(r, Start(0, Pop)); r := More(r, Go(0)); r := More(r, Go(0)); r := More(r, Go(0));
    r := More(r, Go(0));
  }

  lemma PopAloneReturns(start: seq<Move>) returns (r: seq<Move>)
    requires var l := LedgerOf(start); |l.s.pcs| == 2 && l.s.pcs[0].PopReadNext?
    ensures var l := LedgerOf(start);
      var p := l.s.pcs[0].p;
      LedgerOf(r) == l.(s := GiveNode(l.s, p).(pcs := [Idle, l.s.pcs[1]]), history := l.history + [Return(0, ItemOf(l.s, NextOf(l.s, p)))])
  {
    hide LedgerOf;
    r := start;
    r := More(r, Go(0)); r := More(r, Go(0)); r := More(r, Go(0)); r := More(r, Go(0));
  }

  const BothPopped: seq<Event> := BothPushed + [Call(0, Pop), Return(0, 7), Call(0, Pop), Return(0, 8)]

  /** Two pops; the second gives back the node the tail still points at. */
  lemma PopBoth(start: seq<Move>) returns (r: seq<Move>)
    requires LedgerOf(start) == Ledger(State([Cell(0, 0), Cell(2, 0), Cell(3, 7), Cell(0, 8)], 1, 2, [], [Idle, Idle]), [7, 8], [], BothPushed)
    ensures LedgerOf(r) == Ledger(State([Cell(0, 0), Cell(4, 0), Cell(1, 7), Cell(0, 8)], 3, 2, [2, 1], [Idle, Idle]), [7, 8], [7, 8], BothPopped)
  {
    hide LedgerOf;
    r := PopAloneTakes(start);
    r := PopAloneReturns(r);
    assert LedgerOf(r) == Ledger(State([Cell(0, 0), Cell(4, 0), Cell(3, 7), Cell(0, 8)], 2, 2, [1], [Idle, Idle]), [7, 8], [7],
                                 BothPushed + [Call(0, Pop), Return(0, 7)]);
    r := PopAloneTakes(r);
    r := PopAloneReturns(r);
  }

  /** A third push takes that node, and comes to look at it as the tail. */
  lemma TakesTail(start: seq<Move>) returns (r: seq<Move>)
    requires LedgerOf(start) == Ledger(State([Cell(0, 0), Cell(4, 0), Cell(1, 7), Cell(0, 8)], 3, 2, [2, 1], [Idle, Idle]), [7, 8], [7, 8], BothPopped)
    ensures LedgerOf(r) == Ledger(State([Cell(0, 0), Cell(4, 0), Cell(0, 9), Cell(0, 8)], 3, 2, [1], [PushScan(2, 2, 2), Idle]), [7, 8], [7, 8],
                                  BothPopped + [Call(0, Push(9))])
  {
    hide LedgerOf;
    r := start;
    r := More(r, Start(0, Push(9))); r := More(r, Go(0));
    assert LedgerOf(r).s.heap == [Cell(0, 0), Cell(4, 0), Cell(0, 0), Cell(0, 8)] && LedgerOf(r).s.free == [1];
    r := More(r, Go(0));
  }

  /** It links the node behind itself. */
  lemma LinkToItself(start: seq<Move>) returns (r: seq<Move>)
    requires LedgerOf(start) == Ledger(State([Cell(0, 0), Cell(4, 0), Cell(0, 9), Cell(0, 8)], 3, 2, [1], [PushScan(2, 2, 2), Idle]), [7, 8], [7, 8],
                                       BothPopped + [Call(0, Push(9))])
    ensures LedgerOf(r) == Ledger(State([Cell(0, 0), Cell(4, 0), Cell(2, 9), Cell(0, 8)], 3, 2, [1], [Idle, Idle]), [7, 8, 9], [7, 8],
                                  BothPopped + [Call(0, Push(9)), Return(0, 0)])
  {
    hide LedgerOf;
    r := start;
    r := More(r, Go(0)); r := More(r, Go(0));
    assert LedgerOf(r).s.heap == [Cell(0, 0), Cell(4, 0), Cell(2, 9), Cell(0, 8)];
    r := More(r, Go(0)); r := More(r, Go(0));
  }

  /**
    Pops in turn are not enough: a run of two threads whose pushes overlap, at whose end every call has
    returned, three elements were pushed and two popped, the queue is empty, and the lost node leads
    to itself, so that a later push never ends.
   */
  lemma RecyclingLosesAnElement() returns (moves: seq<Move>)
    ensures var r := Execute(2, moves, true);
      && InTurn(History(r.events), Front) && !Conserved(r)
      && r.s.pcs == [Idle, Idle]
      && Pushed(r.events) == [7, 8, 9] && Popped(r.events) == [7, 8]
      && Reachable(r.s, r.s.prevHead, |r.s.heap|) == []
      && NextOf(r.s, r.s.tail) == r.s.tail
  {
    moves := NoMoves();
    moves := BothTakeNodes(moves);
    moves := BothReadTail(moves);
    moves := TailStaysBehind(moves);
    moves := PopBoth(moves);
    moves := TakesTail(moves);
    moves := LinkToItself(moves);
    LedgerMeans(moves);
    hide Execute, LedgerOf, Pushed, Popped, Step, History, InTurn, WorksOn;
    var r := Execute(2, moves, true);
    assert NextOf(r.s, 3) == 0 && NextOf(r.s, 2) == 2;
    assert Reachable(r.s, 3, |r.s.heap|) == [];
    assert |Pushed(r.events)| == 3 && |Popped(r.events) + []| == 2;
    PopsByOne();
  }

  lemma PopsByOne()
    ensures InTurn(BothPopped + [Call(0, Push(9)), Return(0, 0)], Front)
  {
    OneCaller(BothPopped + [Call(0, Push(9)), Return(0, 0)], Front, 0);
    hide InTurn;
  }

  // ------------------------------------------------------------------ overlapping pops

  /** A push by thread 0 with nobody else moving, on a tail that is the last node, with no node to take again. */
  lemma PushAloneLinks(start: seq<Move>, e: Elem) returns (r: seq<Move>)
    requires var l := LedgerOf(start);
      |l.s.pcs| == 2 && l.s.pcs[0] == Idle && l.s.free == [] && e != 0 && l.s.tail < |l.s.heap| && NextOf(l.s, l.s.tail) == 0
    ensures var l := LedgerOf(start);
      var n := |l.s.heap|;
      LedgerOf(r) == Ledger(l.s.(heap := (l.s.heap + [Cell(0, e)])[l.s.tail := l.s.heap[l.s.tail].(next := n)],
                                 pcs := [PushSwing(n, l.s.tail), l.s.pcs[1]]),
                            l.pushed + [e], l.popped, l.history + [Call(0, Push(e))])
  {
    hide LedgerOf;
    r := start;
    r := More(r, Start(0, Push(e))); r := More(r, Go(0)); r := More(r, Go(0));
    var l := LedgerOf(start);
    assert LedgerOf(r).s.heap == l.s.heap + [Cell(0, e)];
    r := More(r, Go(0)); r := More(r, Go(0));
  }

  lemma PushAloneReturns(start: seq<Move>) returns (r: seq<Move>)
    requires var l := LedgerOf(start); |l.s.pcs| == 2 && l.s.pcs[0].PushSwing? && l.s.pcs[0].oldTail == l.s.tail
    ensures var l := LedgerOf(start);
      LedgerOf(r) == l.(s := l.s.(tail := l.s.pcs[0].n, pcs := [Idle, l.s.pcs[1]]), history := l.history + [Return(0, 0)])
  {
    hide LedgerOf;
    r := start;
    r := More(r, Go(0)); r := More(r, Go(0));
  }

  /** One pop has taken an element and not read it yet; another gives its node back, and a push takes that node. */
  lemma NodeTakenFromReader() returns (r: seq<Move>)
    ensures var l := LedgerOf(r);
      && l.s == State([Cell(0, 0), Cell(2, 0), Cell(0, 0), Cell(0, 2)], 3, 3, [], [PushReadTail(3, 2), PopReadItem(1, 2)])
      && l.history == [Call(0, Push(1)), Call(1, Pop), Return(0, 0), Call(0, Push(2)), Return(0, 0), Call(0, Pop), Return(0, 2), Call(0, Push(3))]
  {
    hide LedgerOf;
    r := FirstElement();
    r := SecondElement(r);
    r := More(r, Start(0, Push(3))); r := More(r, Go(0));
  }

  lemma FirstElement() returns (r: seq<Move>)
    ensures LedgerOf(r).s == State([Cell(0, 0), Cell(2, 0), Cell(0, 1)], 2, 1, [], [PushSwing(2, 1), PopReadItem(1, 2)])
    ensures LedgerOf(r).history == [Call(0, Push(1)), Call(1, Pop)]
  {
    r := NoMoves();
    hide LedgerOf;
    r := PushAloneLinks(r, 1);
    assert LedgerOf(r).s == State([Cell(0, 0), Cell(2, 0), Cell(0, 1)], 1, 1, [], [PushSwing(2, 1), Idle]);
    r := More(r, Start(1, Pop)); r := More(r, Go(1)); r := More(r, Go(1)); r := More(r, Go(1)); r := More(r, Go(1)); r := More(r, Go(1));
  }

  lemma SecondElement(start: seq<Move>) returns (r: seq<Move>)
    requires LedgerOf(start).s == State([Cell(0, 0), Cell(2, 0), Cell(0, 1)], 2, 1, [], [PushSwing(2, 1), PopReadItem(1, 2)])
    ensures LedgerOf(r).s == State([Cell(0, 0), Cell(2, 0), Cell(4, 1), Cell(0, 2)], 3, 3, [2], [Idle, PopReadItem(1, 2)])
    ensures LedgerOf(r).history == LedgerOf(start).history + [Return(0, 0), Call(0, Push(2)), Return(0, 0), Call(0, Pop), Return(0, 2)]
  {
    hide LedgerOf;
    r := PushAloneReturns(start);
    r := PushAloneLinks(r, 2);
    assert LedgerOf(r).s.heap == [Cell(0, 0), Cell(2, 0), Cell(3, 1), Cell(0, 2)];
    r := PushAloneReturns(r);
    assert LedgerOf(r).s == State([Cell(0, 0), Cell(2, 0), Cell(3, 1), Cell(0, 2)], 2, 3, [], [Idle, PopReadItem(1, 2)]);
    r := PopAloneTakes(r);
    r := PopAloneReturns(r);
  }

  const Misread: seq<Event> := [Call(0, Push(1)), Call(1, Pop), Return(0, 0), Call(0, Push(2)), Return(0, 0),
                                Call(0, Pop), Return(0, 2), Call(0, Push(3)), Return(1, 0)]

  /** What is left in front of the queue of the element 1, going by what thread 1's pop has taken. */
  function One(ph1: Phase): seq<Elem> { if ph1 == Effected(Pop, 1) then [] else [1] }

  /** How things can stand after k calls and returns of that history. */
  predicate CanStand(k: nat, q: seq<Elem>, ph0: Phase, ph1: Phase) {
    && (k <= 1 ==> ph1 == Free)
    && (k > 1 ==> ph1 == Called(Pop) || (ph1.Effected? && ph1.op == Pop))
    && match k
       case 0 => ph0 == Free && q == []
       case 1 => (ph0 == Called(Push(1)) && q == []) || (ph0 == Effected(Push(1), 0) && q == [1])
       case 2 => (ph0 == Called(Push(1)) && q == [] && ph1 != Effected(Pop, 1)) || (ph0 == Effected(Push(1), 0) && q == One(ph1))
       case 3 => ph0 == Free && q == One(ph1)
       case 4 => (ph0 == Called(Push(2)) && q == One(ph1)) || (ph0 == Effected(Push(2), 0) && q == One(ph1) + [2])
       case 5 => ph0 == Free && q == One(ph1) + [2]
       case 6 => (ph0 == Called(Pop) && q == One(ph1) + [2]) || (ph0.Effected? && ph0.op == Pop && (ph0.r == 2 ==> ph1 == Effected(Pop, 1)))
       case _ => ph1 == Effected(Pop, 1)
  }

  lemma EffectStands(k: nat, q: seq<Elem>, ph0: Phase, ph1: Phase, ev: Event, q': seq<Elem>)
    requires CanStand(k, q, ph0, ph1) && ev.Effect? && (ev.t == 0 || ev.t == 1) && FifoStep(q, ev.op, ev.r) == Some(q')
    requires !PhaseStep(ph0, 0, ev).Broken? && !PhaseStep(ph1, 1, ev).Broken?
    ensures CanStand(k, q', PhaseStep(ph0, 0, ev), PhaseStep(ph1, 1, ev))
  {
  }

  lemma SeenStands(k: nat, q: seq<Elem>, ph0: Phase, ph1: Phase)
    requires CanStand(k, q, ph0, ph1) && k < |Misread|
    requires !PhaseStep(ph0, 0, Misread[k]).Broken? && !PhaseStep(ph1, 1, Misread[k]).Broken?
    ensures k + 1 < |Misread| && CanStand(k + 1, q, PhaseStep(ph0, 0, Misread[k]), PhaseStep(ph1, 1, Misread[k]))
  {
    if k == 0 {} else if k == 1 {} else if k == 2 {} else if k == 3 {} else if k == 4 {} else if k == 5 {} else if k == 6 {} else if k == 7 {} else {}
  }

  ghost predicate Whole(events: seq<Event>) { Fifo(events).Some? && forall t: Tid :: !PhaseOf(t, events).Broken? }

  lemma WholeBefore(events: seq<Event>)
    requires Whole(events) && events != []
    ensures Whole(events[..|events| - 1])
    ensures events[|events| - 1].Effect? ==>
      FifoStep(Fifo(events[..|events| - 1]).value, events[|events| - 1].op, events[|events| - 1].r) == Fifo(events)
    ensures !events[|events| - 1].Effect? ==> Fifo(events) == Fifo(events[..|events| - 1])
  {
    var before, ev := events[..|events| - 1], events[|events| - 1];
    forall t: Tid ensures !PhaseOf(t, before).Broken? {
      assert PhaseOf(t, events) == PhaseStep(PhaseOf(t, before), t, ev);
    }
  }

  /** A thread that never calls never takes effect. */
  lemma {:induction false} OnlyTwo(events: seq<Event>, t: Tid)
    requires Whole(events) && History(events) <= Misread && t > 1
    ensures PhaseOf(t, events) == Free
    decreases |events|
  {
    if events != [] {
      var before, ev := events[..|events| - 1], events[|events| - 1];
      WholeBefore(events);
      assert events == before + [ev];
      HistoryStep(before, ev);
      hide History, Fifo;
      OnlyTwo(before, t);
      if ev.Call? || ev.Return? { SeenByTwo(History(before), ev); }
      assert !PhaseOf(t, events).Broken?;
    }
  }

  lemma SeenByTwo(h: seq<Event>, ev: Event)
    requires h + [ev] <= Misread
    ensures |h| < |Misread| && ev == Misread[|h|] && h <= Misread && (ev.Call? || ev.Return?) && ev.t <= 1
  {
    assert (h + [ev])[|h|] == ev;
  }

  lemma {:induction false} NeverComesSoFar(events: seq<Event>)
    requires Whole(events) && History(events) <= Misread
    ensures |History(events)| < |Misread|
    ensures CanStand(|History(events)|, Fifo(events).value, PhaseOf(0, events), PhaseOf(1, events))
    decreases |events|
  {
    if events != [] {
      var before, ev := events[..|events| - 1], events[|events| - 1];
      WholeBefore(events);
      assert events == before + [ev];
      HistoryStep(before, ev);
      assert PhaseOf(0, events) == PhaseStep(PhaseOf(0, before), 0, ev) && PhaseOf(1, events) == PhaseStep(PhaseOf(1, before), 1, ev);
      assert !PhaseOf(0, events).Broken? && !PhaseOf(1, events).Broken?;
      var h := History(before);
      if ev.Call? || ev.Return? { SeenByTwo(h, ev); }
      if ev.Effect? { EffectByTwo(before, ev); }
      hide History, Fifo, PhaseOf, CanStand, FifoStep, PhaseStep;
      NeverComesSoFar(before);
      var q, ph0, ph1 := Fifo(before).value, PhaseOf(0, before), PhaseOf(1, before);
      if ev.Effect? {
        EffectStands(|h|, q, ph0, ph1, ev, Fifo(events).value);
      } else if !ev.Quiet? {
        SeenStands(|h|, q, ph0, ph1);
      } else {
        QuietStands(ph0, ph1);
      }
    }
  }

  lemma QuietStands(ph0: Phase, ph1: Phase)
    ensures PhaseStep(ph0, 0, Quiet) == ph0 && PhaseStep(ph1, 1, Quiet) == ph1
  {
  }

  lemma EffectByTwo(before: seq<Event>, ev: Event)
    requires Whole(before + [ev]) && History(before) <= Misread && ev.Effect? && Whole(before)
    ensures ev.t <= 1
  {
    hide PhaseOf, Fifo;
    if ev.t > 1 {
      OnlyTwo(before, ev.t);
      StrayEffect(before, ev);
    }
  }

  lemma StrayEffect(before: seq<Event>, ev: Event)
    requires ev.Effect? && PhaseOf(ev.t, before) == Free
    ensures PhaseOf(ev.t, before + [ev]).Broken?
  {
    assert (before + [ev])[..|before|] == before;
  }

  /**
    Pushes in turn are not enough: in a run of two threads whose pops overlap, a pop returns NULL whose
    element was there and had been taken for it, so that no FIFO queue could have answered so.
   */
  lemma RecyclingMisreads() returns (moves: seq<Move>)
    ensures var r := Execute(2, moves, true); InTurn(History(r.events), Back) && !Linearizable(History(r.events))
  {
    moves := NodeTakenFromReader();
    hide LedgerOf;
    moves := More(moves, Go(1)); moves := More(moves, Go(1)); moves := More(moves, Go(1));
    var h := LedgerOf(moves).history;
    assert h == Misread;
    OneCaller(h, Back, 0);
    LedgerMeans(moves);
    NotLinearizable();
  }

  lemma NotLinearizable()
    ensures !Linearizable(Misread)
  {
    forall events: seq<Event> | History(events) == Misread && Whole(events) ensures false {
      NeverComesSoFar(events);
    }
    hide History;
  }

  // ------------------------------------------------------------------ exactly both

  predicate AmongTwo(moves: seq<Move>) { forall i :: 0 <= i < |moves| ==> moves[i].t < 2 }

  /** Moves of threads that are not there leave no trace. */
  lemma {:induction false} Muted(moves: seq<Move>) returns (r: seq<Move>)
    ensures AmongTwo(r) && LedgerOf(r) == LedgerOf(moves)
    decreases |moves|
  {
    hide LedgerOf, Entry;
    r := [];
    if moves != [] {
      var before, m := moves[..|moves| - 1], moves[|moves| - 1];
      r := Muted(before);
      LastEntry(moves);
      if m.t < 2 { r := More(r, m); } else { NoTrace(before, m); }
    }
  }

  lemma NoTrace(moves: seq<Move>, m: Move)
    requires m.t >= 2
    ensures Entry(LedgerOf(moves), m) == LedgerOf(moves)
  {
    Outside(2, moves, 2);
    hide Execute, Pushed, Popped, History;
  }

  lemma LastEntry(moves: seq<Move>)
    requires moves != []
    ensures LedgerOf(moves) == Entry(LedgerOf(moves[..|moves| - 1]), moves[|moves| - 1])
  {
    var r := More(moves[..|moves| - 1], moves[|moves| - 1]);
    assert r == moves;
  }

  /** The same state with more threads, all idle. */
  function WithIdle(s: State, k: nat): State { s.(pcs := s.pcs + seq(k, _ => Idle)) }

  lemma IdleStep(s: State, k: nat, m: Move)
    requires m.t < |s.pcs|
    ensures Step(WithIdle(s, k), m, true) == Outcome(WithIdle(Step(s, m, true).s, k), Step(s, m, true).ev)
  {
    var w := WithIdle(s, k);
    assert w.pcs[m.t] == s.pcs[m.t];
    if m.Go? {
      IdleGo(s, k, m.t);
    } else if s.pcs[m.t].Idle? {
      IdleAt(s, k, m.t, Begin(m.op));
    }
  }

  lemma IdleAt(s: State, k: nat, t: Tid, pc: Pc)
    requires t < |s.pcs|
    ensures At(WithIdle(s, k), t, pc) == WithIdle(At(s, t, pc), k)
  {
  }

  lemma IdleGo(s: State, k: nat, t: Tid)
    requires t < |s.pcs|
    ensures StepThread(WithIdle(s, k), t, true) == Outcome(WithIdle(StepThread(s, t, true).s, k), StepThread(s, t, true).ev)
  {
    var w, o := WithIdle(s, k), StepThread(s, t, true);
    ThreadEvent(s, t, true);
    assert w.pcs[t] == s.pcs[t];
    assert w.pcs[t := o.s.pcs[t]] == s.pcs[t := o.s.pcs[t]] + seq(k, _ => Idle);
  }

  /** A run of two threads is a run of as many more that never call. */
  lemma {:induction false} AmongMore(n: nat, moves: seq<Move>)
    requires n >= 2 && AmongTwo(moves)
    ensures Execute(n, moves, true) == Run(WithIdle(Execute(2, moves, true).s, n - 2), Execute(2, moves, true).events)
    decreases |moves|
  {
    if moves == [] {
      assert WithIdle(Init(2), n - 2).pcs == Init(n).pcs;
    } else {
      var before := moves[..|moves| - 1];
      AmongMore(n, before);
      Outside(2, before, 2);
      IdleStep(Execute(2, before, true).s, n - 2, moves[|moves| - 1]);
      hide Step, WithIdle;
    }
  }

  lemma {:induction false} ReachableByHeap(s: State, k: nat, x: Node, fuel: nat)
    ensures Reachable(WithIdle(s, k), x, fuel) == Reachable(s, x, fuel)
    decreases fuel
  {
    if fuel > 0 && NextOf(s, x) != 0 { ReachableByHeap(s, k, NextOf(s, x), fuel - 1); }
  }

  /** What is wrong with a run of two threads is wrong with one of any number. */
  lemma Carried(n: nat, moves: seq<Move>) returns (r: seq<Move>)
    requires n >= 2
    ensures History(Execute(n, r, true).events) == History(Execute(2, moves, true).events)
    ensures Conserved(Execute(n, r, true)) == Conserved(Execute(2, moves, true))
  {
    hide Execute, LedgerOf, History, Pushed, Popped, Reachable, AmongTwo;
    r := Muted(moves);
    AmongMore(n, r);
    LedgerMeans(r);
    LedgerMeans(moves);
    IdleConserves(Execute(2, r, true), n - 2);
  }

  lemma IdleConserves(r: Run, k: nat)
    ensures Conserved(Run(WithIdle(r.s, k), r.events)) == Conserved(r)
  {
    ReachableByHeap(r.s, k, r.s.prevHead, |r.s.heap|);
    hide Reachable, Pushed, Popped;
  }

  /** The queue does in this run what a queue should. */
  ghost predicate Right(n: nat, moves: seq<Move>) {
    Linearizable(History(Execute(n, moves, true).events)) && Conserved(Execute(n, moves, true))
  }

  /** Calls at the back take turns, and at the front, each as far as it is asked for. */
  ghost predicate Taking(n: nat, moves: seq<Move>, back: bool, front: bool) {
    var h := History(Execute(n, moves, true).events);
    (back ==> InTurn(h, Back)) && (front ==> InTurn(h, Front))
  }

  /**
    With two threads or more, taking turns makes every run right exactly when both ends do: pushes
    among themselves and pops among themselves.
   */
  lemma BothEndsMustTakeTurns(n: nat, back: bool, front: bool)
    requires n >= 2
    ensures (forall moves: seq<Move> :: Taking(n, moves, back, front) ==> Right(n, moves)) <==> back && front
  {
    hide History, Execute, InTurn, Linearizable, Conserved;
    if back && front {
      forall moves: seq<Move> | Taking(n, moves, back, front) ensures Right(n, moves) {
        TurnsMakeItLinearizable(n, moves);
      }
    } else if !back {
      var moves := RecyclingLosesAnElement();
      var r := Carried(n, moves);
      assert Taking(n, r, back, front) && !Right(n, r);
    } else {
      var moves := RecyclingMisreads();
      var r := Carried(n, moves);
      assert Taking(n, r, back, front) && !Right(n, r);
    }
  }
}
