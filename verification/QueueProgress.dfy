/**
  Progress of the lock-free queue of kernel/rt/queue.c, in the runs in which no node is given back: a call
  can only be held up by other calls that take effect, and a thread left alone finishes its call.
 */
module QueueProgress {
  import opened Sequences
  import opened Queue

  // ------------------------------------------------------------------ the steps a call can still take

  /** The links from a node to the last one linked. */
  ghost function Behind(c: seq<Node>, a: Node): nat { if a in c then |c| - 1 - Pos(c, a) else 0 }

  /** The most steps a thread takes before it is idle, as long as no other thread's call takes effect. */
  ghost function Left(s: State, c: seq<Node>, pc: Pc): nat {
    match pc
    case Idle => 0
    case PushIgnored => 2
    case PushAlloc(_) => 2 * Behind(c, s.tail) + 6
    case PushReadTail(_, _) => 2 * Behind(c, s.tail) + 5
    case PushScan(_, _, tail) => 2 * Behind(c, tail) + 4
    case PushAdvance(_, _, tail) => 2 * Behind(c, tail) + 3
    case PushLink(_, _, tail) => if Behind(c, tail) == 0 then 3 else 2 * Behind(c, tail) + 5
    case PushSwing(_, _) => 2
    case PopReadHead => 8
    case PopTest(p) => if p == s.prevHead then 7 else 10
    case PopArgument(p) => if p == s.prevHead then 6 else 9
    case PopSwap(p, _) => if p == s.prevHead then 5 else 8
    case PopReadNext(_) => 4
    case PopReadItem(_, _) => 3
    case PopFree(_, _) => 2
    case Finished(_) => 1
  }

  lemma BehindNext(s: State, c: seq<Node>, a: Node)
    requires HoldsChain(s, c) && a in c
    ensures NextOf(s, a) == 0 <==> Behind(c, a) == 0
    ensures NextOf(s, a) != 0 ==> Behind(c, NextOf(s, a)) == Behind(c, a) - 1
  {
    NextOnChain(s, c, a);
    hide HoldsChain, NextOf;
  }

  predicate Searches(pc: Pc) { pc.PushScan? || pc.PushAdvance? || pc.PushLink? }

  lemma SearchStep(s: State, c: seq<Node>, t: Tid)
    requires HoldsChain(s, c) && t < |s.pcs| && Searches(s.pcs[t]) && s.pcs[t].tail in c
    requires s.pcs[t].PushAdvance? ==> NextOf(s, s.pcs[t].tail) != 0
    ensures var s' := StepThread(s, t, false).s; Left(s', c + NewLink(s, Go(t)), s'.pcs[t]) < Left(s, c, s.pcs[t])
  {
    BehindNext(s, c, s.pcs[t].tail);
    hide HoldsChain, NextOf, Behind, SetNext;
    assert c + [] == c;
  }

  lemma PlainStep(s: State, c: seq<Node>, t: Tid)
    requires t < |s.pcs| && !s.pcs[t].Idle? && !Searches(s.pcs[t])
    ensures var s' := StepThread(s, t, false).s; Left(s', c + NewLink(s, Go(t)), s'.pcs[t]) < Left(s, c, s.pcs[t])
  {
    hide NextOf, Behind, GiveNode;
    assert c + [] == c;
  }

  /** Each step of a thread brings it nearer to the end of its call. */
  lemma OwnStep(s: State, c: seq<Node>, ph: seq<Phase>, t: Tid)
    requires Inv(s, c, ph) && t < |s.pcs| && !s.pcs[t].Idle?
    ensures var s' := StepThread(s, t, false).s; Left(s', c + NewLink(s, Go(t)), s'.pcs[t]) < Left(s, c, s.pcs[t])
  {
    assert PcHolds(s, c, s.pcs[t], ph[t]);
    hide LinkedAt, AllPcsHold, OwnersDiffer, Distinct, HoldsChain, StepThread, Left, NewLink, NextOf;
    if Searches(s.pcs[t]) { SearchStep(s, c, t); } else { PlainStep(s, c, t); }
  }

  /** A step that links nothing and leaves prev_head leaves every other thread as near to its end as it was. */
  lemma OtherStep(s: State, c: seq<Node>, s': State, pc: Pc)
    requires s'.prevHead == s.prevHead && Ahead(c, s.tail, s'.tail)
    ensures Left(s', c, pc) <= Left(s, c, pc)
  {
  }

  // ------------------------------------------------------------------ the steps left in a run

  ghost function LeftOf(n: nat, moves: seq<Move>, t: Tid): nat {
    var s := Execute(n, moves, false).s;
    if t < |s.pcs| then Left(s, Chain(n, moves), s.pcs[t]) else 0
  }

  predicate IdleAfter(n: nat, moves: seq<Move>, t: Tid) {
    var s := Execute(n, moves, false).s; t < |s.pcs| && s.pcs[t].Idle?
  }

  lemma IdleIff(n: nat, moves: seq<Move>, t: Tid)
    requires t < n
    ensures IdleAfter(n, moves, t) <==> LeftOf(n, moves, t) == 0
  {
    OutsidersSilent(n, moves, n);
    hide Execute, Chain;
  }

  lemma Extended(n: nat, moves: seq<Move>, m: Move)
    ensures Execute(n, moves + [m], false).s == Step(Execute(n, moves, false).s, m, false).s
    ensures Chain(n, moves + [m]) == Chain(n, moves) + NewLink(Execute(n, moves, false).s, m)
  {
    assert (moves + [m])[..|moves|] == moves;
    hide Step, NewLink;
  }

  lemma OwnMove(n: nat, moves: seq<Move>, t: Tid)
    requires t < n
    ensures LeftOf(n, moves + [Go(t)], t) < LeftOf(n, moves, t) || LeftOf(n, moves + [Go(t)], t) == 0
  {
    OutsidersSilent(n, moves, n);
    OutsidersSilent(n, moves + [Go(t)], n);
    RunKeeps(n, moves);
    Extended(n, moves, Go(t));
    var r := Execute(n, moves, false);
    hide Execute, Chain, Inv, StepThread, NewLink, Contents, Fifo, Left;
    if r.s.pcs[t].Idle? {
      IdleStays(r.s, Chain(n, moves), t);
    } else {
      OwnStep(r.s, Chain(n, moves), Phases(n, r.events), t);
    }
  }

  lemma IdleStays(s: State, c: seq<Node>, t: Tid)
    requires t < |s.pcs| && s.pcs[t].Idle?
    ensures StepThread(s, t, false).s == s && Left(s, c + NewLink(s, Go(t)), s.pcs[t]) == 0
  {
  }

  lemma LeftBound(n: nat, moves: seq<Move>, t: Tid)
    requires t < n
    ensures LeftOf(n, moves, t) <= 2 * |Execute(n, moves, false).s.heap| + 6
  {
    OutsidersSilent(n, moves, n);
    RunKeeps(n, moves);
    var s, c := Execute(n, moves, false).s, Chain(n, moves);
    hide Execute, Chain, AllPcsHold, Contents, Fifo, OwnersDiffer, HoldsChain, Left;
    ChainInStore(s, c);
    LeftIsLess(s, c, s.pcs[t]);
  }

  lemma LeftIsLess(s: State, c: seq<Node>, pc: Pc)
    requires |c| < |s.heap| && |s.heap| >= 2
    ensures Left(s, c, pc) <= 2 * |s.heap| + 6
  {
  }

  lemma ChainInStore(s: State, c: seq<Node>)
    requires HoldsChain(s, c)
    ensures |c| < |s.heap| && |s.heap| >= 2
  {
    hide LinkedAt;
    Pigeonhole([0] + c, |s.heap|);
  }

  // ------------------------------------------------------------------ alone

  function Alone(t: Tid, k: nat): seq<Move> { seq(k, _ => Go(t)) }

  lemma {:induction false} AloneNears(n: nat, before: seq<Move>, t: Tid, k: nat)
    requires t < n
    ensures LeftOf(n, before + Alone(t, k), t) + k <= LeftOf(n, before, t) || LeftOf(n, before + Alone(t, k), t) == 0
    decreases k
  {
    hide LeftOf;
    if k == 0 {
      assert before + Alone(t, k) == before;
    } else {
      AloneNears(n, before, t, k - 1);
      OwnMove(n, before + Alone(t, k - 1), t);
      assert before + Alone(t, k) == before + Alone(t, k - 1) + [Go(t)];
    }
  }

  /** From any instant of any run: a thread that alone takes steps is done with its call after two for each node, and six. */
  lemma AloneFinishes(n: nat, before: seq<Move>, t: Tid)
    requires t < n
    ensures IdleAfter(n, before + Alone(t, 2 * |Execute(n, before, false).s.heap| + 6), t)
  {
    var k := 2 * |Execute(n, before, false).s.heap| + 6;
    hide LeftOf, Execute, IdleAfter, Alone;
    LeftBound(n, before, t);
    AloneNears(n, before, t, k);
    IdleIff(n, before + Alone(t, k), t);
  }

  // ------------------------------------------------------------------ together

  /** A busy thread's step by which no call takes effect. */
  predicate Fruitless(s: State, m: Move) {
    m.Go? && m.t < |s.pcs| && !s.pcs[m.t].Idle? && !StepThread(s, m.t, false).ev.Effect?
  }

  predicate AllFruitless(n: nat, before: seq<Move>, more: seq<Move>) {
    more == [] ||
    (AllFruitless(n, before, more[..|more| - 1]) &&
     Fruitless(Execute(n, before + more[..|more| - 1], false).s, more[|more| - 1]))
  }

  ghost function TotalLeft(n: nat, moves: seq<Move>, k: nat): nat {
    if k == 0 then 0 else TotalLeft(n, moves, k - 1) + LeftOf(n, moves, k - 1)
  }

  /** Such a step moves no thread but its own, links nothing and leaves prev_head. */
  lemma FruitlessIs(s: State, c: seq<Node>, ph: seq<Phase>, t: Tid)
    requires Inv(s, c, ph) && Fruitless(s, Go(t))
    ensures var s' := StepThread(s, t, false).s;
      && NewLink(s, Go(t)) == [] && s'.prevHead == s.prevHead && Ahead(c, s.tail, s'.tail)
      && |s'.pcs| == |s.pcs| && forall u :: 0 <= u < |s.pcs| && u != t ==> s'.pcs[u] == s.pcs[u]
  {
    assert PcHolds(s, c, s.pcs[t], ph[t]);
    assert Ahead(c, s.tail, s.tail);
    hide LinkedAt, AllPcsHold, OwnersDiffer, Distinct;
  }

  lemma OtherMove(n: nat, moves: seq<Move>, t: Tid, u: Tid)
    requires Fruitless(Execute(n, moves, false).s, Go(t)) && u != t
    ensures LeftOf(n, moves + [Go(t)], u) <= LeftOf(n, moves, u)
  {
    RunKeeps(n, moves);
    Extended(n, moves, Go(t));
    var r, c := Execute(n, moves, false), Chain(n, moves);
    hide Execute, Chain, Inv, Contents, Fifo, Left, NewLink;
    FruitlessIs(r.s, c, Phases(n, r.events), t);
    assert c + [] == c;
    hide StepThread;
    if u < |r.s.pcs| { OtherStep(r.s, c, Step(r.s, Go(t), false).s, r.s.pcs[u]); }
  }

  lemma {:induction false} TotalDrops(n: nat, moves: seq<Move>, t: Tid, k: nat)
    requires t < n && Fruitless(Execute(n, moves, false).s, Go(t))
    ensures TotalLeft(n, moves + [Go(t)], k) + (if t < k then 1 else 0) <= TotalLeft(n, moves, k)
    decreases k
  {
    hide LeftOf, Execute, Fruitless;
    if k > 0 {
      TotalDrops(n, moves, t, k - 1);
      if k - 1 == t { BusyMove(n, moves, t); } else { OtherMove(n, moves, t, k - 1); }
    }
  }

  lemma BusyMove(n: nat, moves: seq<Move>, t: Tid)
    requires t < n && Fruitless(Execute(n, moves, false).s, Go(t))
    ensures LeftOf(n, moves + [Go(t)], t) < LeftOf(n, moves, t)
  {
    hide LeftOf, Execute;
    OwnMove(n, moves, t);
    IdleIff(n, moves, t);
  }

  /**
    Between two instants at which calls take effect the busy threads take no more steps in all than the
    bound at the first: however they are scheduled, some call takes effect, or all are done.
   */
  lemma {:induction false} SomeCallTakesEffect(n: nat, before: seq<Move>, more: seq<Move>)
    requires AllFruitless(n, before, more)
    ensures |more| + TotalLeft(n, before + more, n) <= TotalLeft(n, before, n)
    decreases |more|
  {
    hide Execute, TotalLeft, Fruitless;
    if more == [] {
      assert before + more == before;
    } else {
      var front, m := more[..|more| - 1], more[|more| - 1];
      SomeCallTakesEffect(n, before, front);
      assert before + more == before + front + [m];
      FruitlessMove(n, before + front, m);
      TotalDrops(n, before + front, m.t, n);
    }
  }

  lemma FruitlessMove(n: nat, moves: seq<Move>, m: Move)
    requires Fruitless(Execute(n, moves, false).s, m)
    ensures m == Go(m.t) && m.t < n
  {
    OutsidersSilent(n, moves, n);
    hide Execute, StepThread;
  }

  /** What that bound is. */
  lemma {:induction false} TotalBound(n: nat, moves: seq<Move>, k: nat)
    requires k <= n
    ensures TotalLeft(n, moves, k) <= k * (2 * |Execute(n, moves, false).s.heap| + 6)
    decreases k
  {
    hide LeftOf, Execute;
    if k > 0 {
      TotalBound(n, moves, k - 1);
      LeftBound(n, moves, k - 1);
      var b := 2 * |Execute(n, moves, false).s.heap| + 6;
      assert k * b == (k - 1) * b + b;
    }
  }
}
