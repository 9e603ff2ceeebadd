/**
  What the calls of kernel/proc/thread.c promise the threads that make them, over whole runs: who waits
  and until when, who runs next, and what becomes of a thread.
 */
module SchedulerCalls {
  import opened Places
  import opened SchedulerRuns

  // ------------------------------------------------------------------ one round of the scheduler's loop

  /**
    Each round switches to the first ready thread: the first of those ready before it, if any, else one that
    the pass has woken; with nobody to run the next round begins.
   */
  lemma RoundDispatches(m: Machine, gotLock: bool)
    requires Shape(m) && m.turn.AtWake?
    ensures var woken, n := Execute(m, [WakePass]).m, Execute(m, [WakePass, CleanPass(gotLock), DispatchPass]).m;
      && m.p.ready <= woken.p.ready
      && (woken.p.ready != [] ==> n.turn.InThread? && n.p.running == [woken.p.ready[0]] && n.p.ready == woken.p.ready[1..])
      && (woken.p.ready == [] ==> n.turn.AtWake? && n.p.running == [])
  {
    StepOnReady(m, WakePass);
    ThreeMoves(m, WakePass, CleanPass(gotLock), DispatchPass);
    hide Execute, Everyone, OnePlaceEach, Awaited, ReversedOnly, Without, Reversed, DestroyAll;
  }

  lemma ThreeMoves(m: Machine, a: Move, b: Move, c: Move)
    ensures Execute(m, [a]).m == Step(m, a).m && Execute(m, [a, b, c]).m == Step(Step(Step(m, a).m, b).m, c).m
  {
    assert [a, b, c][..2] == [a, b] && [a, b][..1] == [a] && [a][..0] == [];
    assert Execute(m, []).m == m;
    assert Execute(m, [a, b]).m == Step(Step(m, a).m, b).m;
    hide Step;
  }

  /** An interrupt wakes those that wait for its condition, and nobody else; a condition cleared again wakes nobody. */
  lemma InterruptWakes(m: Machine, n: nat, t: Tid)
    requires Shape(m) && m.turn.AtWake? && t in m.p.waiting
    ensures var raised := Step(m, Interrupt(n)).m; var cleared := Step(raised, ClearCond(n)).m;
      && (t in Step(raised, WakePass).m.p.ready <==> m.awaits[t] == Other(n) || m.awaits[t] in m.signalled)
      && (t in Step(cleared, WakePass).m.p.ready <==> m.awaits[t] != Other(n) && m.awaits[t] in m.signalled)
  {
    hide Everyone, OnePlaceEach;
    var raised := m.(signalled := m.signalled + {Other(n)});
    var cleared := raised.(signalled := raised.signalled - {Other(n)});
    assert Step(m, Interrupt(n)).m == raised && Step(raised, ClearCond(n)).m == cleared;
    hide Step;
    WakesExactly(raised, t);
    WakesExactly(cleared, t);
  }

  /** A thread preempted, or just created, runs when exactly those have run that were ready before it. */
  lemma RunsBehindTheReady(m: Machine, mv: Move, t: Tid, more: seq<Move>)
    requires m.turn.InThread? && m.p.running != []
    requires || (mv.Preempt? && m.p.running == [t])
      || (mv.CreateThread? && m.p.running[0] !in m.joining && (m.p.pool == [] ==> FreshPage(m, mv.page)) && t == CreatedThread(m, mv.page))
    ensures var d, k := Dispatched(Step(m, mv).m, more), |m.p.ready|;
      |d| > k ==> d[..k] == m.p.ready && d[k] == t
  {
    var n := Step(m, mv).m;
    assert n.p.ready == m.p.ready + [t] by { hide FreshPage; }
    NoStarvation(n, more);
    hide Step, Execute, Dispatched;
    var d := Dispatched(n, more) + Execute(n, more).m.p.ready;
    assert m.p.ready + [t] <= d;
    if |Dispatched(n, more)| > |m.p.ready| {
      assert forall i :: 0 <= i <= |m.p.ready| ==> d[i] == Dispatched(n, more)[i] == (m.p.ready + [t])[i];
    }
  }

  // ------------------------------------------------------------------ waiting for a condition

  predicate WaitsFor(m: Machine, t: Tid, c: Cond) { t in m.p.waiting && t in m.awaits && m.awaits[t] == c }

  /** The call of t that makes it wait for c: for a condition that is not set, or for a thread that has not ended. */
  predicate MustWait(m: Machine, mv: Move, t: Tid, c: Cond) {
    && m.turn.InThread? && m.p.running == [t] && t !in m.joining && c !in m.signalled
    && (|| mv == WaitCondition(c)
        || (mv.JoinThread? && c == Own(mv.u) && t != mv.u && mv.u !in m.detached && mv.u !in m.p.terminated
            && (mv.u == m.cleanup || Known(m, mv.u))))
  }

  /** A wake-up pass that finds c set. */
  predicate PassFinds(m: Machine, mv: Move, c: Cond) { mv.WakePass? && m.turn.AtWake? && c in m.signalled }

  predicate AsksFor(mv: Move, c: Cond) { mv == WaitCondition(c) || (mv.JoinThread? && c == Own(mv.u)) }

  /** Whoever need not wait goes on. */
  lemma WaitsIff(m: Machine, mv: Move, t: Tid, c: Cond)
    requires m.turn.InThread? && m.p.running == [t] && t !in m.joining && AsksFor(mv, c)
    ensures var n := Step(m, mv).m; if MustWait(m, mv, t, c) then WaitsFor(n, t, c) && n.p.running == [] else n.p.running == [t]
  {
    hide FreshPage;
  }

  lemma OthersLeaveWaiter(m: Machine, r: Tid, mv: Move, t: Tid, c: Cond)
    requires Shape(m) && WaitsFor(m, t, c) && m.p.running == [r] && r != t
    ensures WaitsFor(StepThread(m, r, mv).m, t, c)
  {
    hide Everyone, OnePlaceEach, FreshPage, Detach;
    match mv
    case CreateThread(page) =>
    case DetachThread(u) => DetachMembers(m.p, u, t);
    case JoinThread(u) => DetachMembers(m.p, u, t);
    case FinishJoin => if r in m.joining { DetachMembers(m.p, m.joining[r], t); }
    case _ =>
  }

  lemma WaitGoesOn(m: Machine, mv: Move, t: Tid, c: Cond)
    requires Shape(m) && WaitsFor(m, t, c)
    ensures WaitsFor(Step(m, mv).m, t, c) || PassFinds(m, mv, c)
  {
    PlacesExclude(m.p, t);
    hide Everyone, OnePlaceEach, Wake, Clean, Dispatch, DestroyAll, StepThread, Awaited;
    match mv
    case WakePass => if m.turn.AtWake? { WakesExactly(m, t); }
    case CleanPass(_) => CleanMembers(m.p, t);
    case DispatchPass => if m.turn.AtDispatch? { DispatchMembers(m.p, t); }
    case Interrupt(_) =>
    case ClearCond(_) =>
    case _ => if m.turn.InThread? && m.p.running != [] { OthersLeaveWaiter(m, m.p.running[0], mv, t, c); }
  }

  lemma MustAsk(m: Machine, mv: Move, t: Tid, c: Cond)
    requires MustWait(m, mv, t, c)
    ensures m.turn.InThread? && m.p.running == [t] && t !in m.joining && AsksFor(mv, c)
  {
  }

  /** The state of a run after its first j moves. */
  ghost function After(m: Machine, moves: seq<Move>, j: nat): Machine
    requires j <= |moves|
  {
    Execute(m, moves[..j]).m
  }

  lemma AfterNext(m: Machine, moves: seq<Move>, j: nat)
    requires j < |moves|
    ensures After(m, moves, j + 1) == Step(After(m, moves, j), moves[j]).m
  {
    assert moves[..j + 1][..j] == moves[..j];
    hide Step;
  }

  /**
    A thread that has to wait, for a condition or for a thread, is still waiting at every later instant
    unless, in between, a wake-up pass has found what it waits for.
   */
  lemma {:induction false} WaitsUntilSet(cleanup: Tid, pool: seq<Tid>, moves: seq<Move>, i: nat, j: nat, t: Tid, c: Cond)
    requires GoodStart(cleanup, pool) && i < j <= |moves|
    requires MustWait(After(Init(cleanup, pool), moves, i), moves[i], t, c)
    ensures || WaitsFor(After(Init(cleanup, pool), moves, j), t, c)
      || exists k :: i < k < j && PassFinds(After(Init(cleanup, pool), moves, k), moves[k], c)
    decreases j
  {
    hide Step, Init, GoodStart, After, MustWait, AsksFor, WaitsFor, PassFinds, Shape;
    var m := Init(cleanup, pool);
    AfterNext(m, moves, j - 1);
    if j == i + 1 {
      MustAsk(After(m, moves, i), moves[i], t, c);
      WaitsIff(After(m, moves, i), moves[i], t, c);
    } else {
      WaitsUntilSet(cleanup, pool, moves, i, j - 1, t, c);
      ReachedShape(cleanup, pool, moves, j - 1);
      if WaitsFor(After(m, moves, j - 1), t, c) {
        WaitGoesOn(After(m, moves, j - 1), moves[j - 1], t, c);
      }
    }
  }

  lemma ReachedShape(cleanup: Tid, pool: seq<Tid>, moves: seq<Move>, j: nat)
    requires GoodStart(cleanup, pool) && j <= |moves|
    ensures Shape(After(Init(cleanup, pool), moves, j))
  {
    hide Shape, GoodStart, Init;
    EveryRunKeepsPlaces(cleanup, pool, moves[..j], cleanup);
  }

  // ------------------------------------------------------------------ the life of a thread, by the calls made

  function DetachedLife(l: Life): Life {
    if l == Live(false) then Live(true) else if l.Ended? && !l.detached then Ended(l.v, true) else l
  }

  /** What becomes of thread u when r makes a call. */
  ghost function CalledLife(m: Machine, r: Tid, mv: Move, u: Tid, l: Life): Life {
    if r in m.joining then if mv.FinishJoin? && m.joining[r] == u then DetachedLife(l) else l
    else
      match mv
      case CreateThread(page) => if (m.p.pool == [] ==> FreshPage(m, page)) && u == CreatedThread(m, page) then Live(false) else l
      case Terminate(v) => if u == r && l.Live? then Ended(v, l.detached) else l
      case DetachThread(x) => if x == u then DetachedLife(l) else l
      case JoinThread(x) => if x == u && r != u && l.Ended? then DetachedLife(l) else l
      case _ => l
  }

  /** The only other thing that ends a life is a cleanup pass that gets the lock. */
  ghost function MovedLife(m: Machine, mv: Move, u: Tid, l: Life): Life {
    if m.turn.InThread? && m.p.running != [] then CalledLife(m, m.p.running[0], mv, u, l)
    else if mv.CleanPass? && mv.gotLock && m.turn.AtClean? && l.Ended? && l.detached then Unborn
    else l
  }

  ghost function LifeByMoves(m: Machine, moves: seq<Move>, u: Tid): Life {
    if moves == [] then Unborn
    else MovedLife(Execute(m, moves[..|moves| - 1]).m, moves[|moves| - 1], u, LifeByMoves(m, moves[..|moves| - 1], u))
  }

  lemma DetachMovesLife(m: Machine, x: Tid, u: Tid, l: Life)
    requires Agrees(m, u, l) && Shape(m)
    ensures LifeOf(l, u, DoDetach(m, x).events, false) == if x == u then DetachedLife(l) else l
  {
    hide Everyone, OnePlaceEach, Detach, LifeOf;
    PlacesExclude(m.p, u);
    NoEvents(l, u, false);
    OneEvent(l, u, Detached(x), false);
  }

  lemma ResultMovesLife(m: Machine, r: Tid, x: Tid, u: Tid, l: Life)
    requires Agrees(m, u, l) && Shape(m)
    ensures LifeOf(l, u, TakeResult(m, r, x).events, false) == if x == u then DetachedLife(l) else l
  {
    var v := if x in m.ret then m.ret[x] else 0;
    var m1 := m.(joining := m.joining - {r});
    LifeConcat(l, u, [Joined(r, x, v)], DoDetach(m1, x).events, false);
    OneEvent(l, u, Joined(r, x, v), false);
    hide Everyone, OnePlaceEach, LifeOf, DoDetach;
    DetachMovesLife(m1, x, u, l);
  }

  lemma JoinMovesLife(m: Machine, r: Tid, x: Tid, u: Tid, l: Life)
    requires Shape(m) && Agrees(m, u, l) && m.p.running == [r]
    ensures LifeOf(l, u, StartJoin(m, r, x).events, false) == if x == u && r != u && l.Ended? then DetachedLife(l) else l
  {
    hide Everyone, OnePlaceEach, TakeResult, LifeOf, Return;
    PlacesExclude(m.p, u);
    NoEvents(l, u, false);
    ResultMovesLife(m, r, x, u, l);
  }

  lemma CallMovesLife(m: Machine, r: Tid, mv: Move, u: Tid, l: Life)
    requires Shape(m) && Agrees(m, u, l) && m.p.running == [r]
    ensures LifeOf(l, u, StepThread(m, r, mv).events, false) == CalledLife(m, r, mv, u, l)
  {
    hide Everyone, OnePlaceEach, TakeResult, StartJoin, DoDetach, LifeOf, Return, FreshPage, Create;
    NoEvents(l, u, false);
    match mv
    case FinishJoin => if r in m.joining { ResultMovesLife(m, r, m.joining[r], u, l); }
    case CreateThread(page) =>
      if r !in m.joining && (m.p.pool == [] ==> FreshPage(m, page)) {
        PageHasThreads(m, page);
        CreatedIsNew(m, page, CreatedThread(m, page));
        OneEvent(l, u, Created(CreatedThread(m, page)), false);
      }
    case Terminate(v) => OneEvent(l, u, Exited(r, v), false);
    case DetachThread(x) => DetachMovesLife(m, x, u, l);
    case JoinThread(x) => JoinMovesLife(m, r, x, u, l);
    case _ =>
  }

  lemma StepMovesLife(m: Machine, mv: Move, u: Tid, l: Life)
    requires Shape(m) && Agrees(m, u, l)
    ensures LifeOf(l, u, Step(m, mv).events, false) == MovedLife(m, mv, u, l)
  {
    hide Everyone, OnePlaceEach, Wake, Clean, Dispatch, DestroyAll, StepThread, LifeOf, Awaited, FreshPage, CreatedThread;
    PlacesExclude(m.p, u);
    DeletedOnce(m.p, u);
    NoEvents(l, u, false);
    match mv
    case CleanPass(gotLock) => if m.turn.AtClean? { DestroyedOnce(l, u, m.p.deleted, false); }
    case _ => if m.turn.InThread? && m.p.running != [] { CallMovesLife(m, m.p.running[0], mv, u, l); }
  }

  /** Over any run, what has become of a thread is what the calls made of it. */
  lemma {:induction false} LivesAreTheCalls(cleanup: Tid, pool: seq<Tid>, moves: seq<Move>, u: Tid)
    requires GoodStart(cleanup, pool)
    ensures LifeOf(Unborn, u, Execute(Init(cleanup, pool), moves).events, false) == LifeByMoves(Init(cleanup, pool), moves, u)
    decreases |moves|
  {
    hide Shape, Agrees, Step, LifeOf, GoodStart, Init, MovedLife;
    if moves == [] {
      NoEvents(Unborn, u, false);
    } else {
      var before, mv := moves[..|moves| - 1], moves[|moves| - 1];
      LivesAreTheCalls(cleanup, pool, before, u);
      EveryRunKeepsPlaces(cleanup, pool, before, u);
      var b := Execute(Init(cleanup, pool), before);
      StepMovesLife(b.m, mv, u, LifeOf(Unborn, u, b.events, false));
      LifeConcat(Unborn, u, b.events, Step(b.m, mv).events, false);
    }
  }

  // ------------------------------------------------------------------ joining

  /** Asking for the right results changes no life that does not go wrong. */
  lemma {:induction false} SameLife(l: Life, u: Tid, events: seq<Event>)
    requires !l.Wrong?
    ensures var strict := LifeOf(l, u, events, true); !strict.Wrong? ==> strict == LifeOf(l, u, events, false)
    decreases |events|
  {
    if events != [] {
      SameLife(l, u, events[..|events| - 1]);
    }
  }

  /** A thread that waits in a join is woken by the next pass exactly when the thread it joins has terminated. */
  lemma JoinerWakesIff(cleanup: Tid, pool: seq<Tid>, moves: seq<Move>, t: Tid)
    requires GoodStart(cleanup, pool) && Polite(Init(cleanup, pool), moves)
    requires var m := Execute(Init(cleanup, pool), moves).m; m.turn.AtWake? && t in m.p.waiting && t in m.joining
    ensures var m := Execute(Init(cleanup, pool), moves).m;
      t in Step(m, WakePass).m.p.ready <==> LifeByMoves(Init(cleanup, pool), moves, m.joining[t]).Ended?
  {
    var o := Execute(Init(cleanup, pool), moves);
    PoliteRunsKeep(cleanup, pool, moves);
    JoinedLife(cleanup, pool, moves, o.m.joining[t]);
    hide Everyone, OnePlaceEach, Execute, LifeOf, GoodStart, Init, Polite, Step, LifeByMoves;
    WakesExactly(o.m, t);
    assert JoinStands(o.m, t, o.m.joining[t]);
    EndedIff(o.m, t, o.m.joining[t], LifeOf(Unborn, o.m.joining[t], o.events, true));
  }

  lemma EndedIff(m: Machine, t: Tid, u: Tid, l: Life)
    requires Shape(m) && JoinStands(m, t, u) && Agrees(m, u, l)
    ensures Own(u) in m.signalled <==> l.Ended?
  {
    PlacesExclude(m.p, u);
    NotKnownCleanup(m);
    hide Everyone, OnePlaceEach;
  }

  lemma NotKnownCleanup(m: Machine)
    requires Shape(m)
    ensures !Known(m, m.cleanup)
  {
  }

  lemma JoinedLife(cleanup: Tid, pool: seq<Tid>, moves: seq<Move>, u: Tid)
    requires GoodStart(cleanup, pool) && Polite(Init(cleanup, pool), moves)
    ensures LifeOf(Unborn, u, Execute(Init(cleanup, pool), moves).events, true) == LifeByMoves(Init(cleanup, pool), moves, u)
  {
    hide Execute, LifeOf, GoodStart, Init, Polite, LifeByMoves;
    JoinersGetTheResult(cleanup, pool, moves, u);
    SameLife(Unborn, u, Execute(Init(cleanup, pool), moves).events);
    LivesAreTheCalls(cleanup, pool, moves, u);
  }

  /** Then it runs when those before it have. */
  lemma EndedJoinerRuns(cleanup: Tid, pool: seq<Tid>, moves: seq<Move>, t: Tid, more: seq<Move>)
    requires GoodStart(cleanup, pool) && Polite(Init(cleanup, pool), moves)
    requires var m := Execute(Init(cleanup, pool), moves).m;
      && m.turn.AtWake? && t in m.p.waiting && t in m.joining
      && LifeByMoves(Init(cleanup, pool), moves, m.joining[t]).Ended?
    ensures var n := Step(Execute(Init(cleanup, pool), moves).m, WakePass).m;
      exists k :: 0 <= k < |n.p.ready| && n.p.ready[k] == t && RunsAt(n, more, t, k)
  {
    JoinerWakesIff(cleanup, pool, moves, t);
    hide Execute, LifeOf, GoodStart, Init, Polite, LifeByMoves, Step, Dispatched;
    var n := Step(Execute(Init(cleanup, pool), moves).m, WakePass).m;
    var k :| 0 <= k < |n.p.ready| && n.p.ready[k] == t;
    RunsAfterThoseBefore(n, more, k);
  }

  /** With k others before it, t is the one run after k others; until then it is ready. */
  ghost predicate RunsAt(m: Machine, more: seq<Move>, t: Tid, k: nat) {
    var d := Dispatched(m, more);
    if k < |d| then d[k] == t else t in Execute(m, more).m.p.ready
  }

  /**
    A joiner that runs again gets the value that the thread it joined has passed to terminate, and the
    thread goes to the delete list.
   */
  lemma JoinFinishes(cleanup: Tid, pool: seq<Tid>, moves: seq<Move>, t: Tid)
    requires GoodStart(cleanup, pool) && Polite(Init(cleanup, pool), moves)
    requires var m := Execute(Init(cleanup, pool), moves).m; m.p.running == [t] && t in m.joining
    ensures var m := Execute(Init(cleanup, pool), moves).m; var u := m.joining[t];
      var l, o := LifeByMoves(Init(cleanup, pool), moves, u), Step(m, FinishJoin);
      && l.Ended? && o.events == [Joined(t, u, l.v), Detached(u)]
      && t !in o.m.joining && t in o.m.p.running && u in o.m.p.deleted
  {
    var o := Execute(Init(cleanup, pool), moves);
    PoliteRunsKeep(cleanup, pool, moves);
    var u := o.m.joining[t];
    JoinedLife(cleanup, pool, moves, u);
    hide Everyone, OnePlaceEach, Execute, LifeOf, GoodStart, Init, Polite, LifeByMoves, Shape, Step;
    FinishGives(o.m, t, LifeOf(Unborn, u, o.events, true));
  }

  lemma FinishGives(m: Machine, t: Tid, l: Life)
    requires Shape(m) && m.p.running == [t] && t in m.joining
    requires JoinStands(m, t, m.joining[t]) && Agrees(m, m.joining[t], l)
    ensures var u, o := m.joining[t], Step(m, FinishJoin);
      && l.Ended? && o.events == [Joined(t, u, l.v), Detached(u)]
      && t !in o.m.joining && t in o.m.p.running && u in o.m.p.deleted
  {
    var u := m.joining[t];
    hide Everyone, OnePlaceEach, Detach;
    PlacesExclude(m.p, t);
    EndedIff(m, t, u, l);
    SignalledHasEnded(m, u, l);
    DetachMembers(m.p, u, u);
  }
}
