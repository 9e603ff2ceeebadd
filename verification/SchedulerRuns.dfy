/**
  Whole runs of the scheduler: the endless loop of wake-up, cleanup and dispatch of
  kernel/proc/proc.c, and whatever the threads it switches to do with the calls of
  kernel/proc/thread.c.  Each lock-protected section, and each call up to its yield, is one step.
 */
module SchedulerRuns {
  import opened Places

  type Tid = int

  /** Condition variables: one inside each thread, signalled when it terminates, and any others. */
  datatype Cond = Own(t: Tid) | Other(n: nat)

  datatype Turn = AtWake | AtClean | AtDispatch | InThread

  datatype Machine = Machine(
    p: Places<Tid>, turn: Turn, cleanup: Tid,
    detached: set<Tid>,         // threads with the detached flag
    signalled: set<Cond>,       // conditions that are set
    awaits: map<Tid, Cond>,     // what a waiting thread waits for
    ret: map<Tid, nat>,         // what a thread left for its joiner
    joining: map<Tid, Tid>)     // who is inside a join, and for whom

  datatype Move =
    | WakePass
    | CleanPass(gotLock: bool)
    | DispatchPass
    | Interrupt(n: nat)
    | ClearCond(n: nat)
    | Preempt
    | CreateThread(page: seq<Tid>)
    | DetachThread(u: Tid)
    | WaitCondition(c: Cond)
    | JoinThread(u: Tid)
    | FinishJoin
    | Terminate(v: nat)

  datatype Event =
    | Created(u: Tid)
    | Exited(u: Tid, v: nat)
    | Detached(u: Tid)
    | Destroyed(u: Tid)
    | Joined(joiner: Tid, u: Tid, v: nat)

  datatype Outcome = Outcome(m: Machine, events: seq<Event>)

  /** (4096 - 8) / 144 threads fit in a page. */
  const THREADS_PER_PAGE: nat := 28

  /** The state k_proc_Init leaves: nothing but the cleanup thread, which it took from the first page. */
  function Init(cleanup: Tid, pool: seq<Tid>): Machine {
    Machine(Places([], [], [], pool, [], []), AtWake, cleanup, {}, {}, map[], map[], map[])
  }

  // ------------------------------------------------------------------ the steps

  function Awaited(m: Machine): set<Tid> {
    set t | t in m.p.waiting && t in m.awaits && m.awaits[t] in m.signalled
  }

  /** A page of thread slots nobody has. */
  ghost predicate FreshPage(m: Machine, page: seq<Tid>) {
    && |page| == THREADS_PER_PAGE
    && (forall t :: multiset(page)[t] <= 1)
    && (forall t :: t in page ==> t !in Everyone(m.p) && t != m.cleanup)
  }

  predicate Known(m: Machine, u: Tid) {
    u in m.p.ready || u in m.p.waiting || u in m.p.running || u in m.p.terminated || u in m.p.deleted
  }

  function DestroyAll(s: seq<Tid>): seq<Event> {
    if s == [] then [] else [Destroyed(s[0])] + DestroyAll(s[1..])
  }

  function DoDetach(m: Machine, u: Tid): Outcome {
    if u in m.detached then Outcome(m, [])
    else Outcome(m.(detached := m.detached + {u}, p := Detach(m.p, u)), if Known(m, u) then [Detached(u)] else [])
  }

  function TakeResult(m: Machine, t: Tid, u: Tid): Outcome {
    var v := if u in m.ret then m.ret[u] else 0;
    var o := DoDetach(m.(joining := m.joining - {t}), u);
    Outcome(o.m, [Joined(t, u, v)] + o.events)
  }

  function StartJoin(m: Machine, t: Tid, u: Tid): Outcome {
    if !(Known(m, u) || u == m.cleanup) || t == u || u in m.detached then Outcome(m, [])
    else if u in m.p.terminated || Own(u) in m.signalled then TakeResult(m, t, u)
    else
      Outcome(m.(p := Return(m.p, Waits), turn := AtWake, awaits := m.awaits[t := Own(u)], joining := m.joining[t := u]), [])
  }

  /** What the running thread does; inside a join it can only be preempted or finish. */
  ghost function StepThread(m: Machine, t: Tid, mv: Move): Outcome {
    match mv
    case Preempt => Outcome(m.(p := Return(m.p, StillRunning), turn := AtWake), [])
    case FinishJoin => if t in m.joining then TakeResult(m, t, m.joining[t]) else Outcome(m, [])
    case _ => if t in m.joining then Outcome(m, []) else StartCall(m, t, mv)
  }

  /** The running thread makes a call. */
  ghost function StartCall(m: Machine, t: Tid, mv: Move): Outcome {
    match mv
    case CreateThread(page) => DoCreate(m, page)
    case DetachThread(u) => DoDetach(m, u)
    case WaitCondition(c) =>
      if c in m.signalled then Outcome(m, [])
      else Outcome(m.(p := Return(m.p, Waits), turn := AtWake, awaits := m.awaits[t := c]), [])
    case JoinThread(u) => StartJoin(m, t, u)
    case Terminate(v) => DoTerminate(m, t, v)
    case _ => Outcome(m, [])
  }

  function CreatedThread(m: Machine, page: seq<Tid>): Tid
    requires m.p.pool == [] ==> page != []
  {
    if m.p.pool == [] then page[0] else m.p.pool[0]
  }

  ghost function DoCreate(m: Machine, page: seq<Tid>): Outcome {
    if m.p.pool == [] && !FreshPage(m, page) then Outcome(m, [])
    else
      var u := CreatedThread(m, page);
      Outcome(m.(p := Create(m.p, page), detached := m.detached - {u}, signalled := m.signalled - {Own(u)}), [Created(u)])
  }

  function DoTerminate(m: Machine, t: Tid, v: nat): Outcome {
    var m' := m.(signalled := m.signalled + {Own(t)}, turn := AtWake);
    if t in m.detached then Outcome(m'.(p := Return(m.p, EndsDetached)), [Exited(t, v)])
    else Outcome(m'.(p := Return(m.p, EndsUndetached), ret := m.ret[t := v]), [Exited(t, v)])
  }

  /** A move that is not possible where the machine stands changes nothing. */
  ghost function Step(m: Machine, mv: Move): Outcome {
    match mv
    case WakePass =>
      if m.turn.AtWake? then Outcome(m.(p := Wake(m.p, Awaited(m)), turn := AtClean), []) else Outcome(m, [])
    case CleanPass(gotLock) =>
      if !m.turn.AtClean? then Outcome(m, [])
      else if gotLock then Outcome(m.(p := Clean(m.p), turn := AtDispatch), DestroyAll(m.p.deleted))
      else Outcome(m.(turn := AtDispatch), [])
    case DispatchPass =>
      if !m.turn.AtDispatch? then Outcome(m, [])
      else Outcome(m.(p := Dispatch(m.p), turn := if m.p.ready == [] then AtWake else InThread), [])
    case Interrupt(n) => Outcome(m.(signalled := m.signalled + {Other(n)}), [])
    case ClearCond(n) => Outcome(m.(signalled := m.signalled - {Other(n)}), [])
    case _ => if m.turn.InThread? && m.p.running != [] then StepThread(m, m.p.running[0], mv) else Outcome(m, [])
  }

  ghost function Execute(m: Machine, moves: seq<Move>): Outcome {
    if moves == [] then Outcome(m, [])
    else
      var before := Execute(m, moves[..|moves| - 1]);
      var o := Step(before.m, moves[|moves| - 1]);
      Outcome(o.m, before.events + o.events)
  }

  // ------------------------------------------------------------------ the life of a thread

  /** One creation's life; Wrong when an event is out of order. */
  datatype Life = Unborn | Live(detached: bool) | Ended(v: nat, detached: bool) | Wrong

  function LifeStep(l: Life, u: Tid, ev: Event, withJoins: bool): Life {
    if ev.u != u then l else
    match ev
    case Created(_) => if l.Unborn? then Live(false) else Wrong
    case Exited(_, v) => if l.Live? then Ended(v, l.detached) else Wrong
    case Detached(_) =>
      if l == Live(false) then Live(true) else if l.Ended? && !l.detached then Ended(l.v, true) else Wrong
    case Destroyed(_) => if l.Ended? && l.detached then Unborn else Wrong
    case Joined(_, _, v) => if !withJoins || l == Ended(v, false) then l else Wrong
  }

  function LifeOf(l: Life, u: Tid, events: seq<Event>, withJoins: bool): Life {
    if events == [] then l
    else LifeStep(LifeOf(l, u, events[..|events| - 1], withJoins), u, events[|events| - 1], withJoins)
  }

  // ------------------------------------------------------------------ every run keeps every thread in one place

  ghost predicate Shape(m: Machine) {
    && OnePlaceEach(m.p)
    && m.cleanup !in Everyone(m.p)
    && |m.p.running| <= 1
    && (m.p.running != [] <==> m.turn.InThread?)
    && (forall t :: t in m.p.waiting ==> t in m.awaits)
    && Own(m.cleanup) !in m.signalled
  }

  /** The place a thread is in agrees with its life so far. */
  ghost predicate Agrees(m: Machine, u: Tid, l: Life) {
    && (u in m.p.ready || u in m.p.waiting || u in m.p.running ==> l == Live(u in m.detached) && Own(u) !in m.signalled)
    && (u in m.p.terminated ==> u !in m.detached && Own(u) in m.signalled && u in m.ret && l == Ended(m.ret[u], false))
    && (u in m.p.deleted ==> u in m.detached && Own(u) in m.signalled && l.Ended? && l.detached)
    && (!Known(m, u) ==> l == Unborn)
  }

  /** A thread is in at most one of the lists. */
  lemma PlacesExclude(p: Places<Tid>, u: Tid)
    requires OnePlaceEach(p)
    ensures u in p.ready ==> u !in p.waiting && u !in p.deleted && u !in p.pool && u !in p.terminated && u !in p.running
    ensures u in p.waiting ==> u !in p.deleted && u !in p.pool && u !in p.terminated && u !in p.running
    ensures u in p.deleted ==> u !in p.pool && u !in p.terminated && u !in p.running
    ensures u in p.pool ==> u !in p.terminated && u !in p.running
    ensures u in p.terminated ==> u !in p.running
  {
    assert Everyone(p)[u] == multiset(p.ready)[u] + multiset(p.waiting)[u] + multiset(p.deleted)[u]
                           + multiset(p.pool)[u] + multiset(p.terminated)[u] + multiset(p.running)[u];
  }

  lemma LifeExtends(l: Life, u: Tid, events: seq<Event>, ev: Event, withJoins: bool)
    ensures LifeOf(l, u, events + [ev], withJoins) == LifeStep(LifeOf(l, u, events, withJoins), u, ev, withJoins)
  {
    assert (events + [ev])[..|events|] == events;
  }

  lemma {:induction false} LifeConcat(l: Life, u: Tid, a: seq<Event>, b: seq<Event>, withJoins: bool)
    ensures LifeOf(l, u, a + b, withJoins) == LifeOf(LifeOf(l, u, a, withJoins), u, b, withJoins)
    decreases |b|
  {
    if b == [] {
      assert a + b == a;
    } else {
      LifeConcat(l, u, a, b[..|b| - 1], withJoins);
      assert a + b == (a + b[..|b| - 1]) + [b[|b| - 1]];
      LifeExtends(l, u, a + b[..|b| - 1], b[|b| - 1], withJoins);
    }
  }

  /** A step's result keeps the shape, and keeps agreeing with the life of u. */
  ghost predicate KeepsLife(o: Outcome, u: Tid, l: Life, withJoins: bool) {
    Shape(o.m) && Agrees(o.m, u, LifeOf(l, u, o.events, withJoins))
  }

  lemma NoEvents(l: Life, u: Tid, withJoins: bool)
    ensures LifeOf(l, u, [], withJoins) == l
  {
  }

  lemma OneEvent(l: Life, u: Tid, ev: Event, withJoins: bool)
    ensures LifeOf(l, u, [ev], withJoins) == LifeStep(l, u, ev, withJoins)
  {
    assert [ev][..0] == [];
  }

  /** Conserving the threads keeps them apart. */
  lemma StillApart(p: Places<Tid>, q: Places<Tid>)
    requires OnePlaceEach(p) && Everyone(q) == Everyone(p)
    ensures OnePlaceEach(q)
  {
    hide Everyone;
    forall t ensures Everyone(q)[t] <= 1 {
      assert Everyone(p)[t] <= 1;
    }
  }

  lemma WakeMembers(p: Places<Tid>, on: set<Tid>, u: Tid)
    ensures var q := Wake(p, on);
      && (u in q.ready <==> u in p.ready || (u in p.waiting && u in on))
      && (u in q.waiting <==> u in p.waiting && u !in on)
      && q.deleted == p.deleted && q.pool == p.pool && q.terminated == p.terminated && q.running == p.running
  {
    WakeIsExact(p.waiting, on, u);
  }

  /** The pass wakes exactly the waiters whose condition is set; every other still waits, and the rest stay as they are. */
  lemma WakesExactly(m: Machine, t: Tid)
    requires Shape(m) && m.turn.AtWake?
    ensures var q := Step(m, WakePass).m.p;
      if t in m.p.waiting then
        && (t in q.ready <==> t in m.awaits && m.awaits[t] in m.signalled)
        && (t in q.waiting <==> !(t in m.awaits && m.awaits[t] in m.signalled))
      else (t in q.ready <==> t in m.p.ready) && t !in q.waiting
  {
    hide Everyone, OnePlaceEach, Wake;
    WakeMembers(m.p, Awaited(m), t);
    PlacesExclude(m.p, t);
  }

  lemma WakeKeeps(m: Machine, u: Tid, l: Life, j: bool)
    requires Shape(m) && Agrees(m, u, l) && m.turn.AtWake?
    ensures KeepsLife(Step(m, WakePass), u, l, j)
  {
    hide Everyone, OnePlaceEach, Wake, Awaited, LifeOf;
    var on := Awaited(m);
    WakeConserves(m.p, on);
    StillApart(m.p, Wake(m.p, on));
    forall t ensures t in Wake(m.p, on).waiting ==> t in m.p.waiting {
      WakeMembers(m.p, on, t);
    }
    WakeMembers(m.p, on, u);
    NoEvents(l, u, j);
  }

  lemma {:induction false} DestroyedOnce(l: Life, u: Tid, s: seq<Tid>, j: bool)
    requires multiset(s)[u] <= 1 && (u in s ==> l.Ended? && l.detached)
    ensures LifeOf(l, u, DestroyAll(s), j) == if u in s then Unborn else l
    decreases |s|
  {
    if s != [] {
      HeadAndTail(s);
      LifeConcat(l, u, [Destroyed(s[0])], DestroyAll(s[1..]), j);
      OneEvent(l, u, Destroyed(s[0]), j);
      assert s == [s[0]] + s[1..];
      DestroyedOnce(LifeOf(l, u, [Destroyed(s[0])], j), u, s[1..], j);
    }
  }

  lemma CleanMembers(p: Places<Tid>, u: Tid)
    ensures var q := Clean(p);
      && (u in q.pool <==> u in p.pool || u in p.deleted)
      && q.deleted == []
      && q.ready == p.ready && q.waiting == p.waiting && q.terminated == p.terminated && q.running == p.running
  {
    ReversedSame(p.deleted);
    assert u in multiset(Reversed(p.deleted)) <==> u in multiset(p.deleted);
  }

  lemma CleanKeeps(m: Machine, gotLock: bool, u: Tid, l: Life, j: bool)
    requires Shape(m) && Agrees(m, u, l) && m.turn.AtClean?
    ensures KeepsLife(Step(m, CleanPass(gotLock)), u, l, j)
  {
    hide Everyone, OnePlaceEach, Clean, LifeOf, DestroyAll;
    PlacesExclude(m.p, u);
    CleanConserves(m.p);
    StillApart(m.p, Clean(m.p));
    CleanMembers(m.p, u);
    DeletedOnce(m.p, u);
    DestroyedOnce(l, u, m.p.deleted, j);
    NoEvents(l, u, j);
  }

  lemma DeletedOnce(p: Places<Tid>, u: Tid)
    requires OnePlaceEach(p)
    ensures multiset(p.deleted)[u] <= 1
  {
    assert Everyone(p)[u] <= 1;
  }

  lemma DispatchMembers(p: Places<Tid>, u: Tid)
    requires p.running == []
    ensures var q := Dispatch(p);
      && (p.ready == [] ==> q == p)
      && (p.ready != [] ==> q.running == [p.ready[0]] && (u in p.ready <==> u in q.ready || u in q.running))
      && q.waiting == p.waiting && q.deleted == p.deleted && q.pool == p.pool && q.terminated == p.terminated
  {
    if p.ready != [] {
      assert p.ready == [p.ready[0]] + p.ready[1..];
    }
  }

  lemma DispatchKeeps(m: Machine, u: Tid, l: Life, j: bool)
    requires Shape(m) && Agrees(m, u, l) && m.turn.AtDispatch?
    ensures KeepsLife(Step(m, DispatchPass), u, l, j)
  {
    hide Everyone, OnePlaceEach, Dispatch, LifeOf;
    DispatchConserves(m.p);
    StillApart(m.p, Dispatch(m.p));
    DispatchMembers(m.p, u);
    NoEvents(l, u, j);
  }

  lemma ReturnMembers(p: Places<Tid>, how: Comeback, u: Tid)
    ensures var q := Return(p, how);
      && (u in q.ready <==> u in p.ready || (how.StillRunning? && u in p.running))
      && (u in q.waiting <==> u in p.waiting || (how.Waits? && u in p.running))
      && (u in q.deleted <==> u in p.deleted || (how.EndsDetached? && u in p.running))
      && (u in q.terminated <==> u in p.terminated || (how.EndsUndetached? && u in p.running))
      && q.running == [] && q.pool == p.pool
  {
  }

  /** The running thread goes back to the scheduler, alive. */
  lemma ReturnKeeps(m: Machine, how: Comeback, awaits: map<Tid, Cond>, joining: map<Tid, Tid>, u: Tid, l: Life)
    requires Shape(m) && Agrees(m, u, l) && (how.StillRunning? || how.Waits?)
    requires forall t :: t in m.p.waiting ==> t in awaits
    requires how.Waits? ==> forall t :: t in m.p.running ==> t in awaits
    ensures var m' := m.(p := Return(m.p, how), turn := AtWake, awaits := awaits, joining := joining);
      Shape(m') && Agrees(m', u, l)
  {
    hide Everyone, OnePlaceEach, Return;
    ReturnConserves(m.p, how);
    StillApart(m.p, Return(m.p, how));
    ReturnMembers(m.p, how, u);
    forall t ensures t in Return(m.p, how).waiting ==> t in awaits {
      ReturnMembers(m.p, how, t);
    }
  }

  lemma TerminateKeeps(m: Machine, t: Tid, v: nat, u: Tid, l: Life, j: bool)
    requires Shape(m) && Agrees(m, u, l) && m.p.running == [t]
    ensures KeepsLife(DoTerminate(m, t, v), u, l, j)
  {
    hide Everyone, OnePlaceEach, Return, LifeOf;
    var how := if t in m.detached then EndsDetached else EndsUndetached;
    ReturnConserves(m.p, how);
    StillApart(m.p, Return(m.p, how));
    RunningIsNotCleanup(m.p, t, m.cleanup);
    PlacesExclude(m.p, u);
    ReturnMembers(m.p, how, u);
    forall w ensures w in Return(m.p, how).waiting ==> w in m.p.waiting {
      ReturnMembers(m.p, how, w);
    }
    OneEvent(l, u, Exited(t, v), j);
  }

  lemma RunningIsNotCleanup(p: Places<Tid>, t: Tid, cleanup: Tid)
    requires t in p.running && cleanup !in Everyone(p)
    ensures t != cleanup
  {
    assert t in Everyone(p);
  }

  lemma CreateMembers(p: Places<Tid>, page: seq<Tid>, u: Tid)
    requires p.pool == [] ==> page != []
    ensures var q := Create(p, page); var pool := if p.pool == [] then page else p.pool;
      && (u in q.ready <==> u in p.ready || u == pool[0])
      && q.waiting == p.waiting && q.deleted == p.deleted && q.terminated == p.terminated && q.running == p.running
  {
  }

  /** The thread created was in no list but the pool. */
  lemma CreatedIsNew(m: Machine, page: seq<Tid>, t: Tid)
    requires OnePlaceEach(m.p) && (m.p.pool == [] ==> FreshPage(m, page))
    requires t == CreatedThread(m, page)
    ensures !Known(m, t)
  {
    PlacesExclude(m.p, t);
    if m.p.pool == [] {
      assert t in page && t !in Everyone(m.p);
    } else {
      assert t in m.p.pool;
    }
  }

  lemma CreateShape(m: Machine, page: seq<Tid>)
    requires OnePlaceEach(m.p) && m.cleanup !in Everyone(m.p) && (m.p.pool == [] ==> FreshPage(m, page))
    ensures OnePlaceEach(Create(m.p, page)) && m.cleanup !in Everyone(Create(m.p, page))
  {
    CreateConserves(m.p, page);
    hide Everyone, Create;
    forall t ensures Everyone(Create(m.p, page))[t] <= 1 {
      assert m.p.pool == [] && t in page ==> t !in Everyone(m.p);
    }
  }

  lemma PageHasThreads(m: Machine, page: seq<Tid>)
    requires m.p.pool == [] ==> FreshPage(m, page)
    ensures m.p.pool == [] ==> page != []
  {
  }

  lemma CreateKeeps(m: Machine, page: seq<Tid>, u: Tid, l: Life, j: bool)
    requires Shape(m) && Agrees(m, u, l)
    ensures KeepsLife(DoCreate(m, page), u, l, j)
  {
    hide Everyone, OnePlaceEach, Create, FreshPage, LifeOf;
    NoEvents(l, u, j);
    if m.p.pool != [] || FreshPage(m, page) {
      PageHasThreads(m, page);
      var t := CreatedThread(m, page);
      CreateShape(m, page);
      CreatedIsNew(m, page, t);
      CreateMembers(m.p, page, u);
      OneEvent(l, u, Created(t), j);
    }
  }

  lemma DetachMembers(p: Places<Tid>, u0: Tid, u: Tid)
    requires OnePlaceEach(p)
    ensures var q := Detach(p, u0);
      && (u in q.terminated <==> u in p.terminated && u != u0)
      && (u in q.deleted <==> u in p.deleted || (u == u0 && u in p.terminated))
      && q.ready == p.ready && q.waiting == p.waiting && q.pool == p.pool && q.running == p.running
  {
    if u0 in p.terminated {
      RemoveFirstLess(p.terminated, u0);
      var r := RemoveFirst(p.terminated, u0);
      assert Everyone(p)[u0] <= 1;
      assert multiset(r)[u] + multiset{u0}[u] == multiset(p.terminated)[u];
      assert u in r <==> multiset(r)[u] > 0;
    }
  }

  lemma DetachKeeps(m: Machine, u0: Tid, u: Tid, l: Life, j: bool)
    requires Shape(m) && Agrees(m, u, l)
    ensures KeepsLife(DoDetach(m, u0), u, l, j)
  {
    hide Everyone, OnePlaceEach, Detach, LifeOf;
    NoEvents(l, u, j);
    DetachConserves(m.p, u0);
    StillApart(m.p, Detach(m.p, u0));
    DetachMembers(m.p, u0, u);
    PlacesExclude(m.p, u);
    OneEvent(l, u, Detached(u0), j);
  }

  lemma TakeResultKeeps(m: Machine, t: Tid, u0: Tid, u: Tid, l: Life, j: bool)
    requires Shape(m) && Agrees(m, u, l) && (j ==> u0 in m.p.terminated)
    ensures KeepsLife(TakeResult(m, t, u0), u, l, j)
  {
    var v := if u0 in m.ret then m.ret[u0] else 0;
    var m1 := m.(joining := m.joining - {t});
    LifeConcat(l, u, [Joined(t, u0, v)], DoDetach(m1, u0).events, j);
    OneEvent(l, u, Joined(t, u0, v), j);
    PlacesExclude(m.p, u);
    hide Everyone, LifeOf, DoDetach;
    assert LifeStep(l, u, Joined(t, u0, v), j) == l;
    DetachKeeps(m1, u0, u, l, j);
  }

  /** Wherever a join takes a result, the thread joined has ended and nobody has detached it. */
  predicate JoinsEnded(m: Machine, mv: Move) {
    && (mv.FinishJoin? && m.p.running != [] && m.p.running[0] in m.joining ==> m.joining[m.p.running[0]] in m.p.terminated)
    && (mv.JoinThread? && (Known(m, mv.u) || mv.u == m.cleanup) && mv.u !in m.detached && Own(mv.u) in m.signalled ==>
        mv.u in m.p.terminated)
  }

  lemma StartJoinKeeps(m: Machine, t: Tid, u0: Tid, u: Tid, l: Life, j: bool)
    requires Shape(m) && Agrees(m, u, l) && m.p.running == [t] && (j ==> JoinsEnded(m, JoinThread(u0)))
    ensures KeepsLife(StartJoin(m, t, u0), u, l, j)
  {
    hide Everyone, OnePlaceEach, Return, TakeResult, LifeOf;
    NoEvents(l, u, j);
    if !(Known(m, u0) || u0 == m.cleanup) || t == u0 || u0 in m.detached {
    } else if u0 in m.p.terminated || Own(u0) in m.signalled {
      TakeResultKeeps(m, t, u0, u, l, j);
    } else {
      ReturnKeeps(m, Waits, m.awaits[t := Own(u0)], m.joining[t := u0], u, l);
    }
  }

  lemma CallKeeps(m: Machine, t: Tid, mv: Move, u: Tid, l: Life, j: bool)
    requires Shape(m) && Agrees(m, u, l) && m.p.running == [t] && (j ==> JoinsEnded(m, mv))
    ensures KeepsLife(StartCall(m, t, mv), u, l, j)
  {
    hide Everyone, OnePlaceEach, Return, DoCreate, DoDetach, StartJoin, DoTerminate, JoinsEnded, LifeOf;
    NoEvents(l, u, j);
    match mv
    case CreateThread(page) => CreateKeeps(m, page, u, l, j);
    case DetachThread(u0) => DetachKeeps(m, u0, u, l, j);
    case WaitCondition(c) => ReturnKeeps(m, Waits, m.awaits[t := c], m.joining, u, l);
    case JoinThread(u0) => StartJoinKeeps(m, t, u0, u, l, j);
    case Terminate(v) => TerminateKeeps(m, t, v, u, l, j);
    case _ =>
  }

  lemma ThreadKeeps(m: Machine, t: Tid, mv: Move, u: Tid, l: Life, j: bool)
    requires Shape(m) && Agrees(m, u, l) && m.p.running == [t] && (j ==> JoinsEnded(m, mv))
    ensures KeepsLife(StepThread(m, t, mv), u, l, j)
  {
    hide Everyone, OnePlaceEach, Return, TakeResult, StartCall, LifeOf;
    NoEvents(l, u, j);
    match mv
    case Preempt => ReturnKeeps(m, StillRunning, m.awaits, m.joining, u, l);
    case FinishJoin => if t in m.joining { TakeResultKeeps(m, t, m.joining[t], u, l, j); }
    case _ => CallKeeps(m, t, mv, u, l, j);
  }

  /** Every move keeps every thread in one place, and the place in agreement with its life. */
  lemma StepKeeps(m: Machine, mv: Move, u: Tid, l: Life, j: bool)
    requires Shape(m) && Agrees(m, u, l) && (j ==> JoinsEnded(m, mv))
    ensures KeepsLife(Step(m, mv), u, l, j)
  {
    hide Everyone, OnePlaceEach, StepThread, JoinsEnded, Wake, Clean, Dispatch, DestroyAll, LifeOf;
    NoEvents(l, u, j);
    match mv
    case WakePass => if m.turn.AtWake? { WakeKeeps(m, u, l, j); }
    case CleanPass(gotLock) => if m.turn.AtClean? { CleanKeeps(m, gotLock, u, l, j); }
    case DispatchPass => if m.turn.AtDispatch? { DispatchKeeps(m, u, l, j); }
    case Interrupt(_) =>
    case ClearCond(_) =>
    case _ => if m.turn.InThread? && m.p.running != [] { ThreadKeeps(m, m.p.running[0], mv, u, l, j); }
  }

  ghost predicate GoodStart(cleanup: Tid, pool: seq<Tid>) {
    cleanup !in pool && forall t :: multiset(pool)[t] <= 1
  }

  lemma InitIsGood(cleanup: Tid, pool: seq<Tid>, u: Tid)
    requires GoodStart(cleanup, pool)
    ensures Shape(Init(cleanup, pool)) && Agrees(Init(cleanup, pool), u, Unborn)
  {
    var p := Init(cleanup, pool).p;
    assert Everyone(p) == multiset(pool);
  }

  /**
    In every reachable state each thread is in at most one place, and the place agrees with its life:
    a thread is destroyed at most once per creation, and only after it ended and was detached.
   */
  lemma {:induction false} EveryRunKeepsPlaces(cleanup: Tid, pool: seq<Tid>, moves: seq<Move>, u: Tid)
    requires GoodStart(cleanup, pool)
    ensures var o := Execute(Init(cleanup, pool), moves);
      Shape(o.m) && Agrees(o.m, u, LifeOf(Unborn, u, o.events, false))
    decreases |moves|
  {
    hide Shape, Agrees, Step, LifeOf, GoodStart, Init, JoinsEnded;
    if moves == [] {
      InitIsGood(cleanup, pool, u);
      NoEvents(Unborn, u, false);
    } else {
      EveryRunKeepsPlaces(cleanup, pool, moves[..|moves| - 1], u);
      var b := Execute(Init(cleanup, pool), moves[..|moves| - 1]);
      var mv := moves[|moves| - 1];
      StepKeeps(b.m, mv, u, LifeOf(Unborn, u, b.events, false), false);
      LifeConcat(Unborn, u, b.events, Step(b.m, mv).events, false);
    }
  }

  /** Hence no life ever goes wrong. */
  lemma LifeInOrder(cleanup: Tid, pool: seq<Tid>, moves: seq<Move>, u: Tid)
    requires GoodStart(cleanup, pool)
    ensures !LifeOf(Unborn, u, Execute(Init(cleanup, pool), moves).events, false).Wrong?
  {
    hide Everyone, OnePlaceEach, Execute, LifeOf, GoodStart, Init;
    EveryRunKeepsPlaces(cleanup, pool, moves, u);
  }

  // ------------------------------------------------------------------ every slot is somewhere

  /** A creation that finds the pool empty takes a page of slots. */
  ghost predicate TakesPage(m: Machine, mv: Move) {
    && mv.CreateThread? && m.turn.InThread? && m.p.running != [] && m.p.running[0] !in m.joining
    && m.p.pool == [] && FreshPage(m, mv.page)
  }

  /** All the slots of the pages taken over a run. */
  ghost function PagesTaken(m: Machine, moves: seq<Move>): multiset<Tid> {
    if moves == [] then multiset{}
    else
      var before, mv := moves[..|moves| - 1], moves[|moves| - 1];
      PagesTaken(m, before) + if TakesPage(Execute(m, before).m, mv) then multiset(mv.page) else multiset{}
  }

  lemma DoDetachConserves(m: Machine, u: Tid)
    ensures Everyone(DoDetach(m, u).m.p) == Everyone(m.p)
  {
    DetachConserves(m.p, u);
    hide Everyone, Detach;
  }

  lemma DoCreateConserves(m: Machine, page: seq<Tid>)
    ensures Everyone(DoCreate(m, page).m.p)
         == Everyone(m.p) + if m.p.pool == [] && FreshPage(m, page) then multiset(page) else multiset{}
  {
    if m.p.pool != [] || FreshPage(m, page) {
      PageHasThreads(m, page);
      CreateConserves(m.p, page);
    }
    hide Everyone, Create, FreshPage;
  }

  lemma ThreadConserves(m: Machine, t: Tid, mv: Move)
    ensures Everyone(StepThread(m, t, mv).m.p)
         == Everyone(m.p) + if mv.CreateThread? && t !in m.joining && m.p.pool == [] && FreshPage(m, mv.page) then multiset(mv.page) else multiset{}
  {
    hide Everyone, Return, DoDetach, DoCreate, FreshPage;
    ReturnConserves(m.p, StillRunning);
    ReturnConserves(m.p, Waits);
    ReturnConserves(m.p, EndsDetached);
    ReturnConserves(m.p, EndsUndetached);
    match mv
    case FinishJoin => if t in m.joining { DoDetachConserves(m.(joining := m.joining - {t}), m.joining[t]); }
    case CreateThread(page) => DoCreateConserves(m, page);
    case DetachThread(u) => DoDetachConserves(m, u);
    case JoinThread(u) => DoDetachConserves(m.(joining := m.joining - {t}), u);
    case _ =>
  }

  /** No move loses or doubles a thread; only a creation that takes a page adds any. */
  lemma StepConserves(m: Machine, mv: Move)
    requires Shape(m)
    ensures Everyone(Step(m, mv).m.p) == Everyone(m.p) + if TakesPage(m, mv) then multiset(mv.page) else multiset{}
  {
    hide Everyone, OnePlaceEach, StepThread, Wake, Clean, Dispatch, DestroyAll, FreshPage;
    match mv
    case WakePass => WakeConserves(m.p, Awaited(m));
    case CleanPass(_) => CleanConserves(m.p);
    case DispatchPass => if m.turn.AtDispatch? { DispatchConserves(m.p); }
    case Interrupt(_) =>
    case ClearCond(_) =>
    case _ => if m.turn.InThread? && m.p.running != [] { ThreadConserves(m, m.p.running[0], mv); }
  }

  /** At every instant the places hold the slots there were at the start and those of the pages taken since. */
  lemma {:induction false} NobodyIsLost(cleanup: Tid, pool: seq<Tid>, moves: seq<Move>)
    requires GoodStart(cleanup, pool)
    ensures Everyone(Execute(Init(cleanup, pool), moves).m.p) == multiset(pool) + PagesTaken(Init(cleanup, pool), moves)
    decreases |moves|
  {
    if moves == [] {
      assert Everyone(Init(cleanup, pool).p) == multiset(pool);
    } else {
      hide Everyone, Step, Init, GoodStart, TakesPage;
      var before := moves[..|moves| - 1];
      NobodyIsLost(cleanup, pool, before);
      EveryRunKeepsPlaces(cleanup, pool, before, cleanup);
      StepConserves(Execute(Init(cleanup, pool), before).m, moves[|moves| - 1]);
    }
  }

  /** So each of those slots is in exactly one place, and in the pool exactly while no thread lives in it. */
  lemma EverySlotInOnePlace(cleanup: Tid, pool: seq<Tid>, moves: seq<Move>, u: Tid)
    requires GoodStart(cleanup, pool) && u in multiset(pool) + PagesTaken(Init(cleanup, pool), moves)
    ensures var o := Execute(Init(cleanup, pool), moves);
      Everyone(o.m.p)[u] == 1 && (u in o.m.p.pool <==> LifeOf(Unborn, u, o.events, false) == Unborn)
  {
    NobodyIsLost(cleanup, pool, moves);
    EveryRunKeepsPlaces(cleanup, pool, moves, u);
    hide Execute, PagesTaken, LifeOf, Init;
    var p := Execute(Init(cleanup, pool), moves).m.p;
    PlacesExclude(p, u);
    InSomePlace(p, u);
    assert u in Everyone(p);
    hide Everyone;
  }

  lemma InSomePlace(p: Places<Tid>, u: Tid)
    requires u in Everyone(p)
    ensures u in p.ready || u in p.waiting || u in p.deleted || u in p.pool || u in p.terminated || u in p.running
  {
  }

  // ------------------------------------------------------------------ no starvation

  /** The threads the scheduler switches to, in order. */
  ghost function Dispatched(m: Machine, moves: seq<Move>): seq<Tid> {
    if moves == [] then []
    else
      var before := moves[..|moves| - 1];
      var b := Execute(m, before).m;
      Dispatched(m, before)
      + (if moves[|moves| - 1].DispatchPass? && b.turn.AtDispatch? && b.p.ready != [] then [b.p.ready[0]] else [])
  }

  /** A move takes at most the head off the ready queue, when it switches to it; all else goes behind. */
  lemma StepOnReady(m: Machine, mv: Move)
    ensures var q := Step(m, mv).m.p.ready;
      if mv.DispatchPass? && m.turn.AtDispatch? && m.p.ready != [] then q == m.p.ready[1..] else m.p.ready <= q
  {
    hide Everyone, FreshPage, LifeOf, DestroyAll, ReversedOnly, Without, Reversed, RemoveFirst;
    match mv
    case WakePass =>
    case CleanPass(_) =>
    case DispatchPass =>
    case Interrupt(_) =>
    case ClearCond(_) =>
    case _ => if m.turn.InThread? && m.p.running != [] { ThreadOnReady(m, m.p.running[0], mv); }
  }

  lemma ThreadOnReady(m: Machine, t: Tid, mv: Move)
    ensures m.p.ready <= StepThread(m, t, mv).m.p.ready
  {
    hide Everyone, FreshPage, LifeOf, RemoveFirst;
  }

  /** Whatever the threads do, the ready queue is served first in, first out, and nobody is overtaken. */
  lemma {:induction false} NoStarvation(m: Machine, moves: seq<Move>)
    ensures m.p.ready <= Dispatched(m, moves) + Execute(m, moves).m.p.ready
    decreases |moves|
  {
    hide Step;
    if moves == [] {
      assert Dispatched(m, moves) + m.p.ready == m.p.ready;
    } else {
      var before := moves[..|moves| - 1];
      NoStarvation(m, before);
      var b := Execute(m, before).m;
      StepOnReady(b, moves[|moves| - 1]);
      var d, q, q' := Dispatched(m, before), b.p.ready, Execute(m, moves).m.p.ready;
      var d' := Dispatched(m, moves);
      assert d + q <= d' + q' by {
        if d' != d { assert d' + q' == d + q; }
      }
    }
  }

  /** So the thread at position k runs at exactly the dispatch that has k others before it. */
  lemma RunsAfterThoseBefore(m: Machine, moves: seq<Move>, k: nat)
    requires k < |m.p.ready|
    ensures var d := Dispatched(m, moves); var q := Execute(m, moves).m.p.ready;
      && (k < |d| ==> d[k] == m.p.ready[k])
      && (k >= |d| ==> k - |d| < |q| && q[k - |d|] == m.p.ready[k])
  {
    hide Step, Execute, Dispatched;
    NoStarvation(m, moves);
    assert (Dispatched(m, moves) + Execute(m, moves).m.p.ready)[k] == m.p.ready[k];
  }

  // ------------------------------------------------------------------ a joiner gets what the thread left

  predicate Going(m: Machine, t: Tid) {
    t in m.p.ready || t in m.p.waiting || t in m.p.running
  }

  /** One joiner for each thread: nobody joins or detaches a thread that somebody is joining. */
  predicate OneJoiner(m: Machine, mv: Move) {
    mv.DetachThread? || mv.JoinThread? ==> forall t :: t in m.joining ==> m.joining[t] != mv.u
  }

  ghost predicate Polite(m: Machine, moves: seq<Move>) {
    moves == [] ||
    (Polite(m, moves[..|moves| - 1]) && OneJoiner(Execute(m, moves[..|moves| - 1]).m, moves[|moves| - 1]))
  }

  /** How things stand for t, which is joining u. */
  predicate JoinStands(m: Machine, t: Tid, u: Tid) {
    && Going(m, t) && u !in m.detached
    && (u == m.cleanup || Going(m, u) || u in m.p.terminated)
    && if t in m.p.waiting then t in m.awaits && m.awaits[t] == Own(u) else Own(u) in m.signalled
  }

  ghost predicate JoinsStand(m: Machine) {
    && (forall t :: t in m.joining ==> JoinStands(m, t, m.joining[t]))
    && (forall t, w :: t in m.joining && w in m.joining && t != w ==> m.joining[t] != m.joining[w])
  }

  lemma WakeJoins(m: Machine, t: Tid, u: Tid)
    requires Shape(m) && JoinStands(m, t, u) && m.turn.AtWake?
    ensures JoinStands(Step(m, WakePass).m, t, u)
  {
    hide Everyone, OnePlaceEach, Wake;
    var on := Awaited(m);
    WakeMembers(m.p, on, t);
    WakeMembers(m.p, on, u);
    PlacesExclude(m.p, t);
  }

  lemma CleanJoins(m: Machine, gotLock: bool, t: Tid, u: Tid)
    requires JoinStands(m, t, u) && m.turn.AtClean?
    ensures JoinStands(Step(m, CleanPass(gotLock)).m, t, u)
  {
    hide Everyone, OnePlaceEach, Clean;
    CleanMembers(m.p, t);
    CleanMembers(m.p, u);
  }

  lemma DispatchJoins(m: Machine, t: Tid, u: Tid)
    requires Shape(m) && JoinStands(m, t, u) && m.turn.AtDispatch?
    ensures JoinStands(Step(m, DispatchPass).m, t, u)
  {
    hide Everyone, OnePlaceEach, Dispatch;
    DispatchMembers(m.p, t);
    DispatchMembers(m.p, u);
  }

  /** The running thread r goes back; whatever r waits for, it is not t. */
  lemma ReturnJoins(m: Machine, how: Comeback, r: Tid, awaits: map<Tid, Cond>, t: Tid, u: Tid)
    requires Shape(m) && JoinStands(m, t, u) && m.p.running == [r] && (how.StillRunning? || (how.Waits? && t != r))
    requires t in m.awaits && t in m.p.waiting ==> t in awaits && awaits[t] == m.awaits[t]
    ensures JoinStands(m.(p := Return(m.p, how), turn := AtWake, awaits := awaits), t, u)
  {
    hide Everyone, OnePlaceEach, Return;
    ReturnMembers(m.p, how, t);
    ReturnMembers(m.p, how, u);
    PlacesExclude(m.p, t);
  }

  lemma TerminateJoins(m: Machine, r: Tid, v: nat, t: Tid, u: Tid)
    requires Shape(m) && JoinStands(m, t, u) && m.p.running == [r] && t != r
    ensures JoinStands(DoTerminate(m, r, v).m, t, u)
  {
    hide Everyone, OnePlaceEach, Return;
    var how := if r in m.detached then EndsDetached else EndsUndetached;
    ReturnMembers(m.p, how, t);
    ReturnMembers(m.p, how, u);
    PlacesExclude(m.p, t);
  }

  lemma CreateJoins(m: Machine, page: seq<Tid>, t: Tid, u: Tid)
    requires Shape(m) && JoinStands(m, t, u)
    ensures JoinStands(DoCreate(m, page).m, t, u)
  {
    hide Everyone, OnePlaceEach, Create, FreshPage;
    if m.p.pool != [] || FreshPage(m, page) {
      PageHasThreads(m, page);
      var c := CreatedThread(m, page);
      CreatedIsNew(m, page, c);
      CreatedIsNotCleanup(m, page, c);
      CreateMembers(m.p, page, t);
      CreateMembers(m.p, page, u);
      var o := DoCreate(m, page).m;
      assert u != c && t != c;
      assert Own(u) in m.signalled ==> Own(u) in o.signalled;
      assert u !in o.detached;
    }
  }

  lemma CreatedIsNotCleanup(m: Machine, page: seq<Tid>, c: Tid)
    requires m.cleanup !in Everyone(m.p) && (m.p.pool == [] ==> FreshPage(m, page))
    requires c == CreatedThread(m, page)
    ensures c != m.cleanup
  {
    if m.p.pool == [] {
      assert c in page;
    } else {
      assert c in m.p.pool && c in multiset(m.p.pool);
    }
  }

  lemma DetachJoins(m: Machine, d: Tid, t: Tid, u: Tid)
    requires Shape(m) && JoinStands(m, t, u) && d != u && d !in m.detached
    ensures JoinStands(DoDetach(m, d).m, t, u)
  {
    hide Everyone, OnePlaceEach, Detach;
    DetachMembers(m.p, d, t);
    DetachMembers(m.p, d, u);
  }

  lemma TakeResultJoins(m: Machine, r: Tid, d: Tid, t: Tid, u: Tid)
    requires Shape(m) && JoinStands(m, t, u) && d != u
    ensures JoinStands(TakeResult(m, r, d).m, t, u)
  {
    hide Everyone, OnePlaceEach, Detach;
    if d !in m.detached { DetachJoins(m.(joining := m.joining - {r}), d, t, u); }
  }

  /** The join that r starts now stands too. */
  lemma NewJoinStands(m: Machine, r: Tid, u: Tid, l: Life)
    requires Shape(m) && Agrees(m, u, l) && m.p.running == [r] && r != u && u !in m.detached
    requires Known(m, u) || u == m.cleanup
    requires u !in m.p.terminated
    ensures JoinStands(m.(p := Return(m.p, Waits), turn := AtWake, awaits := m.awaits[r := Own(u)]), r, u)
  {
    hide Everyone, OnePlaceEach, Return;
    ReturnMembers(m.p, Waits, r);
    ReturnMembers(m.p, Waits, u);
  }

  /** No move but finishing its own join disturbs the join of t. */
  lemma CallJoins(m: Machine, r: Tid, mv: Move, t: Tid, u: Tid)
    requires Shape(m) && JoinStands(m, t, u) && m.p.running == [r] && t != r
    requires (mv.DetachThread? || mv.JoinThread?) ==> mv.u != u
    ensures JoinStands(StartCall(m, r, mv).m, t, u)
  {
    hide Everyone, OnePlaceEach, Return, DoCreate, DoTerminate, TakeResult, Detach, JoinStands;
    match mv
    case CreateThread(page) => CreateJoins(m, page, t, u);
    case DetachThread(d) => if d !in m.detached { DetachJoins(m, d, t, u); }
    case WaitCondition(c) => ReturnJoins(m, Waits, r, m.awaits[r := c], t, u);
    case JoinThread(d) =>
      TakeResultJoins(m, r, d, t, u);
      ReturnJoins(m, Waits, r, m.awaits[r := Own(d)], t, u);
      OtherJoinsDoNotMatter(m.(p := Return(m.p, Waits), turn := AtWake, awaits := m.awaits[r := Own(d)]), m.joining[r := d], t, u);
    case Terminate(v) => TerminateJoins(m, r, v, t, u);
    case _ =>
  }

  lemma OtherJoinsDoNotMatter(m: Machine, joining: map<Tid, Tid>, t: Tid, u: Tid)
    ensures JoinStands(m.(joining := joining), t, u) == JoinStands(m, t, u)
  {
  }

  lemma CallKeepsJoins(m: Machine, r: Tid, mv: Move, l: Life)
    requires Shape(m) && JoinsStand(m) && OneJoiner(m, mv) && m.p.running == [r] && r !in m.joining
    requires mv.JoinThread? ==> Agrees(m, mv.u, l)
    ensures JoinsStand(StartCall(m, r, mv).m)
  {
    var n := StartCall(m, r, mv).m;
    hide Everyone, OnePlaceEach, Return, Create, FreshPage, Detach, JoinStands, Agrees;
    assert r !in m.joining ==> m.joining - {r} == m.joining;
    forall t | t in n.joining ensures JoinStands(n, t, n.joining[t]) {
      if t in m.joining {
        CallJoins(m, r, mv, t, m.joining[t]);
      } else {
        NewJoinStands(m, r, mv.u, l);
        OtherJoinsDoNotMatter(m.(p := Return(m.p, Waits), turn := AtWake, awaits := m.awaits[r := Own(mv.u)]),
          n.joining, r, mv.u);
      }
    }
  }

  lemma FinishKeepsJoins(m: Machine, r: Tid)
    requires Shape(m) && JoinsStand(m) && m.p.running == [r] && r in m.joining
    ensures JoinsStand(TakeResult(m, r, m.joining[r]).m)
  {
    var d := m.joining[r];
    var n := TakeResult(m, r, d).m;
    hide Everyone, OnePlaceEach, Detach, JoinStands;
    forall t | t in n.joining ensures JoinStands(n, t, n.joining[t]) {
      TakeResultJoins(m, r, d, t, m.joining[t]);
    }
  }

  lemma PreemptKeepsJoins(m: Machine, r: Tid)
    requires Shape(m) && JoinsStand(m) && m.p.running == [r]
    ensures JoinsStand(StepThread(m, r, Preempt).m)
  {
    var n := StepThread(m, r, Preempt).m;
    hide Everyone, OnePlaceEach, Return, JoinStands;
    forall t | t in n.joining ensures JoinStands(n, t, n.joining[t]) {
      ReturnJoins(m, StillRunning, r, m.awaits, t, m.joining[t]);
    }
  }

  lemma ThreadKeepsJoins(m: Machine, r: Tid, mv: Move, l: Life)
    requires Shape(m) && JoinsStand(m) && OneJoiner(m, mv) && m.p.running == [r]
    requires mv.JoinThread? ==> Agrees(m, mv.u, l)
    ensures JoinsStand(StepThread(m, r, mv).m)
  {
    hide Everyone, OnePlaceEach, Return, TakeResult, JoinsStand, OneJoiner, Agrees, StartCall;
    match mv
    case Preempt => PreemptKeepsJoins(m, r);
    case FinishJoin => if r in m.joining { FinishKeepsJoins(m, r); }
    case _ => if r !in m.joining { CallKeepsJoins(m, r, mv, l); }
  }

  lemma PassKeepsJoins(m: Machine, mv: Move)
    requires Shape(m) && JoinsStand(m)
    requires mv.WakePass? || mv.CleanPass? || mv.DispatchPass? || mv.Interrupt? || mv.ClearCond?
    ensures JoinsStand(Step(m, mv).m)
  {
    var n := Step(m, mv).m;
    hide Everyone, OnePlaceEach, Wake, Clean, Dispatch, DestroyAll;
    forall t | t in n.joining ensures JoinStands(n, t, n.joining[t]) {
      if mv.WakePass? && m.turn.AtWake? { WakeJoins(m, t, m.joining[t]); }
      if mv.CleanPass? && m.turn.AtClean? { CleanJoins(m, mv.gotLock, t, m.joining[t]); }
      if mv.DispatchPass? && m.turn.AtDispatch? { DispatchJoins(m, t, m.joining[t]); }
    }
  }

  lemma StepKeepsJoins(m: Machine, mv: Move, l: Life)
    requires Shape(m) && JoinsStand(m) && OneJoiner(m, mv)
    requires mv.JoinThread? ==> Agrees(m, mv.u, l)
    ensures JoinsStand(Step(m, mv).m)
  {
    hide Everyone, OnePlaceEach, Wake, Clean, Dispatch, DestroyAll, StepThread, JoinsStand, OneJoiner, Agrees;
    if mv.WakePass? || mv.CleanPass? || mv.DispatchPass? || mv.Interrupt? || mv.ClearCond? {
      PassKeepsJoins(m, mv);
    } else if m.turn.InThread? && m.p.running != [] {
      ThreadKeepsJoins(m, m.p.running[0], mv, l);
    }
  }

  /** A thread that is signalled, undetached and somebody's has ended. */
  lemma SignalledHasEnded(m: Machine, u: Tid, l: Life)
    requires Shape(m) && Agrees(m, u, l) && Own(u) in m.signalled && u !in m.detached
    requires u == m.cleanup || Known(m, u)
    ensures u in m.p.terminated
  {
  }

  ghost predicate AllAgree(m: Machine, events: seq<Event>) {
    forall u :: Agrees(m, u, LifeOf(Unborn, u, events, true))
  }

  lemma JoinsEndedHere(m: Machine, events: seq<Event>, mv: Move)
    requires Shape(m) && JoinsStand(m) && AllAgree(m, events)
    ensures JoinsEnded(m, mv)
  {
    hide Everyone, OnePlaceEach, LifeOf;
    var t := if m.p.running != [] then m.p.running[0] else 0;
    if mv.FinishJoin? && t in m.p.running && t in m.joining {
      var u := m.joining[t];
      PlacesExclude(m.p, t);
      assert JoinStands(m, t, u);
      SignalledHasEnded(m, u, LifeOf(Unborn, u, events, true));
    }
    if mv.JoinThread? {
      assert Agrees(m, mv.u, LifeOf(Unborn, mv.u, events, true));
    }
  }

  lemma {:induction false} PoliteRunsKeep(cleanup: Tid, pool: seq<Tid>, moves: seq<Move>)
    requires GoodStart(cleanup, pool) && Polite(Init(cleanup, pool), moves)
    ensures var o := Execute(Init(cleanup, pool), moves);
      Shape(o.m) && JoinsStand(o.m) && AllAgree(o.m, o.events)
    decreases |moves|
  {
    hide Shape, Agrees, Step, LifeOf, GoodStart, JoinsEnded, JoinStands, OneJoiner;
    var o := Execute(Init(cleanup, pool), moves);
    if moves == [] {
      InitIsGood(cleanup, pool, cleanup);
    } else {
      PoliteRunsKeep(cleanup, pool, moves[..|moves| - 1]);
      PoliteStep(Execute(Init(cleanup, pool), moves[..|moves| - 1]), moves[|moves| - 1]);
    }
    forall u ensures Agrees(o.m, u, LifeOf(Unborn, u, o.events, true)) {
      if moves == [] {
        InitIsGood(cleanup, pool, u);
        NoEvents(Unborn, u, true);
      }
    }
  }

  lemma PoliteStep(b: Outcome, mv: Move)
    requires Shape(b.m) && JoinsStand(b.m) && AllAgree(b.m, b.events) && OneJoiner(b.m, mv)
    ensures var o := Step(b.m, mv); Shape(o.m) && JoinsStand(o.m) && AllAgree(o.m, b.events + o.events)
  {
    hide Shape, Agrees, Step, LifeOf, JoinsEnded, JoinStands, JoinsStand, OneJoiner;
    var o := Step(b.m, mv);
    JoinsEndedHere(b.m, b.events, mv);
    StepKeeps(b.m, mv, b.m.cleanup, LifeOf(Unborn, b.m.cleanup, b.events, true), true);
    StepKeepsJoins(b.m, mv, if mv.JoinThread? then LifeOf(Unborn, mv.u, b.events, true) else Unborn);
    forall u ensures Agrees(o.m, u, LifeOf(Unborn, u, b.events + o.events, true)) {
      StepKeeps(b.m, mv, u, LifeOf(Unborn, u, b.events, true), true);
      LifeConcat(Unborn, u, b.events, o.events, true);
    }
  }

  /** With one joiner for each thread, every join hands over the value its thread ended with. */
  lemma JoinersGetTheResult(cleanup: Tid, pool: seq<Tid>, moves: seq<Move>, u: Tid)
    requires GoodStart(cleanup, pool) && Polite(Init(cleanup, pool), moves)
    ensures !LifeOf(Unborn, u, Execute(Init(cleanup, pool), moves).events, true).Wrong?
  {
    hide Everyone, OnePlaceEach, Execute, LifeOf, GoodStart, Init, Polite, JoinsStand;
    PoliteRunsKeep(cleanup, pool, moves);
  }
}
