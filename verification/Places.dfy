/**
  Where the threads of kernel/proc are: the ready queue, the condition-wait queue, the delete list
  and the thread pool share one link per thread, so every thread must be in one of them at most.
  The functions here say what each operation does to the lists; T is a thread.
 */
module Places {

  /** running holds the thread the scheduler has switched to, if any; terminated those not yet detached. */
  datatype Places<T> = Places(
    ready: seq<T>, waiting: seq<T>, deleted: seq<T>, pool: seq<T>, terminated: seq<T>, running: seq<T>)

  /** How a thread comes back to the scheduler. */
  datatype Comeback = StillRunning | Waits | EndsDetached | EndsUndetached

  // ------------------------------------------------------------------ filters

  function Without<T(==)>(s: seq<T>, on: set<T>): seq<T> {
    if s == [] then []
    else Without(s[..|s| - 1], on) + (if s[|s| - 1] in on then [] else [s[|s| - 1]])
  }

  /** The members in the set, last one first. */
  function ReversedOnly<T(==)>(s: seq<T>, on: set<T>): seq<T> {
    if s == [] then []
    else (if s[|s| - 1] in on then [s[|s| - 1]] else []) + ReversedOnly(s[..|s| - 1], on)
  }

  function Reversed<T>(s: seq<T>): (r: seq<T>)
    ensures |r| == |s|
  {
    if s == [] then [] else [s[|s| - 1]] + Reversed(s[..|s| - 1])
  }

  function RemoveFirst<T(==)>(s: seq<T>, t: T): seq<T> {
    if s == [] then [] else if s[0] == t then s[1..] else [s[0]] + RemoveFirst(s[1..], t)
  }

  // ------------------------------------------------------------------ what each operation does to the lists

  /** The wake-up pass: waiters whose condition is set go behind the ready threads, last waiter first. */
  function Wake<T(==)>(p: Places<T>, on: set<T>): Places<T> {
    p.(ready := p.ready + ReversedOnly(p.waiting, on), waiting := Without(p.waiting, on))
  }

  /** The cleanup thread destroys the whole delete list, head first, each thread pushed on the pool. */
  function Clean<T>(p: Places<T>): Places<T> {
    p.(pool := Reversed(p.deleted) + p.pool, deleted := [])
  }

  /** The scheduler switches to the head of the ready queue. */
  function Dispatch<T>(p: Places<T>): Places<T> {
    if p.ready == [] then p else p.(running := [p.ready[0]], ready := p.ready[1..])
  }

  /** The running thread comes back. */
  function Return<T>(p: Places<T>, how: Comeback): Places<T> {
    var q := p.(running := []);
    match how
    case StillRunning => q.(ready := p.ready + p.running)
    case Waits => q.(waiting := p.waiting + p.running)
    case EndsDetached => q.(deleted := p.running + p.deleted)
    case EndsUndetached => q.(terminated := p.terminated + p.running)
  }

  /** A new thread comes from the pool, filled with a new page of threads when empty, and becomes ready. */
  function Create<T>(p: Places<T>, page: seq<T>): Places<T>
    requires p.pool == [] ==> page != []
  {
    var pool := if p.pool == [] then page else p.pool;
    p.(pool := pool[1..], ready := p.ready + [pool[0]])
  }

  /** Detaching a terminated thread puts it on the delete list; detaching any other moves nothing. */
  function Detach<T(==)>(p: Places<T>, t: T): Places<T> {
    if t in p.terminated then p.(terminated := RemoveFirst(p.terminated, t), deleted := [t] + p.deleted) else p
  }

  // ------------------------------------------------------------------ nobody is lost, nobody is twice

  /** Every thread with the number of places it is in. */
  ghost function Everyone<T>(p: Places<T>): multiset<T> {
    multiset(p.ready) + multiset(p.waiting) + multiset(p.deleted) + multiset(p.pool)
    + multiset(p.terminated) + multiset(p.running)
  }

  ghost predicate OnePlaceEach<T>(p: Places<T>) {
    forall t :: t in Everyone(p) ==> Everyone(p)[t] <= 1
  }

  lemma {:induction false} FilterSplits<T>(s: seq<T>, on: set<T>)
    ensures multiset(Without(s, on)) + multiset(ReversedOnly(s, on)) == multiset(s)
  {
    if s != [] {
      var front, last := s[..|s| - 1], s[|s| - 1];
      FilterSplits(front, on);
      assert s == front + [last];
      assert Without(s, on) == Without(front, on) + if last in on then [] else [last];
      assert ReversedOnly(s, on) == (if last in on then [last] else []) + ReversedOnly(front, on);
      hide Without, ReversedOnly;
    }
  }

  lemma {:induction false} ReversedSame<T>(s: seq<T>)
    ensures multiset(Reversed(s)) == multiset(s)
  {
    if s != [] {
      ReversedSame(s[..|s| - 1]);
      assert s == s[..|s| - 1] + [s[|s| - 1]];
    }
  }

  lemma {:induction false} RemoveFirstLess<T>(s: seq<T>, t: T)
    requires t in s
    ensures multiset(RemoveFirst(s, t)) + multiset{t} == multiset(s)
  {
    assert s == [s[0]] + s[1..];
    if s[0] != t {
      RemoveFirstLess(s[1..], t);
    }
  }

  lemma HeadAndTail<T>(s: seq<T>)
    requires s != []
    ensures multiset(s) == multiset{s[0]} + multiset(s[1..])
  {
    assert s == [s[0]] + s[1..];
  }

  /** No operation loses or doubles a thread; creation adds the new page when it had to take one. */
  lemma WakeConserves<T>(p: Places<T>, on: set<T>)
    ensures Everyone(Wake(p, on)) == Everyone(p)
  {
    FilterSplits(p.waiting, on);
  }

  lemma CleanConserves<T>(p: Places<T>)
    ensures Everyone(Clean(p)) == Everyone(p)
  {
    ReversedSame(p.deleted);
  }

  lemma DispatchConserves<T>(p: Places<T>)
    requires p.running == []
    ensures Everyone(Dispatch(p)) == Everyone(p)
  {
    if p.ready != [] { HeadAndTail(p.ready); }
  }

  lemma ReturnConserves<T>(p: Places<T>, how: Comeback)
    ensures Everyone(Return(p, how)) == Everyone(p)
  {
  }

  lemma CreateConserves<T>(p: Places<T>, page: seq<T>)
    requires p.pool == [] ==> page != []
    ensures Everyone(Create(p, page)) == Everyone(p) + (if p.pool == [] then multiset(page) else multiset{})
  {
    HeadAndTail(if p.pool == [] then page else p.pool);
  }

  lemma DetachConserves<T>(p: Places<T>, t: T)
    ensures Everyone(Detach(p, t)) == Everyone(p)
  {
    if t in p.terminated { RemoveFirstLess(p.terminated, t); }
  }

  /** The pass moves exactly the waiters in the set. */
  lemma {:induction false} WakeIsExact<T>(s: seq<T>, on: set<T>, t: T)
    ensures t in Without(s, on) <==> t in s && t !in on
    ensures t in ReversedOnly(s, on) <==> t in s && t in on
  {
    if s != [] {
      WakeIsExact(s[..|s| - 1], on, t);
      assert s == s[..|s| - 1] + [s[|s| - 1]];
    }
  }

  /** The waiters that stay keep their order; those that go are in the opposite order. */
  lemma {:induction false} WakeTurnsOrder<T>(s: seq<T>, on: set<T>, off: set<T>)
    requires forall t :: t in s ==> (t in on <==> t !in off)
    ensures ReversedOnly(s, on) == Reversed(Without(s, off))
  {
    if s != [] {
      var r := s[..|s| - 1];
      assert s == r + [s[|s| - 1]];
      WakeTurnsOrder(r, on, off);
      assert Without(s, off) == Without(r, off) || Without(s, off)[..|Without(s, off)| - 1] == Without(r, off);
    }
  }
}
