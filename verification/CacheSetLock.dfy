/**
  The reader and writer protocol on a cache set (kernel/fs/pup.c) over the spinlock of
  kernel/rt/atm_a.asm, for any number of threads that each look a block up and bring it in when it
  is missing.  Every access to a shared word is a step of its own.
 */
module CacheSetLock {

  const WORD32: nat := 0x1_0000_0000

  /**
    Where a thread is: first taking the lock to announce itself as a reader, then walking the list,
    then, if the block is not there, trying for the lock to link it.  even is the value of the lock
    word the thread last saw, with its lowest bit cleared.  A thread that found the lock taken waits
    and looks once more; if it comes back from that without an entry, the code follows a null pointer.
   */
  datatype Place =
    | FindLoad(b: nat, again: bool) | FindSwap(b: nat, again: bool, even: nat) | Enter(b: nat, again: bool)
    | FindUnlockLoad(b: nat, again: bool) | FindUnlock(b: nat, again: bool, even: nat)
    | Walk(b: nat, again: bool, i: nat) | Leave(b: nat, again: bool, found: bool)
    | TryLoad(b: nat) | TrySwap(b: nat, even: nat) | AwaitReaders(b: nat) | Link(b: nat)
    | LinkUnlockLoad(b: nat) | LinkUnlock(b: nat, even: nat)
    | AwaitLock(b: nat) | Done(b: nat, found: bool)

  /** entries are the first blocks of the linked entries, in order. */
  datatype Machine = Machine(lock: nat, readers: nat, entries: seq<nat>, threads: seq<Place>)

  function Even(n: nat): nat { n - n % 2 }

  /** The compare-and-swap of the spinlock: it succeeds only on an even word, and adds one. */
  function Swapped(m: Machine, even: nat): nat { if m.lock == even then even + 1 else m.lock }

  function AfterLeave(b: nat, again: bool, found: bool): Place {
    if found || again then Done(b, found) else TryLoad(b)
  }

  predicate Found(entries: seq<nat>, b: nat, i: nat) { i < |entries| && entries[i] <= b <= entries[i] + 3 }

  function Next(m: Machine, c: Place): Place {
    match c
    case FindLoad(b, again) => FindSwap(b, again, Even(m.lock))
    case FindSwap(b, again, even) => if m.lock == even then Enter(b, again) else FindSwap(b, again, Even(m.lock))
    case Enter(b, again) => FindUnlockLoad(b, again)
    case FindUnlockLoad(b, again) => FindUnlock(b, again, Even(m.lock))
    case FindUnlock(b, again, _) => Walk(b, again, 0)
    case Walk(b, again, i) => if i >= |m.entries| then Leave(b, again, false) else if Found(m.entries, b, i) then Leave(b, again, true) else Walk(b, again, i + 1)
    case Leave(b, again, found) => AfterLeave(b, again, found)
    case TryLoad(b) => TrySwap(b, Even(m.lock))
    case TrySwap(b, even) => if m.lock == even then AwaitReaders(b) else AwaitLock(b)
    case AwaitReaders(b) => if m.readers == 0 then Link(b) else c
    case Link(b) => LinkUnlockLoad(b)
    case LinkUnlockLoad(b) => LinkUnlock(b, Even(m.lock))
    case LinkUnlock(b, _) => Done(b, true)
    case AwaitLock(b) => if m.lock % 2 == 0 then FindLoad(b, true) else c
    case Done(_, _) => c
  }

  function NewLock(m: Machine, c: Place): nat {
    match c
    case FindSwap(_, _, even) => Swapped(m, even)
    case TrySwap(_, even) => Swapped(m, even)
    case FindUnlock(_, _, even) => even
    case LinkUnlock(_, even) => even
    case _ => m.lock
  }

  function NewReaders(m: Machine, c: Place): nat {
    match c
    case Enter(_, _) => (m.readers + 1) % WORD32
    case Leave(_, _, _) => (m.readers + WORD32 - 1) % WORD32
    case _ => m.readers
  }

  function NewEntries(m: Machine, c: Place): seq<nat> {
    match c
    case Link(b) => m.entries + [b - b % 4]
    case _ => m.entries
  }

  function Step(m: Machine, t: nat): Machine {
    if t >= |m.threads| then m
    else
      var c := m.threads[t];
      Machine(NewLock(m, c), NewReaders(m, c), NewEntries(m, c), m.threads[t := Next(m, c)])
  }

  function Run(m: Machine, schedule: seq<nat>): Machine {
    if schedule == [] then m else Step(Run(m, schedule[..|schedule| - 1]), schedule[|schedule| - 1])
  }

  // ------------------------------------------------------------------ who holds what

  predicate Holding(c: Place) {
    c.Enter? || c.FindUnlockLoad? || c.FindUnlock? || c.AwaitReaders? || c.Link? || c.LinkUnlockLoad? || c.LinkUnlock?
  }

  /** Between announcing itself and leaving. */
  predicate Reading(c: Place) { c.FindUnlockLoad? || c.FindUnlock? || c.Walk? || c.Leave? }

  function Readers(threads: seq<Place>): nat {
    if threads == [] then 0
    else Readers(threads[..|threads| - 1]) + (if Reading(threads[|threads| - 1]) then 1 else 0)
  }

  predicate GoodPlace(m: Machine, c: Place) {
    match c
    case FindSwap(_, _, even) => even % 2 == 0
    case TrySwap(_, even) => even % 2 == 0
    case FindUnlock(_, _, even) => even + 1 == m.lock
    case LinkUnlock(_, even) => even + 1 == m.lock
    case Link(_) => m.readers == 0
    case _ => true
  }

  /** top are the upper bits of the lock word. */
  ghost predicate Inv(m: Machine, top: nat) {
    && |m.threads| < WORD32
    && m.lock / 2 == top
    && m.readers == Readers(m.threads)
    && (forall t :: 0 <= t < |m.threads| ==> GoodPlace(m, m.threads[t]))
    && (forall t, u :: 0 <= t < |m.threads| && 0 <= u < |m.threads| && Holding(m.threads[t]) && Holding(m.threads[u]) ==> t == u)
    && (m.lock % 2 == 1 <==> exists t :: 0 <= t < |m.threads| && Holding(m.threads[t]))
  }

  predicate Start(m: Machine) {
    && |m.threads| < WORD32 && m.lock % 2 == 0 && m.readers == 0
    && forall t :: 0 <= t < |m.threads| ==> m.threads[t].FindLoad?
  }

  lemma {:induction false} ReadersMoved(threads: seq<Place>, t: nat, c: Place)
    requires t < |threads|
    ensures Readers(threads[t := c]) == Readers(threads) - (if Reading(threads[t]) then 1 else 0) + (if Reading(c) then 1 else 0)
    decreases |threads|
  {
    hide Reading;
    var n := |threads| - 1;
    var more := threads[t := c];
    if t < n {
      ReadersMoved(threads[..n], t, c);
      assert more[..n] == threads[..n][t := c];
    } else {
      assert more[..n] == threads[..n];
    }
  }

  lemma {:induction false} ReadersBound(threads: seq<Place>)
    ensures Readers(threads) <= |threads|
    decreases |threads|
  {
    if threads != [] { ReadersBound(threads[..|threads| - 1]); }
  }

  lemma {:induction false} ReadersPositive(threads: seq<Place>, t: nat)
    requires t < |threads| && Reading(threads[t])
    ensures Readers(threads) > 0
    decreases |threads|
  {
    if t < |threads| - 1 { ReadersPositive(threads[..|threads| - 1], t); }
  }

  /** The count moves with the threads: a step changes it exactly as it changes who reads. */
  lemma CountKeeps(m: Machine, t: nat, top: nat)
    requires Inv(m, top) && t < |m.threads|
    ensures Step(m, t).readers == Readers(Step(m, t).threads)
  {
    var c := m.threads[t];
    ReadersMoved(m.threads, t, Next(m, c));
    ReadersBound(Step(m, t).threads);
    ReadersBound(m.threads);
    if Reading(c) { ReadersPositive(m.threads, t); }
    hide Readers, GoodPlace, Even, Found;
  }

  /** The upper bits of the word stay, and its lowest bit is set by taking and cleared by giving back the lock. */
  lemma LockKeeps(m: Machine, t: nat, top: nat)
    requires Inv(m, top) && t < |m.threads|
    ensures var n := Step(m, t); var c := m.threads[t];
      && n.lock / 2 == top
      && (Holding(n.threads[t]) && !Holding(c) ==> m.lock % 2 == 0 && n.lock % 2 == 1)
      && (!Holding(n.threads[t]) && Holding(c) ==> n.lock % 2 == 0 && n.lock == m.lock - 1)
      && (Holding(n.threads[t]) == Holding(c) ==> n.lock == m.lock)
  {
    var c := m.threads[t];
    assert GoodPlace(m, c);
    hide Readers, Reading, Found;
  }

  lemma NextIsGood(m: Machine, t: nat, top: nat)
    requires Inv(m, top) && t < |m.threads|
    ensures GoodPlace(Step(m, t), Step(m, t).threads[t])
  {
    var c := m.threads[t];
    assert GoodPlace(m, c);
    hide Readers, Reading, Found;
    assert Holding(c) ==> m.lock % 2 == 1;
  }

  /** What another thread relies on stays: while it holds the lock nobody changes the word, nor becomes a reader. */
  lemma OtherStaysGood(m: Machine, t: nat, u: nat, top: nat)
    requires Inv(m, top) && t < |m.threads| && u < |m.threads| && u != t
    ensures GoodPlace(Step(m, t), m.threads[u])
  {
    var c, d := m.threads[t], m.threads[u];
    assert GoodPlace(m, c) && GoodPlace(m, d);
    assert Holding(d) ==> !Holding(c) && m.lock % 2 == 1;
    if d.Link? && c.Leave? { ReadersPositive(m.threads, t); }
    hide Readers, Found;
  }

  lemma OneHolder(m: Machine, t: nat, top: nat)
    requires Inv(m, top) && t < |m.threads|
    ensures var n := Step(m, t);
      && (forall u, w :: 0 <= u < |n.threads| && 0 <= w < |n.threads| && Holding(n.threads[u]) && Holding(n.threads[w]) ==> u == w)
      && (n.lock % 2 == 1 <==> exists u :: 0 <= u < |n.threads| && Holding(n.threads[u]))
  {
    LockKeeps(m, t, top);
    var n := Step(m, t);
    assert |n.threads| == |m.threads| && forall u :: 0 <= u < |n.threads| && u != t ==> n.threads[u] == m.threads[u];
    hide Readers, Reading, Found, Next, NewLock, NewReaders, NewEntries, GoodPlace, Step, Holding;
    if m.lock % 2 == 1 {
      var h :| 0 <= h < |m.threads| && Holding(m.threads[h]);
      if n.lock % 2 == 1 { assert Holding(n.threads[h]); }
    } else {
      assert n.lock % 2 == 1 ==> Holding(n.threads[t]);
    }
  }

  lemma StepKeeps(m: Machine, t: nat, top: nat)
    requires Inv(m, top)
    ensures Inv(Step(m, t), top)
  {
    if t < |m.threads| {
      CountKeeps(m, t, top);
      LockKeeps(m, t, top);
      OneHolder(m, t, top);
      NextIsGood(m, t, top);
      var n := Step(m, t);
      assert |n.threads| == |m.threads| && forall u :: 0 <= u < |n.threads| && u != t ==> n.threads[u] == m.threads[u];
      hide Readers, Reading, Found, Next, NewLock, NewReaders, NewEntries, GoodPlace, Step, Holding;
      forall u | 0 <= u < |n.threads| ensures GoodPlace(n, n.threads[u]) {
        if u != t { OtherStaysGood(m, t, u, top); }
      }
    }
  }

  lemma {:induction false} NoReaders(threads: seq<Place>)
    requires forall t :: 0 <= t < |threads| ==> !Reading(threads[t])
    ensures Readers(threads) == 0
    decreases |threads|
  {
    if threads != [] { NoReaders(threads[..|threads| - 1]); }
  }

  lemma {:induction false} RunKeeps(m: Machine, schedule: seq<nat>)
    requires Start(m)
    ensures Inv(Run(m, schedule), m.lock / 2)
    decreases |schedule|
  {
    if schedule == [] {
      NoReaders(m.threads);
    } else {
      RunKeeps(m, schedule[..|schedule| - 1]);
      hide Inv, Step, Start;
      StepKeeps(Run(m, schedule[..|schedule| - 1]), schedule[|schedule| - 1], m.lock / 2);
    }
  }

  /** In every interleaving the lock has one holder at most, and its upper bits are as they were. */
  lemma MutualExclusion(m: Machine, schedule: seq<nat>, t: nat, u: nat)
    requires Start(m)
    ensures var n := Run(m, schedule);
      && (t < |n.threads| && u < |n.threads| && Holding(n.threads[t]) && Holding(n.threads[u]) ==> t == u)
      && n.lock / 2 == m.lock / 2 && n.readers == Readers(n.threads)
  {
    RunKeeps(m, schedule);
    hide Start, Run, Readers, Holding, GoodPlace;
  }

  /** No entry is linked while any thread walks the list. */
  lemma NoLinkWhileWalking(m: Machine, schedule: seq<nat>, t: nat, u: nat)
    requires Start(m)
    ensures var n := Run(m, schedule);
      t < |n.threads| && Step(n, t).entries != n.entries && u < |n.threads| ==> !Reading(n.threads[u])
  {
    RunKeeps(m, schedule);
    var n := Run(m, schedule);
    if t < |n.threads| && u < |n.threads| {
      assert GoodPlace(n, n.threads[t]);
      if Reading(n.threads[u]) { ReadersPositive(n.threads, u); }
    }
    hide Start, Run, Readers;
  }

  // ------------------------------------------------------------------ what a miss says

  function Group(b: nat): nat { b - b % 4 }

  function BlockOf(c: Place): nat { c.b }

  /** The thread has walked the list, then or before, without finding its block. */
  predicate Missed(c: Place) {
    match c
    case FindLoad(_, again) => again
    case FindSwap(_, again, _) => again
    case Enter(_, again) => again
    case FindUnlockLoad(_, again) => again
    case FindUnlock(_, again, _) => again
    case Walk(_, again, _) => again
    case Leave(_, again, found) => again || !found
    case Done(_, found) => !found
    case _ => true
  }

  /** The thread has nothing more to link. */
  predicate Past(c: Place) { c.LinkUnlockLoad? || c.LinkUnlock? || c.Done? }

  /** All threads are about to look a block up; the entries lie at multiples of four. */
  predicate FirstLookups(m: Machine) {
    && Start(m) && (forall t :: 0 <= t < |m.threads| ==> m.threads[t].FindLoad? && !m.threads[t].again)
    && (forall j :: 0 <= j < |m.entries| ==> m.entries[j] % 4 == 0)
  }

  predicate Different(s: seq<nat>) { forall i, j :: 0 <= i < j < |s| ==> s[i] != s[j] }

  /** What a thread knows of the entries: those it has walked past are not its block's, and after a miss none there at the start is. */
  ghost predicate Informed(m0: Machine, m: Machine, t: nat) {
    t < |m0.threads| && t < |m.threads| &&
    var c := m.threads[t];
    && BlockOf(c) == BlockOf(m0.threads[t])
    && (c.Walk? ==> forall j :: 0 <= j < c.i ==> !Found(m.entries, c.b, j))
    && (Missed(c) && !Past(c) ==> Group(c.b) !in m0.entries)
    && (c.Done? && !c.found ==> Group(c.b) !in m0.entries)
  }

  /** The entries are those at the start and then some, each aligned and linked by a thread that looked for it. */
  ghost predicate Grown(m0: Machine, m: Machine) {
    && |m.threads| == |m0.threads| && m0.entries <= m.entries
    && (forall j :: 0 <= j < |m.entries| ==> m.entries[j] % 4 == 0)
    && (forall j :: |m0.entries| <= j < |m.entries| ==> LinkedBy(m, j))
    && (forall t :: 0 <= t < |m.threads| ==> Informed(m0, m, t))
  }

  ghost predicate LinkedBy(m: Machine, j: nat) {
    j < |m.entries| && exists t :: 0 <= t < |m.threads| && Past(m.threads[t]) && Group(BlockOf(m.threads[t])) == m.entries[j]
  }

  lemma FoundIsGroup(m: Machine, b: nat, j: nat)
    requires j < |m.entries| && m.entries[j] % 4 == 0
    ensures Found(m.entries, b, j) <==> m.entries[j] == Group(b)
  {
  }

  /** A walk that comes to the end without finding its block shows that it is in no entry. */
  lemma WalkedAll(m0: Machine, m: Machine, t: nat)
    requires Grown(m0, m) && t < |m.threads| && m.threads[t].Walk? && m.threads[t].i >= |m.entries|
    ensures Group(m.threads[t].b) !in m0.entries
  {
    var c := m.threads[t];
    assert Informed(m0, m, t);
    forall j | 0 <= j < |m.entries| ensures m.entries[j] != Group(c.b) { FoundIsGroup(m, c.b, j); }
    forall j | 0 <= j < |m0.entries| ensures m0.entries[j] != Group(c.b) { assert m.entries[j] == m0.entries[j]; }
    hide Group, Found;
  }

  lemma MoverInformed(m0: Machine, m: Machine, t: nat)
    requires Grown(m0, m) && t < |m.threads|
    ensures Informed(m0, Step(m, t), t)
  {
    assert Informed(m0, m, t);
    var c := m.threads[t];
    if c.Walk? && c.i >= |m.entries| { WalkedAll(m0, m, t); }
    hide Grown, Group, Even, NewLock, NewReaders;
  }

  lemma OtherInformed(m0: Machine, m: Machine, t: nat, u: nat)
    requires Grown(m0, m) && t < |m.threads| && u < |m.threads| && u != t
    requires m.threads[u].Walk? ==> Step(m, t).entries == m.entries
    ensures Informed(m0, Step(m, t), u)
  {
    assert Informed(m0, m, u);
    hide Grown, Group, Even, NewLock, NewReaders, NewEntries, Next;
  }

  lemma PastStays(m: Machine, c: Place)
    ensures BlockOf(Next(m, c)) == BlockOf(c) && (Past(c) ==> Past(Next(m, c))) && (c.Link? ==> Past(Next(m, c)))
  {
  }

  lemma EntriesLinked(m0: Machine, m: Machine, t: nat)
    requires Grown(m0, m) && t < |m.threads|
    ensures var n := Step(m, t);
      && m0.entries <= n.entries && (forall j :: 0 <= j < |n.entries| ==> n.entries[j] % 4 == 0)
      && (forall j :: |m0.entries| <= j < |n.entries| ==> LinkedBy(n, j))
  {
    var n, c := Step(m, t), m.threads[t];
    PastStays(m, c);
    hide Next, NewLock, NewReaders, Informed, Past, BlockOf;
    forall j | |m0.entries| <= j < |n.entries| ensures LinkedBy(n, j) {
      if j < |m.entries| {
        assert LinkedBy(m, j);
        var u :| 0 <= u < |m.threads| && Past(m.threads[u]) && Group(BlockOf(m.threads[u])) == m.entries[j];
        assert Past(n.threads[u]) && Group(BlockOf(n.threads[u])) == n.entries[j];
      } else {
        assert Past(n.threads[t]) && Group(BlockOf(n.threads[t])) == n.entries[j];
      }
    }
  }

  lemma StepGrows(m0: Machine, m: Machine, t: nat, top: nat)
    requires Grown(m0, m) && Inv(m, top)
    ensures Grown(m0, Step(m, t))
  {
    if t < |m.threads| {
      EntriesLinked(m0, m, t);
      MoverInformed(m0, m, t);
      forall u | 0 <= u < |m.threads| && m.threads[u].Walk? ensures Step(m, t).entries == m.entries {
        WalkersSeeNoLink(m, t, u, top);
      }
      hide Inv, Informed, Step, LinkedBy;
      StepShape(m, t);
      forall u | 0 <= u < |m.threads| ensures Informed(m0, Step(m, t), u) {
        if u != t { OtherInformed(m0, m, t, u); }
      }
    }
  }

  lemma StepShape(m: Machine, t: nat)
    ensures |Step(m, t).threads| == |m.threads|
  {
  }

  lemma WalkersSeeNoLink(m: Machine, t: nat, u: nat, top: nat)
    requires Inv(m, top) && t < |m.threads| && u < |m.threads| && m.threads[u].Walk?
    ensures Step(m, t).entries == m.entries
  {
    assert GoodPlace(m, m.threads[t]);
    ReadersPositive(m.threads, u);
    hide Readers, Next, NewLock, NewReaders;
  }

  lemma {:induction false} RunGrows(m: Machine, schedule: seq<nat>)
    requires FirstLookups(m)
    ensures Grown(m, Run(m, schedule)) && Inv(Run(m, schedule), m.lock / 2)
    decreases |schedule|
  {
    RunKeeps(m, schedule);
    if schedule == [] {
      hide Group;
    } else {
      RunGrows(m, schedule[..|schedule| - 1]);
      hide Inv, Step, Grown, FirstLookups;
      StepGrows(m, Run(m, schedule[..|schedule| - 1]), schedule[|schedule| - 1], m.lock / 2);
    }
  }

  // ------------------------------------------------------------------ when no block is cached twice

  /** Whenever two threads look for blocks of one group, that group is cached already. */
  predicate NoSharedMiss(m: Machine) {
    forall t, u :: 0 <= t < |m.threads| && 0 <= u < |m.threads| && t != u
      ==> Group(BlockOf(m.threads[t])) != Group(BlockOf(m.threads[u])) || Group(BlockOf(m.threads[t])) in m.entries
  }

  /** A thread about to link finds no entry of its group, if nobody else looks for that group. */
  lemma LinksNew(m0: Machine, m: Machine, t: nat)
    requires Grown(m0, m) && NoSharedMiss(m0) && t < |m.threads| && m.threads[t].Link?
    ensures Group(m.threads[t].b) !in m.entries
  {
    assert Informed(m0, m, t);
    var g := Group(m.threads[t].b);
    hide Group, Found;
    forall j | 0 <= j < |m.entries| ensures m.entries[j] != g {
      if j >= |m0.entries| {
        assert LinkedBy(m, j);
        var u :| 0 <= u < |m.threads| && Past(m.threads[u]) && Group(BlockOf(m.threads[u])) == m.entries[j];
        assert Informed(m0, m, u);
      }
    }
  }

  lemma {:induction false} CachedOnce(m: Machine, schedule: seq<nat>)
    requires FirstLookups(m) && Different(m.entries) && NoSharedMiss(m)
    ensures Different(Run(m, schedule).entries)
    decreases |schedule|
  {
    if schedule != [] {
      var before, t := schedule[..|schedule| - 1], schedule[|schedule| - 1];
      CachedOnce(m, before);
      RunGrows(m, before);
      var n := Run(m, before);
      hide Inv, Grown, FirstLookups, NoSharedMiss, Next, NewLock, NewReaders, Run;
      if t < |n.threads| && n.threads[t].Link? { LinksNew(m, n, t); }
    }
  }

  function Repeat(m: Machine, t: nat, k: nat): Machine { if k == 0 then m else Step(Repeat(m, t, k - 1), t) }

  /** A thread's next k steps, put behind a schedule. */
  lemma {:induction false} Extended(m: Machine, schedule: seq<nat>, t: nat, k: nat) returns (more: seq<nat>)
    ensures Run(m, more) == Repeat(Run(m, schedule), t, k)
    decreases k
  {
    if k == 0 {
      more := schedule;
    } else {
      var less := Extended(m, schedule, t, k - 1);
      more := less + [t];
      assert more[..|more| - 1] == less;
    }
  }

  lemma {:induction false} RepeatAgain(m: Machine, t: nat, j: nat, k: nat)
    ensures Repeat(Repeat(m, t, j), t, k) == Repeat(m, t, j + k)
    decreases k
  {
    hide Step;
    if k > 0 { RepeatAgain(m, t, j, k - 1); }
  }

  /** The machine with one thread moved. */
  function Moved(m: Machine, t: nat, c: Place): Machine
    requires t < |m.threads|
  {
    m.(threads := m.threads[t := c])
  }

  lemma MovedOn(m: Machine, t: nat, c: Place, d: Place, r: nat, r': nat)
    requires t < |m.threads|
    ensures Moved(Moved(m, t, c).(readers := r), t, d).(readers := r') == Moved(m, t, d).(readers := r')
  {
  }

  lemma OneMore(m: Machine, t: nat, k: nat, n: Machine)
    requires Repeat(m, t, k) == n
    ensures Repeat(m, t, k + 1) == Step(n, t)
  {
  }

  lemma StartsAt(m: Machine, t: nat)
    ensures Repeat(m, t, 0) == m
    ensures m.lock % 2 == 0 ==> Even(m.lock) == m.lock && Even(m.lock + 1) == m.lock
  {
  }

  /** The thread announces itself as a reader. */
  lemma BeginsWalk(m: Machine, t: nat, b: nat, again: bool)
    requires t < |m.threads| && m.threads[t] == FindLoad(b, again) && m.lock % 2 == 0 && m.readers + 1 < WORD32
    ensures Repeat(m, t, 5) == Moved(m, t, Walk(b, again, 0)).(readers := m.readers + 1)
  {
    StartsAt(m, t);
    hide Repeat, Even;
    OneMore(m, t, 0, m);
    OneMore(m, t, 1, Moved(m, t, FindSwap(b, again, m.lock)));
    OneMore(m, t, 2, Moved(m, t, Enter(b, again)).(lock := m.lock + 1));
    OneMore(m, t, 3, Moved(m, t, FindUnlockLoad(b, again)).(lock := m.lock + 1, readers := m.readers + 1));
    OneMore(m, t, 4, Moved(m, t, FindUnlock(b, again, m.lock)).(lock := m.lock + 1, readers := m.readers + 1));
  }

  lemma {:induction false} WalksOn(m: Machine, t: nat, b: nat, again: bool, k: nat)
    requires t < |m.threads| && m.threads[t] == Walk(b, again, 0) && k <= |m.entries|
    requires forall j :: 0 <= j < k ==> !Found(m.entries, b, j)
    ensures Repeat(m, t, k) == Moved(m, t, Walk(b, again, k))
    decreases k
  {
    if k > 0 {
      WalksOn(m, t, b, again, k - 1);
      hide Repeat, Found, Even;
      assert Repeat(m, t, k) == Step(Repeat(m, t, k - 1), t);
    }
  }

  lemma EndsWalk(m: Machine, t: nat, b: nat, again: bool)
    requires t < |m.threads| && m.threads[t] == Walk(b, again, |m.entries|) && 0 < m.readers < WORD32
    ensures Repeat(m, t, 2) == Moved(m, t, AfterLeave(b, again, false)).(readers := m.readers - 1)
  {
    assert m.readers + WORD32 - 1 == WORD32 + (m.readers - 1);
    assert (m.readers + WORD32 - 1) % WORD32 == m.readers - 1;
    assert Repeat(m, t, 1) == Moved(m, t, Leave(b, again, false));
  }

  /** A lookup that nobody else disturbs, of a block that is in no entry. */
  lemma LooksUp(m: Machine, t: nat, b: nat, again: bool)
    requires t < |m.threads| && m.threads[t] == FindLoad(b, again) && m.lock % 2 == 0 && m.readers + 1 < WORD32
    requires forall j :: 0 <= j < |m.entries| ==> !Found(m.entries, b, j)
    ensures Repeat(m, t, 5 + |m.entries| + 2) == Moved(m, t, AfterLeave(b, again, false))
  {
    BeginsWalk(m, t, b, again);
    var m1 := Moved(m, t, Walk(b, again, 0)).(readers := m.readers + 1);
    hide Found, Repeat, AfterLeave, Step;
    WalksOn(m1, t, b, again, |m.entries|);
    var m2 := Moved(m1, t, Walk(b, again, |m.entries|));
    EndsWalk(m2, t, b, again);
    MovedOn(m, t, Walk(b, again, 0), Walk(b, again, |m.entries|), m.readers + 1, m.readers + 1);
    MovedOn(m, t, Walk(b, again, |m.entries|), AfterLeave(b, again, false), m.readers + 1, m.readers);
    hide Moved;
    RepeatAgain(m, t, 5, |m.entries|);
    RepeatAgain(m, t, 5 + |m.entries|, 2);
  }

  /** From there it links an entry, whatever has been linked in the meantime. */
  lemma LinksAnyway(m: Machine, t: nat, b: nat)
    requires t < |m.threads| && m.threads[t] == TryLoad(b) && m.lock % 2 == 0 && m.readers == 0
    ensures Repeat(m, t, 6) == Moved(m, t, Done(b, true)).(entries := m.entries + [Group(b)])
  {
    StartsAt(m, t);
    hide Repeat, Even;
    OneMore(m, t, 0, m);
    OneMore(m, t, 1, Moved(m, t, TrySwap(b, m.lock)));
    OneMore(m, t, 2, Moved(m, t, AwaitReaders(b)).(lock := m.lock + 1));
    OneMore(m, t, 3, Moved(m, t, Link(b)).(lock := m.lock + 1));
    OneMore(m, t, 4, Moved(m, t, LinkUnlockLoad(b)).(lock := m.lock + 1, entries := m.entries + [Group(b)]));
    OneMore(m, t, 5, Moved(m, t, LinkUnlock(b, m.lock)).(lock := m.lock + 1, entries := m.entries + [Group(b)]));
  }

  lemma AbsentNotFound(m: Machine, b: nat)
    requires Group(b) !in m.entries && forall j :: 0 <= j < |m.entries| ==> m.entries[j] % 4 == 0
    ensures forall j :: 0 <= j < |m.entries| ==> !Found(m.entries, b, j)
  {
    forall j | 0 <= j < |m.entries| ensures !Found(m.entries, b, j) { FoundIsGroup(m, b, j); }
  }

  /** Two threads that miss blocks of one group, one after the other, both link an entry for it. */
  lemma TwoMissesLinkTwice(m: Machine, t: nat, u: nat) returns (schedule: seq<nat>)
    requires FirstLookups(m) && t < |m.threads| && u < |m.threads| && t != u
    requires var g := Group(BlockOf(m.threads[t])); g == Group(BlockOf(m.threads[u])) && g !in m.entries
    ensures var g := Group(BlockOf(m.threads[t])); Run(m, schedule).entries == m.entries + [g] + [g]
  {
    var b, d := m.threads[t].b, m.threads[u].b;
    assert m.threads[t] == FindLoad(b, false) && m.threads[u] == FindLoad(d, false);
    AbsentNotFound(m, b);
    AbsentNotFound(m, d);
    var k := 5 + |m.entries| + 2;
    var m1 := Moved(m, t, TryLoad(b));
    hide Found, Repeat, Group, Step;
    LooksUp(m, t, b, false);
    LooksUp(m1, u, d, false);
    var m2 := Moved(m1, u, TryLoad(d));
    LinksAnyway(m2, t, b);
    var m3 := Moved(m2, t, Done(b, true)).(entries := m.entries + [Group(b)]);
    LinksAnyway(m3, u, d);
    schedule := Extended(m, [], t, k);
    schedule := Extended(m, schedule, u, k);
    schedule := Extended(m, schedule, t, 6);
    schedule := Extended(m, schedule, u, 6);
  }

  /** In every interleaving no block is cached twice, exactly when no two threads miss blocks of the same group. */
  lemma CachedOnceIff(m: Machine)
    requires FirstLookups(m) && Different(m.entries)
    ensures (forall schedule: seq<nat> :: Different(Run(m, schedule).entries)) <==> NoSharedMiss(m)
  {
    if NoSharedMiss(m) {
      forall schedule: seq<nat> ensures Different(Run(m, schedule).entries) { CachedOnce(m, schedule); }
    } else {
      hide Group, FirstLookups;
      var t, u :| 0 <= t < |m.threads| && 0 <= u < |m.threads| && t != u
        && Group(BlockOf(m.threads[t])) == Group(BlockOf(m.threads[u])) && Group(BlockOf(m.threads[t])) !in m.entries;
      var schedule := TwoMissesLinkTwice(m, t, u);
      var e, k := Run(m, schedule).entries, |m.entries|;
      assert e[k] == e[k + 1];
    }
  }

  // ------------------------------------------------------------------ when the second lookup finds an entry

  /** Alone, a thread always gets the lock it tries for. */
  ghost predicate Undisturbed(m: Machine) {
    |m.threads| == 1 &&
    var c := m.threads[0];
    (c.TrySwap? ==> c.even == m.lock) && !c.AwaitLock? && (Missed(c) ==> c.Leave? || c.TryLoad? || c.TrySwap? || c.AwaitReaders? || c.Link? || Past(c))
    && (c.Leave? ==> !c.again) && (c.Done? ==> c.found)
  }

  lemma StepUndisturbed(m: Machine, t: nat, top: nat)
    requires Inv(m, top) && Undisturbed(m)
    ensures Undisturbed(Step(m, t))
  {
    hide Readers, Found;
  }

  lemma {:induction false} AloneFinds(m: Machine, schedule: seq<nat>)
    requires FirstLookups(m) && |m.threads| == 1
    ensures Undisturbed(Run(m, schedule))
    decreases |schedule|
  {
    if schedule != [] {
      AloneFinds(m, schedule[..|schedule| - 1]);
      RunKeeps(m, schedule[..|schedule| - 1]);
      hide Inv, Undisturbed, Step, FirstLookups;
      StepUndisturbed(Run(m, schedule[..|schedule| - 1]), schedule[|schedule| - 1], m.lock / 2);
    }
  }

  lemma FailsToLock(m: Machine, t: nat, b: nat)
    requires t < |m.threads| && m.threads[t] == TryLoad(b) && m.lock % 2 == 1
    ensures Repeat(m, t, 2) == Moved(m, t, AwaitLock(b))
  {
    StartsAt(m, t);
    hide Repeat;
    OneMore(m, t, 0, m);
    OneMore(m, t, 1, Moved(m, t, TrySwap(b, m.lock - 1)));
  }

  lemma LeavesLock(m: Machine, u: nat, d: nat)
    requires u < |m.threads| && m.threads[u] == Enter(d, false) && m.lock % 2 == 1 && m.readers == 0
    ensures Repeat(m, u, 3) == Moved(m, u, Walk(d, false, 0)).(lock := m.lock - 1, readers := 1)
  {
    StartsAt(m, u);
    hide Repeat;
    OneMore(m, u, 0, m);
    OneMore(m, u, 1, Moved(m, u, FindUnlockLoad(d, false)).(readers := 1));
    OneMore(m, u, 2, Moved(m, u, FindUnlock(d, false, m.lock - 1)).(readers := 1));
  }

  /** The other thread holds the lock for a moment, just when this one tries for it. */
  lemma LosesToReader(m: Machine, t: nat, u: nat, b: nat, d: nat) returns (schedule: seq<nat>)
    requires t < |m.threads| && u < |m.threads| && t != u && m.lock % 2 == 0 && m.readers == 0
    requires m.threads[t] == TryLoad(b) && m.threads[u] == FindLoad(d, false)
    ensures Run(m, schedule) == Moved(Moved(m, t, FindLoad(b, true)), u, Walk(d, false, 0)).(readers := 1)
  {
    StartsAt(m, u);
    hide Repeat, Even;
    OneMore(m, u, 0, m);
    OneMore(m, u, 1, Moved(m, u, FindSwap(d, false, m.lock)));
    var m1 := Moved(m, u, Enter(d, false)).(lock := m.lock + 1);
    assert Repeat(m, u, 2) == m1;
    var m2 := Moved(m1, t, AwaitLock(b));
    FailsToLock(m1, t, b);
    var m3 := Moved(m2, u, Walk(d, false, 0)).(lock := m.lock, readers := 1);
    LeavesLock(m2, u, d);
    StartsAt(m3, t);
    OneMore(m3, t, 0, m3);
    assert Step(m3, t) == Moved(m3, t, FindLoad(b, true));
    hide Step;
    assert m3.threads[t := FindLoad(b, true)] == m.threads[t := FindLoad(b, true)][u := Walk(d, false, 0)];
    schedule := Extended(m, [], u, 2);
    schedule := Extended(m, schedule, t, 2);
    schedule := Extended(m, schedule, u, 3);
    schedule := Extended(m, schedule, t, 1);
  }

  /** The thread has finished, and has no entry. */
  predicate EndsWithout(m: Machine, t: nat) { t < |m.threads| && m.threads[t].Done? && !m.threads[t].found }

  lemma MissesAgain(m: Machine, t: nat, u: nat, b: nat, d: nat) returns (schedule: seq<nat>)
    requires t < |m.threads| && u < |m.threads| && t != u && m.lock % 2 == 0 && m.readers == 0
    requires m.threads[t] == TryLoad(b) && m.threads[u] == FindLoad(d, false)
    requires forall j :: 0 <= j < |m.entries| ==> !Found(m.entries, b, j)
    ensures EndsWithout(Run(m, schedule), t)
  {
    var m2 := Moved(Moved(m, t, FindLoad(b, true)), u, Walk(d, false, 0)).(readers := 1);
    hide Found, Repeat, Step, Run;
    schedule := LosesToReader(m, t, u, b, d);
    LooksUp(m2, t, b, true);
    schedule := Extended(m, schedule, t, 5 + |m.entries| + 2);
  }

  /** A thread that misses, loses the lock to a reader, and misses again, has no entry to go on with. */
  lemma MissesTwice(m: Machine, t: nat, u: nat) returns (schedule: seq<nat>)
    requires FirstLookups(m) && t < |m.threads| && u < |m.threads| && t != u && Group(m.threads[t].b) !in m.entries
    ensures EndsWithout(Run(m, schedule), t)
  {
    var b, d := m.threads[t].b, m.threads[u].b;
    assert m.threads[t] == FindLoad(b, false) && m.threads[u] == FindLoad(d, false);
    AbsentNotFound(m, b);
    hide Found, Repeat, Group, Step, Run, EndsWithout;
    LooksUp(m, t, b, false);
    var s1 := Extended(m, [], t, 5 + |m.entries| + 2);
    assert Run(m, s1) == Moved(m, t, TryLoad(b)) by { RunEmpty(m); }
    var s2 := MissesAgain(Moved(m, t, TryLoad(b)), t, u, b, d);
    schedule := RunJoined(m, s1, s2);
  }

  lemma RunEmpty(m: Machine)
    ensures Run(m, []) == m
  {
  }

  lemma {:induction false} RunJoined(m: Machine, s1: seq<nat>, s2: seq<nat>) returns (s: seq<nat>)
    ensures Run(m, s) == Run(Run(m, s1), s2)
    decreases |s2|
  {
    if s2 == [] {
      s := s1;
    } else {
      var less := RunJoined(m, s1, s2[..|s2| - 1]);
      s := less + [s2[|s2| - 1]];
      assert s[..|s| - 1] == less;
    }
  }

  lemma WithoutMeans(m0: Machine, n: Machine, t: nat)
    requires Grown(m0, n) && EndsWithout(n, t)
    ensures t < |m0.threads| && Group(BlockOf(m0.threads[t])) !in m0.entries
  {
    assert Informed(m0, n, t);
    hide Group;
  }

  /** A thread can come back without an entry exactly when its block's group is not cached and there is another thread. */
  lemma ComesBackWithoutIff(m: Machine, t: nat)
    requires FirstLookups(m) && t < |m.threads|
    ensures (exists schedule: seq<nat> :: EndsWithout(Run(m, schedule), t)) <==> Group(BlockOf(m.threads[t])) !in m.entries && |m.threads| > 1
  {
    if Group(BlockOf(m.threads[t])) !in m.entries && |m.threads| > 1 {
      var u := if t == 0 then 1 else 0;
      var schedule := MissesTwice(m, t, u);
      hide FirstLookups, Group, Run;
      assert EndsWithout(Run(m, schedule), t);
    }
    forall schedule: seq<nat> | EndsWithout(Run(m, schedule), t)
      ensures Group(BlockOf(m.threads[t])) !in m.entries && |m.threads| > 1
    {
      RunGrows(m, schedule);
      WithoutMeans(m, Run(m, schedule), t);
      if |m.threads| == 1 { AloneFinds(m, schedule); }
      hide Inv, Run, Group, Grown, Missed;
    }
  }
}
