/**
  Nobody is stuck in the reader and writer protocol on a cache set (kernel/fs/pup.c): whoever waits, waits
  for somebody who can go on.
 */
module CacheSetProgress {
  import opened CacheSetLock

  /** A thread about to swap has seen the word as it is when nobody holds the lock. */
  predicate Seen(c: Place, top: nat) { c.FindSwap? || c.TrySwap? ==> c.even == 2 * top }

  predicate AllSeen(m: Machine, top: nat) { forall t :: 0 <= t < |m.threads| ==> Seen(m.threads[t], top) }

  lemma SeenKeeps(m: Machine, t: nat, top: nat)
    requires m.lock / 2 == top && AllSeen(m, top)
    ensures AllSeen(Step(m, t), top)
  {
    hide Found, NewLock, NewReaders, NewEntries;
  }

  lemma {:induction false} RunSeen(m: Machine, schedule: seq<nat>)
    requires Start(m)
    ensures AllSeen(Run(m, schedule), m.lock / 2)
    decreases |schedule|
  {
    hide Step, Inv;
    if schedule != [] {
      RunSeen(m, schedule[..|schedule| - 1]);
      RunKeeps(m, schedule[..|schedule| - 1]);
      LockTop(Run(m, schedule[..|schedule| - 1]), m.lock / 2);
      SeenKeeps(Run(m, schedule[..|schedule| - 1]), schedule[|schedule| - 1], m.lock / 2);
    }
  }

  lemma LockTop(m: Machine, top: nat)
    requires Inv(m, top)
    ensures m.lock / 2 == top
  {
  }

  /** The threads that may still link an entry. */
  function Linkers(threads: seq<Place>): nat {
    if threads == [] then 0
    else Linkers(threads[..|threads| - 1]) + (if Past(threads[|threads| - 1]) then 0 else 1)
  }

  /** No more entries than this will there ever be. */
  function Room(m: Machine): nat { |m.entries| + Linkers(m.threads) }

  /** The steps a thread has before it when it never finds the lock taken, with k entries in the end. */
  function Dist(c: Place, k: nat): nat {
    match c
    case Done(_, _) => 0
    case LinkUnlock(_, _) => 1
    case LinkUnlockLoad(_) => 2
    case Link(_) => 3
    case AwaitReaders(_) => 4
    case TrySwap(_, _) => k + 9
    case TryLoad(_) => k + 10
    case AwaitLock(_) => k + 8
    case Leave(_, again, _) => Lookup(again, k, 1)
    case Walk(_, again, i) => Lookup(again, k, 2 + if i < k then k - i else 0)
    case FindUnlock(_, again, _) => Lookup(again, k, k + 3)
    case FindUnlockLoad(_, again) => Lookup(again, k, k + 4)
    case Enter(_, again) => Lookup(again, k, k + 5)
    case FindSwap(_, again, _) => Lookup(again, k, k + 6)
    case FindLoad(_, again) => Lookup(again, k, k + 7)
  }

  /** The first lookup has all of the second, and the attempt to link, still before it. */
  function Lookup(again: bool, k: nat, steps: nat): nat { if again then steps else steps + k + 10 }

  function TotalDist(threads: seq<Place>, k: nat): nat {
    if threads == [] then 0 else TotalDist(threads[..|threads| - 1], k) + Dist(threads[|threads| - 1], k)
  }

  lemma {:induction false} LinkersMoved(threads: seq<Place>, t: nat, c: Place)
    requires t < |threads|
    ensures Linkers(threads[t := c]) == Linkers(threads) + (if Past(threads[t]) then 1 else 0) - (if Past(c) then 1 else 0)
    decreases |threads|
  {
    hide Past;
    var n := |threads| - 1;
    var more := threads[t := c];
    if t < n {
      LinkersMoved(threads[..n], t, c);
      assert more[..n] == threads[..n][t := c];
    } else {
      assert more[..n] == threads[..n];
    }
  }

  lemma {:induction false} LinkersPositive(threads: seq<Place>, t: nat)
    requires t < |threads| && !Past(threads[t])
    ensures Linkers(threads) > 0
    decreases |threads|
  {
    if t < |threads| - 1 { LinkersPositive(threads[..|threads| - 1], t); }
  }

  lemma RoomShrinks(m: Machine, t: nat)
    requires t < |m.threads|
    ensures Room(Step(m, t)) <= Room(m)
  {
    LinkersMoved(m.threads, t, Next(m, m.threads[t]));
    hide Linkers, Found, NewLock, NewReaders;
  }

  lemma {:induction false} TotalMoved(threads: seq<Place>, t: nat, c: Place, j: nat, k: nat)
    requires t < |threads| && j <= k && Dist(c, j) < Dist(threads[t], k)
    ensures TotalDist(threads[t := c], j) < TotalDist(threads, k)
    decreases |threads|
  {
    hide Dist;
    var n := |threads| - 1;
    var more := threads[t := c];
    if t < n {
      TotalMoved(threads[..n], t, c, j, k);
      assert more[..n] == threads[..n][t := c];
      DistGrows(threads[n], j, k);
    } else {
      assert more[..n] == threads[..n];
      TotalGrows(threads[..n], j, k);
    }
  }

  lemma {:induction false} TotalGrows(threads: seq<Place>, j: nat, k: nat)
    requires j <= k
    ensures TotalDist(threads, j) <= TotalDist(threads, k)
    decreases |threads|
  {
    hide Dist;
    if threads != [] {
      TotalGrows(threads[..|threads| - 1], j, k);
      DistGrows(threads[|threads| - 1], j, k);
    }
  }

  lemma DistGrows(c: Place, j: nat, k: nat)
    requires j <= k
    ensures Dist(c, j) <= Dist(c, k)
  {
  }

  /** Who can go on: the lock's holder, or a reader the holder waits for, or anybody when the lock is free. */
  predicate CanGo(m: Machine, c: Place) {
    !c.Done? && (m.lock % 2 == 0 || (Holding(c) && (c.AwaitReaders? ==> m.readers == 0)) || c.Walk? || c.Leave?)
  }

  lemma GoesOn(m: Machine, t: nat, top: nat)
    requires m.lock / 2 == top && t < |m.threads| && Seen(m.threads[t], top) && CanGo(m, m.threads[t])
    requires m.lock % 2 == 0 ==> !Holding(m.threads[t])
    ensures Dist(Next(m, m.threads[t]), Room(m)) < Dist(m.threads[t], Room(m))
  {
    if !Past(m.threads[t]) { LinkersPositive(m.threads, t); }
    hide Linkers, Found;
  }

  lemma SomebodyCanGo(m: Machine, t: nat, top: nat) returns (u: nat)
    requires Inv(m, top) && t < |m.threads| && !m.threads[t].Done?
    ensures u < |m.threads| && CanGo(m, m.threads[u])
  {
    hide GoodPlace;
    if m.lock % 2 == 0 { return t; }
    u :| 0 <= u < |m.threads| && Holding(m.threads[u]);
    if m.threads[u].AwaitReaders? && m.readers != 0 {
      var r := SomebodyReads(m.threads);
      assert Holding(m.threads[r]) ==> r == u;
      u := r;
    }
  }

  lemma {:induction false} SomebodyReads(threads: seq<Place>) returns (r: nat)
    requires Readers(threads) != 0
    ensures r < |threads| && Reading(threads[r])
    decreases |threads|
  {
    hide Reading;
    r := |threads| - 1;
    if !Reading(threads[r]) { r := SomebodyReads(threads[..r]); }
  }

  lemma FreeIsNotHeld(m: Machine, u: nat, top: nat)
    requires Inv(m, top) && u < |m.threads|
    ensures m.lock / 2 == top && (m.lock % 2 == 0 ==> !Holding(m.threads[u]))
  {
    hide GoodPlace, Readers;
  }

  predicate AllDone(m: Machine) { forall t :: 0 <= t < |m.threads| ==> m.threads[t].Done? }

  lemma RunConcat(m: Machine, a: seq<nat>, t: nat)
    ensures Run(m, a + [t]) == Step(Run(m, a), t)
  {
    assert (a + [t])[..|a|] == a;
    hide Step;
  }

  lemma StepOn(n: Machine, u: nat, top: nat)
    requires Inv(n, top) && AllSeen(n, top) && u < |n.threads| && CanGo(n, n.threads[u])
    ensures var w := Step(n, u); TotalDist(w.threads, Room(w)) < TotalDist(n.threads, Room(n))
  {
    FreeIsNotHeld(n, u, top);
    hide Inv, TotalDist, Room, Dist, Next, NewLock, NewReaders, NewEntries, CanGo, Holding, Seen;
    assert Seen(n.threads[u], top);
    GoesOn(n, u, top);
    RoomShrinks(n, u);
    DistGrows(Next(n, n.threads[u]), Room(Step(n, u)), Room(n));
    TotalMoved(n.threads, u, Next(n, n.threads[u]), Room(Step(n, u)), Room(n));
  }

  /** No deadlock: from every reachable state there is a way on by which all threads come back. */
  lemma {:induction false} NoDeadlock(m: Machine, schedule: seq<nat>) returns (more: seq<nat>)
    requires Start(m)
    ensures AllDone(Run(m, schedule + more))
    decreases TotalDist(Run(m, schedule).threads, Room(Run(m, schedule)))
  {
    var n := Run(m, schedule);
    RunKeeps(m, schedule);
    RunSeen(m, schedule);
    hide Inv, Start, Step, Run, AllSeen, CanGo, TotalDist, Room;
    more := [];
    assert schedule + more == schedule;
    if t :| 0 <= t < |n.threads| && !n.threads[t].Done? {
      var u := SomebodyCanGo(n, t, m.lock / 2);
      StepOn(n, u, m.lock / 2);
      RunConcat(m, schedule, u);
      var rest := NoDeadlock(m, schedule + [u]);
      more := [u] + rest;
      assert schedule + more == schedule + [u] + rest;
    }
  }
}
