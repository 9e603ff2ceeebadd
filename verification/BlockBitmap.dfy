/**
  Allocating blocks from the bitmap in memory (kernel/fs/pup.c) by any number of threads at once.
  Reading a byte and swapping a byte, if it is still as read, are single steps; between them
  anything may happen.
 */
module BlockBitmap {
  import opened Arithmetic
  import opened Bits

  const NULL_LINK: nat := 0

  // ------------------------------------------------------------------ bits of a byte

  function Bit(k: nat): bv8 {
    if k == 0 then 0x01 else if k == 1 then 0x02 else if k == 2 then 0x04 else if k == 3 then 0x08
    else if k == 4 then 0x10 else if k == 5 then 0x20 else if k == 6 then 0x40 else 0x80
  }

  predicate HasBit(b: bv8, k: nat) { b & Bit(k) != 0 }

  lemma SetBit(b: bv8, k: nat, i: nat)
    requires k < 8 && i < 8
    ensures HasBit(b | Bit(k), i) <==> i == k || HasBit(b, i)
  {
  }

  /** Bit k is the one that counts 2^k in the byte. */
  lemma BitCounts(b: bv8, k: nat)
    requires k < 8
    ensures HasBit(b, k) <==> b as int / Pow2(k) % 2 == 1
    ensures !HasBit(b, k) ==> (b | Bit(k)) as int == b as int + Pow2(k)
  {
    hide HasBit, Bit, Pow2;
    ByteBackAgain(b);
    MaskFinds(b as int, k);
    MaskAdds(b, k);
  }

  lemma MaskFinds(n: nat, k: nat)
    requires n < 256 && k < 8
    ensures HasBit(n as bv8, k) <==> n / Pow2(k) % 2 == 1
  {
    hide Pow2;
    Pow2Values();
    ByteBits(n);
  }

  lemma MaskAdds(b: bv8, k: nat)
    requires k < 8
    ensures !HasBit(b, k) ==> (b | Bit(k)) as int == b as int + Pow2(k)
  {
    hide HasBit, Bit, Pow2;
    if k < 4 { LowMaskAdds(b, k); } else { HighMaskAdds(b, k); }
  }

  lemma LowMaskAdds(b: bv8, k: nat)
    requires k < 4
    ensures !HasBit(b, k) ==> (b | Bit(k)) as int == b as int + Pow2(k)
  {
    hide Pow2;
    Pow2Values();
    LowBitsAdd(b);
  }

  lemma HighMaskAdds(b: bv8, k: nat)
    requires 4 <= k < 8
    ensures !HasBit(b, k) ==> (b | Bit(k)) as int == b as int + Pow2(k)
  {
    hide Pow2;
    Pow2Values();
    HighBitsAdd(b);
  }

  // ------------------------------------------------------------------ the machine

  /** Where a thread is in its search, and with which result it ended. */
  datatype Place = Scan(j: nat) | Swap(j: nat, seen: bv8) | Done(link: nat)

  /** start is the first allocatable block, count how many there are. */
  datatype Machine = Machine(bytes: seq<bv8>, start: nat, count: nat, threads: seq<Place>)

  predicate IsSet(bytes: seq<bv8>, j: nat) { j / 8 < |bytes| && HasBit(bytes[j / 8], j % 8) }

  function Marked(bytes: seq<bv8>, j: nat): seq<bv8> {
    if j / 8 < |bytes| then bytes[j / 8 := bytes[j / 8] | Bit(j % 8)] else bytes
  }

  /** Block j has the bit that counts 2^(j % 8) in byte j / 8; past the last byte no bit is set. */
  lemma IsSetCounts(bytes: seq<bv8>, j: nat)
    ensures IsSet(bytes, j) <==> j / 8 < |bytes| && bytes[j / 8] as int / Pow2(j % 8) % 2 == 1
  {
    if j / 8 < |bytes| { BitCounts(bytes[j / 8], j % 8); }
    hide HasBit, Pow2;
  }

  /** The byte of block j has 2^(j % 8) more, and no other byte is changed. */
  predicate BitAdded(before: seq<bv8>, after: seq<bv8>, j: nat) {
    && |after| == |before| && j / 8 < |before|
    && after[j / 8] as int == before[j / 8] as int + Pow2(j % 8)
    && forall i :: 0 <= i < |before| && i != j / 8 ==> after[i] == before[i]
  }

  lemma MarkedAdds(bytes: seq<bv8>, j: nat)
    requires j / 8 < |bytes| && !IsSet(bytes, j)
    ensures BitAdded(bytes, Marked(bytes, j), j)
  {
    BitCounts(bytes[j / 8], j % 8);
    hide HasBit, Pow2, Bit;
  }

  function StepThread(m: Machine, t: nat): Machine
    requires t < |m.threads|
  {
    match m.threads[t]
    case Scan(j) => m.(threads := m.threads[t := AfterScan(m, j)])
    case Swap(j, seen) =>
      if j / 8 < |m.bytes| && m.bytes[j / 8] == seen then
        m.(bytes := Marked(m.bytes, j), threads := m.threads[t := Done(m.start + j)])
      else m.(threads := m.threads[t := Scan(0)])       // the index wraps round and the search begins again
    case Done(_) => m
  }

  function AfterScan(m: Machine, j: nat): Place {
    if j >= m.count || j / 8 >= |m.bytes| then Done(NULL_LINK)
    else if HasBit(m.bytes[j / 8], j % 8) then Scan(j + 1)
    else Swap(j, m.bytes[j / 8])
  }

  function Step(m: Machine, t: nat): Machine { if t < |m.threads| then StepThread(m, t) else m }

  function Run(m: Machine, schedule: seq<nat>): Machine {
    if schedule == [] then m else Step(Run(m, schedule[..|schedule| - 1]), schedule[|schedule| - 1])
  }

  /** All threads begin their search; there is a bit for every block, and block 0 is never allocatable. */
  predicate Start(m: Machine) {
    m.count <= 8 * |m.bytes| && m.start > 0 && forall t :: 0 <= t < |m.threads| ==> m.threads[t] == Scan(0)
  }

  // ------------------------------------------------------------------ what every interleaving keeps

  predicate Got(m: Machine, t: nat) { t < |m.threads| && m.threads[t].Done? && m.threads[t].link != NULL_LINK }

  /** The bits below j are set. */
  ghost predicate SetBelow(bytes: seq<bv8>, j: nat) { forall i: nat :: i < j ==> IsSet(bytes, i) }

  /** Bits are never cleared here, so what a thread has passed stays set. */
  ghost predicate GoodPlace(m: Machine, c: Place) {
    match c
    case Scan(j) => j <= m.count && SetBelow(m.bytes, j)
    case Swap(j, seen) => j < m.count && !HasBit(seen, j % 8) && SetBelow(m.bytes, j)
    case Done(link) => if link == NULL_LINK then SetBelow(m.bytes, m.count) else (m.start <= link < m.start + m.count && IsSet(m.bytes, link - m.start))
  }

  predicate WasFree(m: Machine, bytes0: seq<bv8>, link: nat) { m.start <= link && !IsSet(bytes0, link - m.start) }

  /** bytes0 is the bitmap everything began with. */
  ghost predicate Inv(m: Machine, bytes0: seq<bv8>) {
    && m.count <= 8 * |m.bytes| && m.start > 0 && |m.bytes| == |bytes0|
    && (forall t :: 0 <= t < |m.threads| ==> GoodPlace(m, m.threads[t]))
    && (forall t: nat, u: nat :: t < u < |m.threads| && Got(m, t) && Got(m, u) ==> m.threads[t].link != m.threads[u].link)
    && (forall t: nat :: Got(m, t) ==> WasFree(m, bytes0, m.threads[t].link))
    && (forall j: nat :: IsSet(bytes0, j) ==> IsSet(m.bytes, j))
  }

  lemma MarkedIs(bytes: seq<bv8>, j: nat, i: nat)
    requires j / 8 < |bytes|
    ensures IsSet(Marked(bytes, j), i) <==> i == j || IsSet(bytes, i)
  {
    SetBit(bytes[j / 8], j % 8, i % 8);
    SamePlace(i, j);
    hide Bit;
  }

  lemma SamePlace(i: nat, j: nat)
    ensures i == j <==> i / 8 == j / 8 && i % 8 == j % 8
  {
  }

  lemma StepKeeps(m: Machine, t: nat, bytes0: seq<bv8>)
    requires Inv(m, bytes0)
    ensures Inv(Step(m, t), bytes0)
  {
    hide Bit, HasBit;
    if t < |m.threads| {
      match m.threads[t]
      case Scan(j) => ScanKeeps(m, t, bytes0);
      case Swap(j, seen) =>
        if j / 8 < |m.bytes| && m.bytes[j / 8] == seen {
          SwapKeeps(m, t, bytes0);
        } else {
          MovesKeep(m, t, Scan(0), bytes0);
        }
      case Done(_) =>
    }
  }

  /** A step that changes no byte, to a place that is as it should be and no allocation. */
  lemma MovesKeep(m: Machine, t: nat, c: Place, bytes0: seq<bv8>)
    requires Inv(m, bytes0) && t < |m.threads| && GoodPlace(m, c) && (c.Done? ==> c.link == NULL_LINK)
    ensures Inv(m.(threads := m.threads[t := c]), bytes0)
  {
    hide IsSet, HasBit;
    var n := m.(threads := m.threads[t := c]);
    forall u | 0 <= u < |n.threads| ensures GoodPlace(n, n.threads[u]) {
      assert GoodPlace(m, m.threads[u]);
    }
    forall u: nat, w: nat | u < w < |n.threads| && Got(n, u) && Got(n, w) ensures n.threads[u].link != n.threads[w].link {
      assert Got(m, u) && Got(m, w);
    }
    forall u: nat | Got(n, u) ensures WasFree(n, bytes0, n.threads[u].link) {
      assert Got(m, u);
    }
  }

  lemma ScanKeeps(m: Machine, t: nat, bytes0: seq<bv8>)
    requires Inv(m, bytes0) && t < |m.threads| && m.threads[t].Scan?
    ensures Inv(Step(m, t), bytes0)
  {
    assert GoodPlace(m, m.threads[t]);
    hide Bit, HasBit;
    MovesKeep(m, t, AfterScan(m, m.threads[t].j), bytes0);
  }

  lemma SwapKeeps(m: Machine, t: nat, bytes0: seq<bv8>)
    requires Inv(m, bytes0) && t < |m.threads| && m.threads[t].Swap?
    requires var j := m.threads[t].j; j / 8 < |m.bytes| && m.bytes[j / 8] == m.threads[t].seen
    ensures Inv(Step(m, t), bytes0)
  {
    var j, n := m.threads[t].j, Step(m, t);
    assert GoodPlace(m, m.threads[t]) && !IsSet(m.bytes, j);
    hide HasBit, Bit;
    forall i: nat ensures IsSet(n.bytes, i) <==> i == j || IsSet(m.bytes, i) { MarkedIs(m.bytes, j, i); }
    hide IsSet, Marked;
    forall u | 0 <= u < |n.threads| ensures GoodPlace(n, n.threads[u]) {
      assert GoodPlace(m, m.threads[u]);
      PlaceStays(m, n, m.threads[u]);
    }
    forall u: nat, w: nat | u < w < |n.threads| && Got(n, u) && Got(n, w) ensures n.threads[u].link != n.threads[w].link {
      Others(m, t, u);
      Others(m, t, w);
    }
    forall u: nat | Got(n, u) ensures WasFree(n, bytes0, n.threads[u].link) {
      assert u != t ==> Got(m, u);
    }
  }

  lemma PlaceStays(m: Machine, n: Machine, c: Place)
    requires GoodPlace(m, c) && n.start == m.start && n.count == m.count && forall i: nat :: IsSet(m.bytes, i) ==> IsSet(n.bytes, i)
    ensures GoodPlace(n, c)
  {
    hide IsSet, HasBit;
  }

  /** Another thread that got a block got one whose bit is set, so not the one whose bit is clear. */
  lemma Others(m: Machine, t: nat, u: nat)
    requires t < |m.threads| && u < |m.threads| && m.threads[t].Swap? && GoodPlace(m, m.threads[u])
    requires !IsSet(m.bytes, m.threads[t].j)
    ensures u != t ==> (Got(Step(m, t), u) <==> Got(m, u))
    ensures u != t && Got(m, u) ==> m.threads[u].link != m.start + m.threads[t].j
  {
    hide IsSet, Marked;
  }

  lemma {:induction false} RunKeeps(m: Machine, schedule: seq<nat>)
    requires Start(m)
    ensures Inv(Run(m, schedule), m.bytes)
    decreases |schedule|
  {
    hide HasBit;
    if schedule == [] {
      assert forall t :: 0 <= t < |m.threads| ==> m.threads[t] == Scan(0);
    } else {
      RunKeeps(m, schedule[..|schedule| - 1]);
      hide Inv, Step;
      StepKeeps(Run(m, schedule[..|schedule| - 1]), schedule[|schedule| - 1], m.bytes);
    }
  }

  lemma StepFrame(m: Machine, t: nat)
    ensures Step(m, t).start == m.start && Step(m, t).count == m.count && |Step(m, t).threads| == |m.threads|
  {
  }

  lemma {:induction false} RunFrame(m: Machine, schedule: seq<nat>)
    ensures var n := Run(m, schedule); n.start == m.start && n.count == m.count && |n.threads| == |m.threads|
    decreases |schedule|
  {
    hide Step;
    if schedule != [] {
      RunFrame(m, schedule[..|schedule| - 1]);
      StepFrame(Run(m, schedule[..|schedule| - 1]), schedule[|schedule| - 1]);
    }
  }

  /** Whatever the interleaving: no block is handed out twice, and each is a block of the volume that was free. */
  lemma AllocationsAreDistinct(m: Machine, schedule: seq<nat>, t: nat, u: nat)
    requires Start(m) && Got(Run(m, schedule), t)
    ensures var n := Run(m, schedule);
      && m.start <= n.threads[t].link < m.start + m.count
      && !IsSet(m.bytes, n.threads[t].link - m.start) && IsSet(n.bytes, n.threads[t].link - m.start)
      && (t != u && Got(n, u) ==> n.threads[t].link != n.threads[u].link)
  {
    RunKeeps(m, schedule);
    RunFrame(m, schedule);
    hide IsSet, Run, Start;
    var n := Run(m, schedule);
    assert GoodPlace(n, n.threads[t]);
    assert t < u || u < t || t == u;
  }

  /** A block is taken at an instant when it is the lowest free one; null is returned only when none is free. */
  lemma TakesLowest(m: Machine, schedule: seq<nat>, t: nat)
    requires Start(m) && t < |m.threads|
    ensures var b := Run(m, schedule); var n := Step(b, t);
      && (t < |b.threads| && b.threads[t].Swap? && n.threads[t].Done? ==>
            n.threads[t].link == m.start + b.threads[t].j && !IsSet(b.bytes, b.threads[t].j) && SetBelow(b.bytes, b.threads[t].j))
      && (t < |b.threads| && b.threads[t] == Done(NULL_LINK) ==> SetBelow(b.bytes, m.count))
  {
    RunKeeps(m, schedule);
    RunFrame(m, schedule);
    hide Run, Start, HasBit, Bit;
    var b := Run(m, schedule);
    assert t < |b.threads| ==> GoodPlace(b, b.threads[t]);
  }

  // ------------------------------------------------------------------ every search ends

  function ClearBits(bytes: seq<bv8>, n: nat): nat {
    if n == 0 then 0 else ClearBits(bytes, n - 1) + (if IsSet(bytes, n - 1) then 0 else 1)
  }

  /** The most steps a thread can still take before some bit is set; a failed swap costs a new search. */
  function Cost(m: Machine, c: Place): nat {
    match c
    case Scan(j) => if j < m.count then 2 * (m.count - j) + 2 else 2
    case Swap(j, seen) =>
      if j < m.count && j / 8 < |m.bytes| && m.bytes[j / 8] == seen then 2 * (m.count - j) + 1 else MaxCost(m)
    case Done(_) => 0
  }

  function MaxCost(m: Machine): nat { 2 * m.count + 3 }

  function Work(m: Machine, k: nat): nat {
    if k == 0 then 0 else Work(m, k - 1) + (if k - 1 < |m.threads| then Cost(m, m.threads[k - 1]) else 0)
  }

  function Times(a: nat, b: nat): nat { MulNat(a, b); a * b }

  function Measure(m: Machine): nat {
    Times(ClearBits(m.bytes, m.count), Times(|m.threads|, MaxCost(m)) + 1) + Work(m, |m.threads|)
  }

  lemma {:induction false} MarkingCounts(bytes: seq<bv8>, j: nat, n: nat)
    requires j / 8 < |bytes| && !IsSet(bytes, j)
    ensures ClearBits(Marked(bytes, j), n) == ClearBits(bytes, n) - (if j < n then 1 else 0)
  {
    hide HasBit, Marked;
    if n > 0 {
      MarkingCounts(bytes, j, n - 1);
      MarkedIs(bytes, j, n - 1);
    }
  }

  lemma {:induction false} WorkBound(m: Machine, k: nat)
    requires k <= |m.threads|
    ensures Work(m, k) <= k * MaxCost(m)
  {
    if k > 0 {
      WorkBound(m, k - 1);
      assert k * MaxCost(m) == (k - 1) * MaxCost(m) + MaxCost(m);
    }
  }

  lemma SameCost(m: Machine, n: Machine, c: Place)
    requires n.bytes == m.bytes && n.count == m.count
    ensures Cost(n, c) == Cost(m, c)
  {
  }

  /** When only thread t moves and no byte changes, the work changes by the change of its cost. */
  lemma {:induction false} WorkMoves(m: Machine, t: nat, c: Place, k: nat)
    requires t < |m.threads| && k <= |m.threads|
    ensures var n := m.(threads := m.threads[t := c]);
      Work(n, k) == Work(m, k) - (if t < k then Cost(m, m.threads[t]) else 0) + (if t < k then Cost(m, c) else 0)
  {
    hide Cost;
    var n := m.(threads := m.threads[t := c]);
    if k > 0 {
      WorkMoves(m, t, c, k - 1);
      SameCost(m, n, n.threads[k - 1]);
    }
  }

  lemma StepWorks(m: Machine, t: nat)
    requires t < |m.threads| && !m.threads[t].Done? && m.count <= 8 * |m.bytes| && GoodPlace(m, m.threads[t])
    ensures Measure(Step(m, t)) < Measure(m)
  {
    hide HasBit, Bit, Measure, Work, ClearBits, SetBelow;
    match m.threads[t]
    case Scan(j) => MoveWorks(m, t, AfterScan(m, j));
    case Swap(j, seen) =>
      if m.bytes[j / 8] == seen {
        SwapWorks(m, t);
      } else {
        MoveWorks(m, t, Scan(0));
      }
  }

  lemma MoveWorks(m: Machine, t: nat, c: Place)
    requires t < |m.threads| && Cost(m, c) < Cost(m, m.threads[t])
    ensures Measure(m.(threads := m.threads[t := c])) < Measure(m)
  {
    WorkMoves(m, t, c, |m.threads|);
    hide Cost, ClearBits, Work, MaxCost;
  }

  lemma SwapWorks(m: Machine, t: nat)
    requires t < |m.threads| && m.threads[t].Swap? && m.count <= 8 * |m.bytes| && GoodPlace(m, m.threads[t])
    requires m.bytes[m.threads[t].j / 8] == m.threads[t].seen
    ensures Measure(Step(m, t)) < Measure(m)
  {
    hide HasBit, Bit, Work, ClearBits, SetBelow, MaxCost, Cost, Marked;
    var j, n := m.threads[t].j, Step(m, t);
    MarkingCounts(m.bytes, j, m.count);
    WorkBound(n, |n.threads|);
    var w := Times(|m.threads|, MaxCost(m));
    assert |n.threads| == |m.threads| && n.count == m.count && n.bytes == Marked(m.bytes, j);
    SameMaxCost(m, n);
    OneLess(ClearBits(n.bytes, n.count), w, Work(n, |n.threads|));
  }

  lemma SameMaxCost(m: Machine, n: Machine)
    requires n.count == m.count
    ensures MaxCost(n) == MaxCost(m)
  {
  }

  lemma OneLess(c: nat, w: nat, work: nat)
    requires work <= w
    ensures c * (w + 1) + work < (c + 1) * (w + 1)
  {
  }

  /** No thread steps after its search has ended. */
  predicate Busy(m: Machine, schedule: seq<nat>) {
    schedule == [] ||
    (Busy(m, schedule[..|schedule| - 1]) &&
     var b := Run(m, schedule[..|schedule| - 1]); var t := schedule[|schedule| - 1];
     t < |b.threads| && !b.threads[t].Done?)
  }

  /** However the threads are scheduled, they take no more steps in all than the measure at the start: every search ends. */
  lemma {:induction false} EverySearchEnds(m: Machine, schedule: seq<nat>)
    requires Start(m) && Busy(m, schedule)
    ensures |schedule| + Measure(Run(m, schedule)) <= Measure(m)
    decreases |schedule|
  {
    if schedule != [] {
      var before, t := schedule[..|schedule| - 1], schedule[|schedule| - 1];
      EverySearchEnds(m, before);
      RunKeeps(m, before);
      hide Measure, HasBit, Bit, Start, Step, Run;
      assert GoodPlace(Run(m, before), Run(m, before).threads[t]);
      StepWorks(Run(m, before), t);
      RunExtends(m, schedule);
    }
  }

  lemma RunExtends(m: Machine, schedule: seq<nat>)
    requires schedule != []
    ensures Run(m, schedule) == Step(Run(m, schedule[..|schedule| - 1]), schedule[|schedule| - 1])
  {
  }

  /** What that bound is, for threads that all begin at once. */
  lemma StartMeasure(m: Machine)
    requires Start(m)
    ensures Measure(m) <= ClearBits(m.bytes, m.count) * (|m.threads| * (2 * m.count + 3) + 1) + |m.threads| * (2 * m.count + 3)
  {
    WorkBound(m, |m.threads|);
    hide ClearBits, Work;
  }

  // ------------------------------------------------------------------ alone

  /** The code for one thread by itself: the lowest free block is taken, or null returned with nothing changed. */
  method AllocBlock(bytes: array<bv8>, start: nat, count: nat) returns (link: nat)
    requires count <= 8 * bytes.Length && start > 0
    modifies bytes
    ensures link == NULL_LINK ==> bytes[..] == old(bytes[..]) && SetBelow(bytes[..], count)
    ensures link != NULL_LINK ==>
      && start <= link < start + count
      && !IsSet(old(bytes[..]), link - start) && SetBelow(old(bytes[..]), link - start)
      && bytes[..] == Marked(old(bytes[..]), link - start) && BitAdded(old(bytes[..]), bytes[..], link - start)
  {
    hide HasBit, Bit, BitAdded;
    var j := 0;
    while j < count
      invariant j <= count && SetBelow(bytes[..], j) && bytes[..] == old(bytes[..])
    {
      var b := bytes[j / 8];
      if !HasBit(b, j % 8) {
        MarkedAdds(bytes[..], j);
        bytes[j / 8] := b | Bit(j % 8);
        return start + j;
      }
      assert IsSet(bytes[..], j);
      j := j + 1;
    }
    link := NULL_LINK;
  }
}
