/**
  The small heaps of all threads (kernel/rt/alloc.c).  Each thread allocates from lists of its own and
  frees into lists of its own, whichever thread a chunk was allocated by; a thread created anew in a
  slot starts with empty lists.
 */
module ThreadHeaps {
  import opened SmallHeap

  /**
    of[t] are the lists of thread t; lost are free chunks that are in nobody's lists any more.
   */
  datatype Heaps = Heaps(of: seq<seq<seq<int>>>, live: map<int, nat>, pages: map<int, nat>, lost: multiset<int>)

  /** All free chunks that are in some thread's lists. */
  ghost function Free(of: seq<seq<seq<int>>>): multiset<int> {
    if of == [] then multiset{} else Free(of[..|of| - 1]) + InLists(of[|of| - 1])
  }

  /** What thread t does not have. */
  ghost function Elsewhere(hs: Heaps, t: nat): multiset<int>
    requires t < |hs.of|
  {
    Free(hs.of[..t]) + Free(hs.of[t + 1..]) + hs.lost
  }

  ghost function HeapOf(hs: Heaps, t: nat): Heap
    requires t < |hs.of|
  {
    Heap(hs.of[t], hs.live, hs.pages, Elsewhere(hs, t))
  }

  /** The lists of all threads, the chunks in use and those lost are the chunks of all pages, each once, each of its own size. */
  ghost predicate AllTiled(hs: Heaps) {
    && (forall t :: 0 <= t < |hs.of| ==> Sized(hs.of[t], hs.pages))
    && (forall a :: a in hs.live ==> ChunkBucket(hs.pages, a) == hs.live[a])
    && EachOnce(Free(hs.of) + hs.lost, hs.live, hs.pages)
  }

  ghost predicate Sized(lists: seq<seq<int>>, pages: map<int, nat>) { |lists| == BUCKETS && OwnSize(lists, pages) }

  ghost predicate EachOnce(free: multiset<int>, live: map<int, nat>, pages: map<int, nat>) {
    forall a :: free[a] + (if a in live then 1 else 0) == if IsChunk(pages, a) then 1 else 0
  }

  lemma {:induction false} FreeJoins(x: seq<seq<seq<int>>>, y: seq<seq<seq<int>>>)
    ensures Free(x + y) == Free(x) + Free(y)
    decreases |y|
  {
    hide InLists;
    if y == [] {
      assert x + y == x;
    } else {
      var z := y[..|y| - 1];
      FreeJoins(x, z);
      assert (x + y)[..|x + y| - 1] == x + z;
    }
  }

  lemma FreeWithout(of: seq<seq<seq<int>>>, t: nat)
    requires t < |of|
    ensures Free(of) == Free(of[..t]) + InLists(of[t]) + Free(of[t + 1..])
  {
    hide InLists, Free;
    assert of == of[..t] + [of[t]] + of[t + 1..];
    FreeAround(of[..t], of[t], of[t + 1..]);
  }

  lemma FreeAround(x: seq<seq<seq<int>>>, lists: seq<seq<int>>, y: seq<seq<seq<int>>>)
    ensures Free(x + [lists] + y) == Free(x) + InLists(lists) + Free(y)
  {
    FreeOne(lists);
    FreeJoins(x + [lists], y);
    FreeJoins(x, [lists]);
    hide InLists, Free;
  }

  lemma FreeOne(lists: seq<seq<int>>)
    ensures Free([lists]) == InLists(lists)
  {
    hide InLists;
    assert [lists][..0] == [];
  }

  lemma FreeReplaced(of: seq<seq<seq<int>>>, t: nat, lists: seq<seq<int>>)
    requires t < |of|
    ensures Free(of[t := lists]) == Free(of[..t]) + InLists(lists) + Free(of[t + 1..])
  {
    hide InLists;
    var more := of[t := lists];
    FreeWithout(more, t);
    assert more[..t] == of[..t] && more[t + 1..] == of[t + 1..];
  }

  lemma TiledMeans(h: Heap)
    ensures Tiled(h) <==> Sized(h.lists, h.pages) && (forall a :: a in h.live ==> ChunkBucket(h.pages, a) == h.live[a])
                          && EachOnce(InLists(h.lists) + h.elsewhere, h.live, h.pages)
  {
    hide InLists, OwnSize, IsChunk, ChunkBucket;
  }

  lemma Sums(x: multiset<int>, y: multiset<int>, z: multiset<int>, w: multiset<int>)
    ensures x + y + z + w == y + (x + z + w)
  {
  }

  /** Each thread's heap is in order as a part of the whole. */
  lemma PartIsTiled(hs: Heaps, t: nat)
    requires AllTiled(hs) && t < |hs.of|
    ensures Tiled(HeapOf(hs, t))
  {
    FreeWithout(hs.of, t);
    TiledMeans(HeapOf(hs, t));
    Sums(Free(hs.of[..t]), InLists(hs.of[t]), Free(hs.of[t + 1..]), hs.lost);
    hide InLists, Free, Sized, EachOnce, Tiled, ChunkBucket;
  }

  /** What a thread does with its own heap, seen in the whole. */
  function Replaced(hs: Heaps, t: nat, h: Heap): Heaps
    requires t < |hs.of|
  {
    hs.(of := hs.of[t := h.lists], live := h.live, pages := h.pages)
  }

  /** Page entries only ever come in, and those there stay. */
  predicate PagesGrow(p: map<int, nat>, q: map<int, nat>) { forall x :: x in p ==> x in q && q[x] == p[x] }

  lemma OthersKeepSize(hs: Heaps, t: nat, h: Heap, u: nat)
    requires AllTiled(hs) && t < |hs.of| && u < |hs.of| && PagesGrow(hs.pages, h.pages)
    ensures Sized(hs.of[u], h.pages)
  {
    PartIsTiled(hs, u);
    var g := HeapOf(hs, u);
    hide InLists, Free, IsStart, BucketAt;
    forall b, a | 0 <= b < |hs.of[u]| && a in hs.of[u][b] ensures ChunkBucket(h.pages, a) == b {
      FreeIsChunk(g, b, a);
    }
  }

  lemma ReplacedTiles(hs: Heaps, t: nat, h: Heap)
    requires AllTiled(hs) && t < |hs.of| && Tiled(h) && h.elsewhere == Elsewhere(hs, t) && PagesGrow(hs.pages, h.pages)
    ensures AllTiled(Replaced(hs, t, h))
  {
    var more := Replaced(hs, t, h);
    FreeReplaced(hs.of, t, h.lists);
    TiledMeans(h);
    Sums(Free(hs.of[..t]), InLists(h.lists), Free(hs.of[t + 1..]), hs.lost);
    hide InLists, Free, Sized, EachOnce, Tiled, ChunkBucket;
    forall u | 0 <= u < |hs.of| ensures Sized(more.of[u], h.pages) {
      if u != t { OthersKeepSize(hs, t, h, u); }
    }
  }

  // ------------------------------------------------------------------ whole runs

  /**
    Thread t allocates, or frees a chunk, or is created anew in its slot.  page is what the big heap
    would hand out, if asked: aligned, and no small heap's yet.
   */
  datatype Op = Alloc(t: nat, size: nat, page: int) | Release(t: nat, a: int) | Recreate(t: nat)

  ghost function Do(hs: Heaps, op: Op): Heaps {
    if op.t >= |hs.of| then hs
    else
      match op
      case Alloc(t, size, page) =>
        if 0 < size <= 2048 && page % PAGE == 0 && page !in hs.pages then Replaced(hs, t, Allocated(HeapOf(hs, t), IndexOf(size), page))
        else hs
      case Release(t, a) => if a in hs.live then Replaced(hs, t, Freed(HeapOf(hs, t), a)) else hs
      case Recreate(t) => hs.(of := hs.of[t := NoLists()], lost := hs.lost + InLists(hs.of[t]))
  }

  ghost function Run(hs: Heaps, ops: seq<Op>): Heaps {
    if ops == [] then hs else Do(Run(hs, ops[..|ops| - 1]), ops[|ops| - 1])
  }

  /** So many threads, and no page yet. */
  function Empty(n: nat): Heaps { Heaps(seq(n, _ => NoLists()), map[], map[], multiset{}) }

  lemma AllocGrows(h: Heap, b: nat, page: int)
    requires page !in h.pages
    ensures PagesGrow(h.pages, Allocated(h, b, page).pages) && Allocated(h, b, page).elsewhere == h.elsewhere
  {
  }

  lemma RecreateTiles(hs: Heaps, t: nat)
    requires AllTiled(hs) && t < |hs.of|
    ensures AllTiled(Do(hs, Recreate(t)))
  {
    FreeWithout(hs.of, t);
    FreeReplaced(hs.of, t, NoLists());
    NothingInNoLists(hs.pages);
    Regrouped(Free(hs.of[..t]), InLists(hs.of[t]), Free(hs.of[t + 1..]), hs.lost);
    hide InLists, Free, Sized, EachOnce, ChunkBucket, NoLists;
  }

  lemma Regrouped(x: multiset<int>, y: multiset<int>, z: multiset<int>, w: multiset<int>)
    ensures x + multiset{} + z + (w + y) == x + y + z + w
  {
  }

  lemma NothingInNoLists(pages: map<int, nat>)
    ensures Sized(NoLists(), pages) && InLists(NoLists()) == multiset{}
  {
    hide ChunkBucket;
    EmptyLists(NoLists());
  }

  lemma DoTiles(hs: Heaps, op: Op)
    requires AllTiled(hs)
    ensures AllTiled(Do(hs, op))
  {
    hide AllTiled, Tiled, Allocated, Freed, Size, Elsewhere, InLists;
    if op.t < |hs.of| {
      var h := HeapOf(hs, op.t);
      PartIsTiled(hs, op.t);
      match op
      case Alloc(t, size, page) =>
        if 0 < size <= 2048 && page % PAGE == 0 && page !in hs.pages {
          BucketFits(size);
          AllocationIsFresh(h, IndexOf(size), page);
          AllocGrows(h, IndexOf(size), page);
          ReplacedTiles(hs, t, Allocated(h, IndexOf(size), page));
        }
      case Release(t, a) =>
        if a in hs.live {
          FreedTiles(h, a);
          FreedShares(h, a);
          ReplacedTiles(hs, t, Freed(h, a));
        }
      case Recreate(t) => RecreateTiles(hs, t);
    }
  }

  lemma FreedShares(h: Heap, a: int)
    ensures PagesGrow(h.pages, Freed(h, a).pages) && Freed(h, a).elsewhere == h.elsewhere
  {
  }

  lemma {:induction false} NothingFree(n: nat)
    ensures Free(seq(n, _ => NoLists())) == multiset{}
  {
    if n > 0 {
      NothingFree(n - 1);
      EmptyLists(NoLists());
      var s := seq(n, _ => NoLists());
      assert s[..n - 1] == seq(n - 1, _ => NoLists());
      assert s[n - 1] == NoLists();
    }
  }

  /** Over any run of any number of threads, all lists, the chunks in use and those lost tile the pages of the heaps. */
  lemma {:induction false} RunTiles(n: nat, ops: seq<Op>)
    ensures AllTiled(Run(Empty(n), ops))
    decreases |ops|
  {
    if ops == [] {
      hide IsStart, BucketAt;
      NothingFree(n);
    } else {
      hide AllTiled, Do;
      RunTiles(n, ops[..|ops| - 1]);
      DoTiles(Run(Empty(n), ops[..|ops| - 1]), ops[|ops| - 1]);
    }
  }

  /** Thread slots are only created anew when the heap in them has no free chunk. */
  ghost predicate RecreatesEmpty(hs: Heaps, ops: seq<Op>) {
    ops != [] ==>
      var before, op := ops[..|ops| - 1], ops[|ops| - 1];
      RecreatesEmpty(hs, before) && (op.Recreate? && op.t < |Run(hs, before).of| ==> InLists(Run(hs, before).of[op.t]) == multiset{})
  }

  lemma DoLoses(hs: Heaps, op: Op)
    ensures var more := Do(hs, op);
      more.lost == hs.lost + if op.Recreate? && op.t < |hs.of| then InLists(hs.of[op.t]) else multiset{}
  {
  }

  /** No free chunk is ever lost exactly when that is so. */
  lemma {:induction false} NothingLostIff(n: nat, ops: seq<Op>)
    ensures Run(Empty(n), ops).lost == multiset{} <==> RecreatesEmpty(Empty(n), ops)
    decreases |ops|
  {
    if ops != [] {
      var before, op := ops[..|ops| - 1], ops[|ops| - 1];
      NothingLostIff(n, before);
      DoLoses(Run(Empty(n), before), op);
      hide Do, InLists, Empty;
      var x, y := Run(Empty(n), before).lost, Run(Empty(n), ops).lost - Run(Empty(n), before).lost;
      assert x + y == multiset{} <==> x == multiset{} && y == multiset{} by { SumEmpty(x, y); }
    }
  }

  lemma SumEmpty(x: multiset<int>, y: multiset<int>)
    ensures x + y == multiset{} <==> x == multiset{} && y == multiset{}
  {
    if x + y == multiset{} { assert forall a :: (x + y)[a] == 0; }
  }

  /** Whoever frees a chunk, the heaps' pages stay tiled without loss as long as no heap is dropped. */
  lemma NoLossWithoutRecreation(n: nat, ops: seq<Op>)
    requires forall i :: 0 <= i < |ops| ==> !ops[i].Recreate?
    ensures AllTiled(Run(Empty(n), ops)) && Run(Empty(n), ops).lost == multiset{}
  {
    RunTiles(n, ops);
    NoRecreation(n, ops);
    NothingLostIff(n, ops);
    hide AllTiled, Run, Empty;
  }

  lemma {:induction false} NoRecreation(n: nat, ops: seq<Op>)
    requires forall i :: 0 <= i < |ops| ==> !ops[i].Recreate?
    ensures RecreatesEmpty(Empty(n), ops)
    decreases |ops|
  {
    hide Run, InLists;
    if ops != [] { NoRecreation(n, ops[..|ops| - 1]); }
  }

  /** No two threads ever hold overlapping chunks, and none lies in a free one. */
  lemma LiveApart(n: nat, ops: seq<Op>, a: int, c: int)
    requires n > 0 && a in Run(Empty(n), ops).live && c in Run(Empty(n), ops).live && a != c
    ensures var hs := Run(Empty(n), ops); a + Size(hs.live[a]) <= c || c + Size(hs.live[c]) <= a
    ensures var hs := Run(Empty(n), ops); a !in Free(hs.of) && a !in hs.lost
  {
    RunTiles(n, ops);
    SameThreads(n, ops);
    var hs := Run(Empty(n), ops);
    PartIsTiled(hs, 0);
    hide Run, InLists, Free, IsChunk, ChunkBucket, Size;
    LiveChunksApart(HeapOf(hs, 0), a, c);
  }

  /** A chunk of so many bytes is enough, and no smaller chunk is. */
  predicate SmallestFor(chunk: nat, size: nat) { size <= chunk && (chunk == 8 || chunk < 2 * size) }

  lemma RunNext(hs: Heaps, ops: seq<Op>, op: Op)
    ensures Run(hs, ops + [op]) == Do(Run(hs, ops), op)
  {
    assert (ops + [op])[..|ops|] == ops;
    hide Do;
  }

  lemma BucketIsSmallest(size: nat)
    requires 0 < size <= 2048
    ensures SmallestFor(Size(IndexOf(size)), size)
  {
  }

  /** At any instant of any run: whoever allocates gets one chunk that was not in use, the smallest that holds the request. */
  lemma RequestFits(n: nat, ops: seq<Op>, t: nat, size: nat, page: int)
    requires t < n && 0 < size <= 2048 && page % 4096 == 0 && page !in Run(Empty(n), ops).pages
    ensures var hs, g := Run(Empty(n), ops), Run(Empty(n), ops + [Alloc(t, size, page)]);
      exists a: int, b: nat :: a !in hs.live && g.live == hs.live[a := b] && SmallestFor(Size(b), size)
  {
    RunTiles(n, ops);
    SameThreads(n, ops);
    RunNext(Empty(n), ops, Alloc(t, size, page));
    hide AllTiled, Tiled, Allocated, Size, Elsewhere, InLists, Run, IndexOf, Empty;
    var hs := Run(Empty(n), ops);
    PartIsTiled(hs, t);
    BucketFits(size);
    BucketIsSmallest(size);
    AllocationIsFresh(HeapOf(hs, t), IndexOf(size), page);
  }

  lemma ListCount(hs: Heaps, t: nat)
    requires AllTiled(hs) && t < |hs.of|
    ensures |hs.of[t]| == BUCKETS
  {
    hide InLists, Free, EachOnce;
    assert Sized(hs.of[t], hs.pages);
  }

  lemma OneSmallest(b: nat, size: nat)
    requires b < BUCKETS && SmallestFor(Size(b), size) && 0 < size <= 2048
    ensures IndexOf(size) == b
  {
  }

  lemma TakenBack(hs: Heaps, t: nat, a: int, page: int)
    requires t < |hs.of| && a in hs.live && ChunkBucket(hs.pages, a) == hs.live[a] < |hs.of[t]|
    ensures var freed := Replaced(hs, t, Freed(HeapOf(hs, t), a));
      Replaced(freed, t, Allocated(HeapOf(freed, t), hs.live[a], page)) == hs
  {
    hide InLists, Elsewhere, ChunkBucket;
    var b, lists := hs.live[a], hs.of[t];
    assert ([a] + lists[b])[1..] == lists[b];
    assert lists[b := [a] + lists[b]][b := lists[b]] == lists;
    assert hs.of[t := lists[b := [a] + lists[b]]][t := lists] == hs.of;
    assert (hs.live - {a})[a := b] == hs.live;
  }

  /** A thread that frees a chunk, whoever allocated it, gets that one back for its next request of the size. */
  lemma ReleasedComesBack(n: nat, ops: seq<Op>, t: nat, a: int, size: nat, page: int)
    requires t < n && a in Run(Empty(n), ops).live && 0 < size <= 2048 && page % 4096 == 0 && page !in Run(Empty(n), ops).pages
    requires SmallestFor(Size(Run(Empty(n), ops).live[a]), size)
    ensures Run(Empty(n), ops + [Release(t, a)] + [Alloc(t, size, page)]) == Run(Empty(n), ops)
  {
    RunTiles(n, ops);
    SameThreads(n, ops);
    RunNext(Empty(n), ops, Release(t, a));
    RunNext(Empty(n), ops + [Release(t, a)], Alloc(t, size, page));
    hide AllTiled, Tiled, Size, Elsewhere, InLists, Run, IndexOf, Empty;
    var hs := Run(Empty(n), ops);
    PartIsTiled(hs, t);
    FreedTiles(HeapOf(hs, t), a);
    OneSmallest(hs.live[a], size);
    ListCount(hs, t);
    TakenBack(hs, t, a, page);
  }

  lemma {:induction false} SameThreads(n: nat, ops: seq<Op>)
    ensures |Run(Empty(n), ops).of| == n
    decreases |ops|
  {
    hide Allocated, Freed, HeapOf, InLists;
    if ops != [] { SameThreads(n, ops[..|ops| - 1]); }
  }
}
