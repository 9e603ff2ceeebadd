/**
  The small heap of kernel/rt/alloc.c: chunks of nine sizes carved out of pages of 4096 bytes, one
  free list for each size.  The first 8 bytes of a page are its header, which says for what size
  the page was carved.  A freed chunk's size is recovered from its address and that header alone.

  Here is the layout of a page, and one thread's heap; ThreadHeaps has the heaps of all threads.
 */
module SmallHeap {
  import opened Arithmetic

  const BUCKETS: nat := 9
  const PAGE: nat := 4096
  const NO_BUCKET: nat := 0xffffffff

  /** The table of chunk sizes. */
  function Size(b: nat): nat {
    if b == 0 then 8 else if b == 1 then 16 else if b == 2 then 32 else if b == 3 then 64 else if b == 4 then 128
    else if b == 5 then 256 else if b == 6 then 512 else if b == 7 then 1024 else 2048
  }

  /** The first bucket that holds this many bytes. */
  function IndexOf(size: nat): nat {
    if size <= 8 then 0 else if size <= 16 then 1 else if size <= 32 then 2 else if size <= 64 then 3
    else if size <= 128 then 4 else if size <= 256 then 5 else if size <= 512 then 6 else if size <= 1024 then 7
    else if size <= 2048 then 8 else NO_BUCKET
  }

  // ------------------------------------------------------------------ how a page is cut

  /** The bucket the code computes for a chunk from its offset in the page and the page's main bucket. */
  function BucketAt(offset: nat, main: nat): nat {
    if IndexOf(offset) > main then main else IndexOf(offset)
  }

  /** Where chunks of a page begin: one of each smaller size, at its own size, then the main ones. */
  predicate IsStart(offset: nat, main: nat) {
    8 <= offset < PAGE &&
    if BucketAt(offset, main) < main then offset == Size(BucketAt(offset, main))
    else offset % Size(main) == 0 && offset + Size(main) <= PAGE
  }

  /** The chunk an offset lies in. */
  function Owner(offset: nat, main: nat): nat {
    if offset >= Size(main) then offset - offset % Size(main)
    else if offset < 16 then 8 else if offset < 32 then 16 else if offset < 64 then 32 else if offset < 128 then 64
    else if offset < 256 then 128 else if offset < 512 then 256 else if offset < 1024 then 512 else 1024
  }

  predicate Covers(start: nat, main: nat, offset: nat) {
    IsStart(start, main) && start <= offset < start + Size(BucketAt(start, main))
  }

  /** The chunks tile the page behind its header: every byte is in one of them, and only in one. */
  lemma PageIsTiled(main: nat, offset: nat)
    requires main < BUCKETS && 8 <= offset < PAGE
    ensures Covers(Owner(offset, main), main, offset)
    ensures forall s :: Covers(s, main, offset) ==> s == Owner(offset, main)
  {
    OwnerCovers(main, offset);
    forall s | Covers(s, main, offset) ensures s == Owner(offset, main) {
      OnlyOwnerCovers(main, offset, s);
    }
  }

  /** From the main size on, the clamp always gives the main bucket. */
  lemma MainOffset(main: nat, offset: nat)
    requires main < BUCKETS && Size(main) <= offset
    ensures BucketAt(offset, main) == main
  {
  }

  /** Below it, chunks begin exactly at the smaller sizes. */
  lemma SmallOffset(main: nat, offset: nat)
    requires main < BUCKETS && 8 <= offset < Size(main)
    ensures IsStart(offset, main) <==> IndexOf(offset) < main && offset == Size(IndexOf(offset))
  {
  }

  lemma Sizes(b: nat)
    requires b < BUCKETS
    ensures 8 <= Size(b) <= 2048 && Size(b) % 8 == 0 && PAGE % Size(b) == 0 && IndexOf(Size(b)) == b
    ensures b > 0 ==> Size(b) == 2 * Size(b - 1)
  {
  }

  lemma OwnerCovers(main: nat, offset: nat)
    requires main < BUCKETS && 8 <= offset < PAGE
    ensures Covers(Owner(offset, main), main, offset)
  {
    var z := Size(main);
    if offset >= z {
      Sizes(main);
      var s := Owner(offset, main);
      RoundedDown(z, offset);
      assert s >= z by { if s < z { hide Size, IndexOf; Below(z, s); } }
      Fits(z, s);
      hide IndexOf, Size;
      MainOffset(main, s);
    } else {
      SmallOffset(main, Owner(offset, main));
    }
  }

  lemma Below(z: nat, s: nat)
    requires z > 0 && s % z == 0 && s < z
    ensures s == 0
  {
  }

  lemma Fits(z: nat, s: nat)
    requires z > 0 && s % z == 0 && PAGE % z == 0 && s < PAGE
    ensures s + z <= PAGE
  {
    if s + z > PAGE { SameMultiple(z, s, PAGE); }
  }

  lemma OnlyOwnerCovers(main: nat, offset: nat, s: nat)
    requires main < BUCKETS && 8 <= offset < PAGE && Covers(s, main, offset)
    ensures s == Owner(offset, main)
  {
    var z := Size(main);
    Sizes(main);
    if s >= z {
      MainOffset(main, s);
      RoundedDown(z, offset);
      hide IndexOf, Size;
      SameMultiple(z, s, offset - offset % z);
    } else {
      SmallOffset(main, s);
      hide IsStart;
      SmallOwner(main, IndexOf(s), offset);
    }
  }

  lemma SmallOwner(main: nat, b: nat, offset: nat)
    requires b < main < BUCKETS && Size(b) <= offset < 2 * Size(b)
    ensures Owner(offset, main) == Size(b)
  {
  }

  /** A chunk is aligned to its size, and never to a page. */
  lemma ChunksAreAligned(main: nat, offset: nat)
    requires main < BUCKETS && IsStart(offset, main)
    ensures BucketAt(offset, main) <= main
    ensures offset % Size(BucketAt(offset, main)) == 0 && offset % 8 == 0 && 0 < offset < PAGE
    ensures offset + Size(BucketAt(offset, main)) <= PAGE
  {
    var z := Size(main);
    Sizes(main);
    if offset >= z {
      MainOffset(main, offset);
      hide Size, IndexOf;
      MultipleOfMultiple(8, z, offset);
    } else {
      SmallOffset(main, offset);
      var b := IndexOf(offset);
      Sizes(b);
    }
  }

  // ------------------------------------------------------------------ the heap as a whole

  /**
    A thread's heap.  lists[b] is its free list of bucket b.  The rest it shares with the others: live
    says of each chunk in use what bucket it is, pages of each page for what it was cut, and elsewhere
    are the free chunks that are not in its own lists.
   */
  datatype Heap = Heap(lists: seq<seq<int>>, live: map<int, nat>, pages: map<int, nat>, elsewhere: multiset<int>)

  function PageOf(a: int): int { a - a % PAGE }

  /** The address begins a chunk of some heap page. */
  predicate IsChunk(pages: map<int, nat>, a: int) {
    PageOf(a) in pages && pages[PageOf(a)] < BUCKETS && IsStart(a % PAGE, pages[PageOf(a)])
  }

  function ChunkBucket(pages: map<int, nat>, a: int): nat {
    if PageOf(a) in pages then BucketAt(a % PAGE, pages[PageOf(a)]) else 0
  }

  ghost function InLists(lists: seq<seq<int>>): multiset<int> {
    if lists == [] then multiset{} else InLists(lists[..|lists| - 1]) + multiset(lists[|lists| - 1])
  }

  ghost predicate OwnSize(lists: seq<seq<int>>, pages: map<int, nat>) {
    forall b, a :: 0 <= b < |lists| && a in lists[b] ==> ChunkBucket(pages, a) == b
  }

  /** Every chunk is in the list of its own size, or in use, or elsewhere, once, and nothing else is. */
  ghost predicate Tiled(h: Heap) {
    && |h.lists| == BUCKETS
    && OwnSize(h.lists, h.pages)
    && (forall a :: a in h.live ==> ChunkBucket(h.pages, a) == h.live[a])
    && (forall a :: InLists(h.lists)[a] + h.elsewhere[a] + (if a in h.live then 1 else 0) == if IsChunk(h.pages, a) then 1 else 0)
  }

  /** The chunks a page is cut into, for each bucket: the main ones by address, and one of each smaller size. */
  function Cut(page: int, main: nat, b: nat): seq<int> {
    if b == main then seq(PAGE / Size(main) - 1, (k: nat) => page + Size(main) * (k + 1))
    else if b < main then [page + Size(b)]
    else []
  }

  function AddPage(h: Heap, page: int, main: nat): Heap {
    h.(lists := seq(|h.lists|, (b: nat) => if b < |h.lists| then h.lists[b] + Cut(page, main, b) else []),
       pages := h.pages[page := main])
  }

  lemma InPage(page: int, a: int)
    requires page % PAGE == 0
    ensures PageOf(a) == page <==> page <= a < page + PAGE
    ensures PageOf(a) == page ==> a % PAGE == a - page
  {
  }

  lemma PageBase(a: int)
    ensures PageOf(a) % PAGE == 0 && PageOf(a) <= a < PageOf(a) + PAGE
  {
  }

  lemma {:induction false} CountDistinct(s: seq<int>, a: int)
    requires forall i, j :: 0 <= i < j < |s| ==> s[i] < s[j]
    ensures multiset(s)[a] == if a in s then 1 else 0
  {
    if s != [] {
      var r := s[..|s| - 1];
      assert s == r + [s[|s| - 1]];
      CountDistinct(r, a);
    }
  }

  lemma MainCutIsChunk(page: int, main: nat, k: nat)
    requires main < BUCKETS && page % PAGE == 0 && k < PAGE / Size(main) - 1
    ensures var a := page + Size(main) * (k + 1);
      PageOf(a) == page && IsStart(a % PAGE, main) && BucketAt(a % PAGE, main) == main
  {
    var z := Size(main);
    Sizes(main);
    QuotientIs(z, k + 1, 0);
    DivMod(PAGE, z);
    MulStep(z, k + 1, PAGE / z);
    MulStep(z, 0, k + 1);
    MainOffset(main, z * (k + 1));
    InPage(page, page + z * (k + 1));
    hide Size, IndexOf, BucketAt;
  }

  lemma MainCutSorted(page: int, main: nat)
    requires main < BUCKETS
    ensures var s := Cut(page, main, main); forall i, j :: 0 <= i < j < |s| ==> s[i] < s[j]
  {
    var z, s := Size(main), Cut(page, main, main);
    Sizes(main);
    hide Size;
    forall i, j | 0 <= i < j < |s| ensures s[i] < s[j] { MulStep(z, i + 1, j + 1); }
  }

  lemma MainCutOnce(page: int, main: nat, a: int)
    requires main < BUCKETS && page % PAGE == 0
    ensures multiset(Cut(page, main, main))[a]
         == if PageOf(a) == page && IsStart(a % PAGE, main) && BucketAt(a % PAGE, main) == main then 1 else 0
  {
    var z, s := Size(main), Cut(page, main, main);
    Sizes(main);
    InPage(page, a);
    MainCutSorted(page, main);
    CountDistinct(s, a);
    hide Size, IndexOf, BucketAt, IsStart;
    if a in s {
      var k :| 0 <= k < |s| && s[k] == a;
      MainCutIsChunk(page, main, k);
    } else if PageOf(a) == page && IsStart(a % PAGE, main) && BucketAt(a % PAGE, main) == main {
      InMainCut(page, main, a);
    }
  }

  lemma QuotientBelow(z: nat, i: nat, j: nat, slack: nat)
    requires z > 0 && z * i + z + slack == z * j
    ensures i < j
  {
    if j <= i && j < i + 1 { MulStep(z, j, i + 1); }
  }

  lemma InMainCut(page: int, main: nat, a: int)
    requires main < BUCKETS && page % PAGE == 0
    requires PageOf(a) == page && IsStart(a % PAGE, main) && BucketAt(a % PAGE, main) == main
    ensures a in Cut(page, main, main)
  {
    var z, s := Size(main), Cut(page, main, main);
    Sizes(main);
    InPage(page, a);
    var o := a - page;
    DivMod(o, z);
    DivMod(PAGE, z);
    hide Size, IndexOf, BucketAt;
    var k := o / z;
    QuotientBelow(z, 0, k, o - z);
    QuotientBelow(z, k, PAGE / z, PAGE - z - o);
    assert s[k - 1] == page + z * (k - 1 + 1);
  }

  lemma SmallCutOnce(page: int, main: nat, b: nat, a: int)
    requires b < main < BUCKETS && page % PAGE == 0
    ensures multiset(Cut(page, main, b))[a]
         == if PageOf(a) == page && IsStart(a % PAGE, main) && BucketAt(a % PAGE, main) == b then 1 else 0
  {
    Sizes(b);
    InPage(page, a);
  }

  /** Each bucket gets exactly the chunks of its size that the page has, each once. */
  lemma CutOnce(page: int, main: nat, b: nat, a: int)
    requires main < BUCKETS && b < BUCKETS && page % PAGE == 0
    ensures multiset(Cut(page, main, b))[a]
         == if PageOf(a) == page && IsStart(a % PAGE, main) && BucketAt(a % PAGE, main) == b then 1 else 0
  {
    if b == main { MainCutOnce(page, main, a); }
    else if b < main { SmallCutOnce(page, main, b, a); }
    else { hide IndexOf, Size, IsStart; }
  }

  /** The chunks the first n buckets get. */
  ghost function CutAll(page: int, main: nat, n: nat): multiset<int> {
    if n == 0 then multiset{} else CutAll(page, main, n - 1) + multiset(Cut(page, main, n - 1))
  }

  lemma {:induction false} CutAllOnce(page: int, main: nat, n: nat, a: int)
    requires main < BUCKETS && n <= BUCKETS && page % PAGE == 0
    ensures CutAll(page, main, n)[a]
         == if PageOf(a) == page && IsStart(a % PAGE, main) && BucketAt(a % PAGE, main) < n then 1 else 0
  {
    hide Cut, IsStart, BucketAt;
    if n > 0 {
      CutAllOnce(page, main, n - 1, a);
      CutOnce(page, main, n - 1, a);
    }
  }

  lemma {:induction false} AppendedLists(lists: seq<seq<int>>, page: int, main: nat, more: seq<seq<int>>)
    requires |more| == |lists| && forall b :: 0 <= b < |lists| ==> more[b] == lists[b] + Cut(page, main, b)
    ensures InLists(more) == InLists(lists) + CutAll(page, main, |lists|)
    decreases |lists|
  {
    hide Cut;
    if lists != [] {
      var n := |lists| - 1;
      AppendedLists(lists[..n], page, main, more[..n]);
      assert more[n] == lists[n] + Cut(page, main, n);
    }
  }

  lemma LastList(lists: seq<seq<int>>)
    requires lists != []
    ensures InLists(lists) == InLists(lists[..|lists| - 1]) + multiset(lists[|lists| - 1])
  {
  }

  lemma {:induction false} ListReplacedAt(lists: seq<seq<int>>, b: nat, s: seq<int>, a: int)
    requires b < |lists|
    ensures InLists(lists[b := s])[a] + multiset(lists[b])[a] == InLists(lists)[a] + multiset(s)[a]
    decreases |lists|
  {
    hide InLists;
    var n, more := |lists| - 1, lists[b := s];
    LastList(more);
    LastList(lists);
    if b < n {
      ListReplacedAt(lists[..n], b, s, a);
      assert more[..n] == lists[..n][b := s];
      assert more[n] == lists[n] && lists[..n][b] == lists[b];
    } else {
      assert more[..n] == lists[..n];
    }
  }

  lemma {:induction false} ListInLists(lists: seq<seq<int>>, b: nat, a: int)
    requires b < |lists| && a in lists[b]
    ensures a in InLists(lists)
    decreases |lists|
  {
    hide InLists;
    LastList(lists);
    var n := |lists| - 1;
    if b < n {
      ListInLists(lists[..n], b, a);
      assert InLists(lists[..n])[a] > 0;
    } else {
      assert multiset(lists[n])[a] > 0;
    }
  }

  // ------------------------------------------------------------------ what allocating and freeing do to the heap

  /** The head of a bucket's list is taken. */
  function Taken(h: Heap, b: nat): Heap {
    if b < |h.lists| && h.lists[b] != [] then
      h.(lists := h.lists[b := h.lists[b][1..]], live := h.live[h.lists[b][0] := b])
    else h
  }

  function Refilled(h: Heap, b: nat, page: int): Heap {
    if b < |h.lists| && h.lists[b] == [] then AddPage(h, page, b) else h
  }

  function Allocated(h: Heap, b: nat, page: int): Heap {
    Taken(Refilled(h, b, page), b)
  }

  /** The chunk goes in front of the list of the bucket computed from its address. */
  function Freed(h: Heap, a: int): Heap {
    var b := ChunkBucket(h.pages, a);
    if b < |h.lists| then h.(lists := h.lists[b := [a] + h.lists[b]], live := h.live - {a}) else h
  }

  lemma PageAddedTiles(h: Heap, page: int, main: nat)
    requires Tiled(h) && main < BUCKETS && page % PAGE == 0 && page !in h.pages
    ensures Tiled(AddPage(h, page, main))
  {
    var g := AddPage(h, page, main);
    hide InLists, Cut, IsStart, BucketAt, CutAll;
    AppendedLists(h.lists, page, main, g.lists);
    forall b, a | 0 <= b < |g.lists| && a in g.lists[b] ensures ChunkBucket(g.pages, a) == b {
      InNewLists(h, page, main, b, a);
    }
    forall a ensures InLists(g.lists)[a] + g.elsewhere[a] + (if a in g.live then 1 else 0) == if IsChunk(g.pages, a) then 1 else 0 {
      CutAllOnce(page, main, BUCKETS, a);
      BucketBound(a % PAGE, main);
      InPage(page, a);
    }
    forall a | a in g.live ensures ChunkBucket(g.pages, a) == g.live[a] {
      LiveIsChunk(h, a);
    }
  }

  lemma BucketBound(offset: nat, main: nat)
    requires main < BUCKETS
    ensures BucketAt(offset, main) < BUCKETS
  {
  }

  lemma LiveIsChunk(h: Heap, a: int)
    requires Tiled(h) && a in h.live
    ensures IsChunk(h.pages, a) && a !in InLists(h.lists)
  {
    hide InLists, IsChunk;
  }

  lemma FreeIsChunk(h: Heap, b: nat, a: int)
    requires Tiled(h) && b < BUCKETS && a in h.lists[b]
    ensures IsChunk(h.pages, a) && a !in h.live && ChunkBucket(h.pages, a) == b
  {
    ListInLists(h.lists, b, a);
    hide InLists, IsChunk;
  }

  lemma InNewLists(h: Heap, page: int, main: nat, b: nat, a: int)
    requires Tiled(h) && main < BUCKETS && page % PAGE == 0 && page !in h.pages && b < BUCKETS
    requires a in AddPage(h, page, main).lists[b]
    ensures ChunkBucket(AddPage(h, page, main).pages, a) == b
  {
    hide InLists, Cut, IsStart, BucketAt;
    if a in h.lists[b] {
      FreeIsChunk(h, b, a);
    } else {
      assert a in multiset(Cut(page, main, b));
      CutOnce(page, main, b, a);
    }
  }

  lemma TakenTiles(h: Heap, b: nat)
    requires Tiled(h) && b < BUCKETS
    ensures Tiled(Taken(h, b))
  {
    hide InLists, IsChunk, ChunkBucket;
    var s := h.lists[b];
    if s != [] {
      var g := Taken(h, b);
      FreeIsChunk(h, b, s[0]);
      assert s == [s[0]] + s[1..];
      forall a ensures InLists(g.lists)[a] + (if a in g.live then 1 else 0) == InLists(h.lists)[a] + (if a in h.live then 1 else 0) {
        ListReplacedAt(h.lists, b, s[1..], a);
        assert multiset(s)[a] == multiset{s[0]}[a] + multiset(s[1..])[a];
      }
    }
  }

  lemma FreedTiles(h: Heap, a: int)
    requires Tiled(h) && a in h.live
    ensures Tiled(Freed(h, a)) && ChunkBucket(h.pages, a) == h.live[a] < BUCKETS
  {
    LiveIsChunk(h, a);
    BucketBound(a % PAGE, h.pages[PageOf(a)]);
    hide InLists, IsChunk, BucketAt;
    var b, g := ChunkBucket(h.pages, a), Freed(h, a);
    forall x ensures InLists(g.lists)[x] + (if x in g.live then 1 else 0) == InLists(h.lists)[x] + (if x in h.live then 1 else 0) {
      ListReplacedAt(h.lists, b, [a] + h.lists[b], x);
      assert multiset([a] + h.lists[b])[x] == multiset{a}[x] + multiset(h.lists[b])[x];
    }
  }

  // ------------------------------------------------------------------ what callers rely on

  /** An address that lies in a live chunk or a free one lies in that one only, and every byte of a page lies in one. */
  lemma EveryByteOnce(h: Heap, x: int)
    requires Tiled(h) && PageOf(x) in h.pages && h.pages[PageOf(x)] < BUCKETS && 8 <= x % PAGE
    ensures var a := PageOf(x) + Owner(x % PAGE, h.pages[PageOf(x)]);
      && a <= x < a + Size(ChunkBucket(h.pages, a))
      && InLists(h.lists)[a] + h.elsewhere[a] + (if a in h.live then 1 else 0) == 1
      && forall c :: (c in InLists(h.lists) || c in h.elsewhere || c in h.live) && c <= x < c + Size(ChunkBucket(h.pages, c)) ==> c == a
  {
    var page, main, o := PageOf(x), h.pages[PageOf(x)], x % PAGE;
    var a := page + Owner(o, main);
    hide InLists, Owner, BucketAt, IsStart, Size;
    PageBase(x);
    PageIsTiled(main, o);
    CoversInPage(main, Owner(o, main), o);
    InPage(page, a);
    assert IsChunk(h.pages, a);
    forall c | (c in InLists(h.lists) || c in h.elsewhere || c in h.live) && c <= x < c + Size(ChunkBucket(h.pages, c)) ensures c == a {
      HeldIsChunk(h, c);
      ChunkInPage(h.pages, c);
      PageBase(c);
      InPage(PageOf(c), x);
      assert Covers(c - page, main, o);
    }
  }

  lemma CoversInPage(main: nat, start: nat, offset: nat)
    requires Covers(start, main, offset)
    ensures start <= offset < start + Size(BucketAt(start, main)) && start < PAGE && IsStart(start, main)
  {
  }

  lemma HeldIsChunk(h: Heap, a: int)
    requires Tiled(h) && (a in InLists(h.lists) || a in h.elsewhere || a in h.live)
    ensures IsChunk(h.pages, a)
  {
    hide InLists, IsChunk;
  }

  lemma ChunkInPage(pages: map<int, nat>, a: int)
    requires IsChunk(pages, a)
    ensures PageOf(a) + 8 <= a && a + Size(ChunkBucket(pages, a)) <= PageOf(a) + PAGE
    ensures a % Size(ChunkBucket(pages, a)) == 0 && a % PAGE != 0 && ChunkBucket(pages, a) < BUCKETS
    ensures Size(ChunkBucket(pages, a)) >= 8
  {
    var o, main := a % PAGE, pages[PageOf(a)];
    ChunksAreAligned(main, o);
    var b := BucketAt(o, main);
    Sizes(b);
    PageBase(a);
    hide Size, IndexOf, BucketAt;
    AlignedInPage(PageOf(a), o, Size(b));
  }

  lemma AlignedInPage(page: int, o: nat, z: nat)
    requires z > 0 && page % PAGE == 0 && PAGE % z == 0 && o % z == 0
    ensures (page + o) % z == 0
  {
    var k, c := page / PAGE, PAGE / z;
    DivMod(PAGE, z);
    DivMod(o, z);
    assert page == z * c * k == z * (c * k);
    assert page + o == z * (c * k + o / z);
    IntMultiple(z, c * k + o / z);
  }

  /** Chunks in use lie apart from each other, each aligned to its size and inside its page. */
  lemma LiveChunksApart(h: Heap, a: int, c: int)
    requires Tiled(h) && a in h.live && c in h.live && a != c
    ensures a + Size(h.live[a]) <= c || c + Size(h.live[c]) <= a
    ensures a % Size(h.live[a]) == 0 && a % PAGE != 0 && PageOf(a) + 8 <= a && a + Size(h.live[a]) <= PageOf(a) + PAGE
  {
    hide InLists, IsStart, BucketAt, Size, Owner;
    LiveIsChunk(h, a);
    LiveIsChunk(h, c);
    ChunkInPage(h.pages, a);
    ChunkInPage(h.pages, c);
    if a <= c < a + Size(h.live[a]) { Shared(h, a, c, c); }
    if c <= a < c + Size(h.live[c]) { Shared(h, a, c, a); }
  }

  /** Two chunks that share a byte are one. */
  lemma Shared(h: Heap, a: int, c: int, x: int)
    requires Tiled(h) && a in h.live && c in h.live
    requires a <= x < a + Size(h.live[a]) && c <= x < c + Size(h.live[c])
    ensures a == c
  {
    hide InLists, IsStart, BucketAt, Size, Owner;
    LiveIsChunk(h, a);
    ChunkInPage(h.pages, a);
    PageBase(a);
    InPage(PageOf(a), x);
    EveryByteOnce(h, x);
  }

  lemma CutNotEmpty(page: int, main: nat)
    requires main < BUCKETS
    ensures Cut(page, main, main) != []
  {
    Sizes(main);
  }

  /** Allocation hands out a chunk that was not in use, of the bucket asked for, and changes no other chunk in use. */
  lemma AllocationIsFresh(h: Heap, b: nat, page: int)
    requires Tiled(h) && b < BUCKETS && page % PAGE == 0 && page !in h.pages
    ensures var r := Refilled(h, b, page); var g := Allocated(h, b, page);
      && Tiled(g) && |r.lists| == BUCKETS && r.lists[b] != []
      && var a := r.lists[b][0];
         a !in h.live && g.live == h.live[a := b] && ChunkBucket(g.pages, a) == b && IsChunk(g.pages, a)
  {
    hide InLists, IsStart, BucketAt, Size, Owner, Cut;
    CutNotEmpty(page, b);
    if h.lists[b] == [] { PageAddedTiles(h, page, b); }
    var r := Refilled(h, b, page);
    FreeIsChunk(r, b, r.lists[b][0]);
    TakenTiles(r, b);
  }

  /** Freeing what was just allocated gives back the very same heap. */
  lemma FreeUndoesAlloc(h: Heap, b: nat, page: int)
    requires Tiled(h) && b < BUCKETS && h.lists[b] != []
    ensures Freed(Allocated(h, b, page), h.lists[b][0]) == h
  {
    hide InLists, IsStart, BucketAt, Size, Owner;
    var a := h.lists[b][0];
    FreeIsChunk(h, b, a);
    var g := Allocated(h, b, page);
    assert [a] + h.lists[b][1..] == h.lists[b];
    assert g.lists[b := h.lists[b]] == h.lists;
    assert h.live[a := b] - {a} == h.live;
  }

  /** The bucket of a request is the smallest that holds it. */
  lemma BucketFits(size: nat)
    requires 0 < size <= 2048
    ensures IndexOf(size) < BUCKETS && size <= Size(IndexOf(size))
    ensures IndexOf(size) > 0 ==> Size(IndexOf(size) - 1) < size
  {
  }

  function NoLists(): seq<seq<int>> { [[], [], [], [], [], [], [], [], []] }

  lemma {:induction false} EmptyLists(lists: seq<seq<int>>)
    requires forall b :: 0 <= b < |lists| ==> lists[b] == []
    ensures InLists(lists) == multiset{}
    decreases |lists|
  {
    if lists != [] { EmptyLists(lists[..|lists| - 1]); }
  }
}
