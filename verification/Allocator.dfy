/**
  The code of kernel/rt/alloc.c on its own data: the first and last chunk of each bucket, the link
  in each free chunk, and the header of each page.

  Every method is proved against SmallHeap: it does to the lists what the function of SmallHeap does
  to the free lists as sequences.  A list in memory is Linked when following its links from the first
  chunk visits the chunks of the sequence in order and ends in NULL.
 */
module Allocator {
  import opened Arithmetic
  import opened SmallHeap

  const NULL: int := 0

  /** Following the links from head passes the chunks of s, in order, and ends at NULL. */
  ghost predicate Linked(next: map<int, int>, s: seq<int>, head: int)
    decreases |s|
  {
    if s == [] then head == NULL
    else head == s[0] && head != NULL && head in next && Linked(next, s[1..], next[head])
  }

  ghost predicate Bucket(next: map<int, int>, s: seq<int>, first: int, last: int) {
    Linked(next, s, first) && last == if s == [] then NULL else s[|s| - 1]
  }

  ghost predicate SameLinks(next: map<int, int>, more: map<int, int>, s: seq<int>) {
    forall a :: a in s && a in next ==> a in more && more[a] == next[a]
  }

  lemma {:induction false} LinkedKept(next: map<int, int>, more: map<int, int>, s: seq<int>, head: int)
    requires Linked(next, s, head) && SameLinks(next, more, s)
    ensures Linked(more, s, head)
    decreases |s|
  {
    if s != [] { LinkedKept(next, more, s[1..], next[head]); }
  }

  lemma {:induction false} LinkedNonzero(next: map<int, int>, s: seq<int>, head: int)
    requires Linked(next, s, head)
    ensures NULL !in s && forall a :: a in s ==> a in next
    decreases |s|
  {
    if s != [] {
      LinkedNonzero(next, s[1..], next[head]);
      assert s == [s[0]] + s[1..];
    }
  }

  /** Linking the last chunk of one chain to the first of another joins them. */
  lemma {:induction false} ChainsJoin(next: map<int, int>, s: seq<int>, head: int, c: seq<int>, chain: int)
    requires Linked(next, s, head) && Linked(next, c, chain) && s != []
    requires s[|s| - 1] !in s[..|s| - 1] && s[|s| - 1] !in c
    ensures Linked(next[s[|s| - 1] := chain], s + c, head)
    decreases |s|
  {
    var last := s[|s| - 1];
    var more := next[last := chain];
    if |s| == 1 {
      LinkedKept(next, more, c, chain);
      assert (s + c)[1..] == c;
    } else {
      var r := s[1..];
      assert r[|r| - 1] == last && r[..|r| - 1] == s[..|s| - 1][1..];
      ChainsJoin(next, r, next[head], c, chain);
      assert s[0] in s[..|s| - 1];
      assert (s + c)[1..] == r + c;
    }
  }

  /** A chunk put in front of a chain. */
  lemma LinkedFront(next: map<int, int>, s: seq<int>, head: int, a: int)
    requires Linked(next, s, head) && a !in s && a != NULL
    ensures Linked(next[a := head], [a] + s, a)
  {
    LinkedKept(next, next[a := head], s, head);
    assert ([a] + s)[1..] == s;
  }

  // ------------------------------------------------------------------ apart enough to write

  /** No chunk is twice in a list or in two lists. */
  ghost predicate Apart(lists: seq<seq<int>>) {
    && (forall b :: 0 <= b < |lists| && lists[b] != [] ==> lists[b][|lists[b]| - 1] !in lists[b][..|lists[b]| - 1])
    && (forall b, c, a :: 0 <= b < |lists| && 0 <= c < |lists| && b != c && a in lists[b] ==> a !in lists[c])
  }

  lemma TiledApart(h: Heap)
    requires Tiled(h)
    ensures Apart(h.lists)
  {
    hide InLists, IsChunk, ChunkBucket;
    forall b | 0 <= b < |h.lists| && h.lists[b] != []
      ensures h.lists[b][|h.lists[b]| - 1] !in h.lists[b][..|h.lists[b]| - 1]
    {
      LastOnce(h, b);
    }
    forall b, c, a | 0 <= b < |h.lists| && 0 <= c < |h.lists| && b != c && a in h.lists[b] ensures a !in h.lists[c] {
      assert ChunkBucket(h.pages, a) == b;
    }
  }

  lemma LastOnce(h: Heap, b: nat)
    requires Tiled(h) && b < BUCKETS && h.lists[b] != []
    ensures h.lists[b][|h.lists[b]| - 1] !in h.lists[b][..|h.lists[b]| - 1]
  {
    hide InLists, IsChunk, ChunkBucket;
    var s := h.lists[b];
    var t := s[|s| - 1];
    ListCount(h.lists, b, t);
    assert s == s[..|s| - 1] + [t];
    assert multiset(s)[t] == multiset(s[..|s| - 1])[t] + 1;
    assert InLists(h.lists)[t] <= 1;
    assert multiset(s[..|s| - 1])[t] == 0;
  }

  lemma {:induction false} ListCount(lists: seq<seq<int>>, b: nat, a: int)
    requires b < |lists|
    ensures multiset(lists[b])[a] <= InLists(lists)[a]
    decreases |lists|
  {
    hide InLists;
    LastList(lists);
    var n := |lists| - 1;
    if b < n {
      ListCount(lists[..n], b, a);
      assert lists[..n][b] == lists[b];
    }
    assert (InLists(lists[..n]) + multiset(lists[n]))[a] == InLists(lists[..n])[a] + multiset(lists[n])[a];
  }

  /** A chunk of a page that is not the heap's is in no list. */
  lemma NewPageApart(h: Heap, page: int, a: int)
    requires Tiled(h) && page % PAGE == 0 && page !in h.pages && page <= a < page + PAGE
    ensures forall b :: 0 <= b < |h.lists| ==> a !in h.lists[b]
  {
    hide InLists, IsStart, BucketAt;
    InPage(page, a);
    forall b | 0 <= b < |h.lists| ensures a !in h.lists[b] {
      if a in h.lists[b] { FreeIsChunk(h, b, a); }
    }
  }

  ghost predicate ListsIn(next: map<int, int>, lists: seq<seq<int>>, firsts: seq<int>, lasts: seq<int>) {
    && |lists| == |firsts| == |lasts| == BUCKETS
    && forall b :: 0 <= b < |lists| ==> Bucket(next, lists[b], firsts[b], lasts[b])
  }

  /** Writing links of chunks that are in no list disturbs none. */
  lemma OutsideWritten(next: map<int, int>, more: map<int, int>, lists: seq<seq<int>>, firsts: seq<int>, lasts: seq<int>)
    requires ListsIn(next, lists, firsts, lasts)
    requires forall b :: 0 <= b < |lists| ==> SameLinks(next, more, lists[b])
    ensures ListsIn(more, lists, firsts, lasts)
  {
    hide SameLinks, Linked;
    forall b | 0 <= b < |lists| ensures Bucket(more, lists[b], firsts[b], lasts[b]) {
      LinkedKept(next, more, lists[b], firsts[b]);
    }
  }

  ghost function AppendedLinks(next: map<int, int>, last: int, chain: int): map<int, int> {
    if last != NULL then next[last := chain] else next
  }

  lemma BucketAppended(next: map<int, int>, s: seq<int>, first: int, last: int, c: seq<int>, chain: int)
    requires Bucket(next, s, first, last) && c != [] && Linked(next, c, chain)
    requires s != [] ==> s[|s| - 1] !in s[..|s| - 1] && s[|s| - 1] !in c
    ensures Bucket(AppendedLinks(next, last, chain), s + c, if last != NULL then first else chain, c[|c| - 1])
  {
    hide Linked;
    LinkedNonzero(next, s, first);
    if s == [] {
      assert s + c == c;
    } else {
      ChainsJoin(next, s, first, c, chain);
    }
  }

  lemma OtherBucketKept(next: map<int, int>, s: seq<int>, first: int, last: int, other: int, chain: int)
    requires Bucket(next, s, first, last) && other !in s
    ensures Bucket(AppendedLinks(next, other, chain), s, first, last)
  {
    LinkedKept(next, AppendedLinks(next, other, chain), s, first);
  }

  lemma LastInList(lists: seq<seq<int>>, next: map<int, int>, firsts: seq<int>, lasts: seq<int>, b: nat, d: nat)
    requires ListsIn(next, lists, firsts, lasts) && Apart(lists) && b < BUCKETS && d < BUCKETS && b != d
    ensures lasts[b] !in lists[d]
  {
    assert Bucket(next, lists[b], firsts[b], lasts[b]);
    assert Bucket(next, lists[d], firsts[d], lasts[d]);
    LinkedNonzero(next, lists[d], firsts[d]);
    if lists[b] != [] { assert lasts[b] in lists[b]; }
  }

  /** Linking a chain of other chunks behind one bucket's list. */
  lemma ChainAppended(next: map<int, int>, lists: seq<seq<int>>, firsts: seq<int>, lasts: seq<int>,
                      b: nat, c: seq<int>, chain: int)
    requires ListsIn(next, lists, firsts, lasts) && Apart(lists) && b < BUCKETS
    requires c != [] && Linked(next, c, chain) && forall a :: a in c ==> a !in lists[b]
    ensures ListsIn(AppendedLinks(next, lasts[b], chain), lists[b := lists[b] + c],
                    firsts[b := if lasts[b] != NULL then firsts[b] else chain], lasts[b := c[|c| - 1]])
  {
    var s, more := lists[b], AppendedLinks(next, lasts[b], chain);
    BucketAt0(next, lists, firsts, lasts, b);
    if s != [] { assert s[|s| - 1] in s; }
    BucketAppended(next, s, firsts[b], lasts[b], c, chain);
    hide Linked, Bucket, AppendedLinks;
    forall d | 0 <= d < BUCKETS && d != b ensures Bucket(more, lists[d], firsts[d], lasts[d]) {
      LastInList(lists, next, firsts, lasts, b, d);
      OtherBucketKept(next, lists[d], firsts[d], lasts[d], lasts[b], chain);
    }
  }

  lemma BucketAt0(next: map<int, int>, lists: seq<seq<int>>, firsts: seq<int>, lasts: seq<int>, b: nat)
    requires ListsIn(next, lists, firsts, lasts) && b < BUCKETS
    ensures Bucket(next, lists[b], firsts[b], lasts[b]) && (lists[b] == [] <==> firsts[b] == NULL) && (lists[b] == [] <==> lasts[b] == NULL)
  {
    LinkedNonzero(next, lists[b], firsts[b]);
  }

  /** The lists while a page is being cut, when the buckets from j on have got their chunks. */
  ghost function Part(h: Heap, g: Heap, j: nat): seq<seq<int>> {
    seq(BUCKETS, (b: nat) => if |g.lists| == |h.lists| == BUCKETS && b < BUCKETS then if b >= j then g.lists[b] else h.lists[b] else [])
  }

  lemma PartEnds(h: Heap, page: int, main: nat)
    requires Tiled(h) && main < BUCKETS
    ensures var g := AddPage(h, page, main); Part(h, g, 0) == g.lists && Part(h, g, main + 1) == h.lists
  {
    hide InLists;
    var g := AddPage(h, page, main);
    forall b | 0 <= b < BUCKETS ensures b > main ==> g.lists[b] == h.lists[b] {
      assert g.lists[b] == h.lists[b] + Cut(page, main, b);
    }
  }

  lemma PartStep(h: Heap, page: int, main: nat, j: nat)
    requires Tiled(h) && j < BUCKETS
    ensures var g := AddPage(h, page, main);
      Part(h, g, j) == Part(h, g, j + 1)[j := Part(h, g, j + 1)[j] + Cut(page, main, j)]
  {
    hide InLists, Cut;
  }

  /** The chunks a bucket is about to get are not in its list yet. */
  lemma CutOutside(h: Heap, page: int, main: nat, j: nat, a: int)
    requires Tiled(h) && page % PAGE == 0 && page !in h.pages && j <= main < BUCKETS && a in Cut(page, main, j)
    ensures a !in Part(h, AddPage(h, page, main), j + 1)[j]
  {
    hide InLists, Cut, IsChunk, ChunkBucket;
    CutInPage(page, main, j, a);
    NewPageApart(h, page, a);
  }

  /** While a page is being cut the lists stay apart. */
  lemma PartApart(h: Heap, page: int, main: nat, j: nat)
    requires Tiled(h) && page % PAGE == 0 && page !in h.pages && main < BUCKETS
    ensures Apart(Part(h, AddPage(h, page, main), j))
  {
    var g := AddPage(h, page, main);
    hide InLists, Cut, IsChunk, ChunkBucket;
    PageAddedTiles(h, page, main);
    TiledApart(h);
    TiledApart(g);
    PartOf(h, g, page, main, j);
    hide Tiled, AddPage, Part;
    var l := Part(h, g, j);
    forall b, c, a | 0 <= b < |l| && 0 <= c < |l| && b != c && a in l[b] ensures a !in l[c] {
      assert a in g.lists[b] && a !in g.lists[c];
    }
  }

  lemma PartOf(h: Heap, g: Heap, page: int, main: nat, j: nat)
    requires Tiled(h) && main < BUCKETS && g == AddPage(h, page, main)
    ensures |Part(h, g, j)| == |g.lists| == |h.lists| == BUCKETS
    ensures forall b, a :: 0 <= b < |Part(h, g, j)| && a in Part(h, g, j)[b] ==> a in g.lists[b]
    ensures forall b :: 0 <= b < |Part(h, g, j)| ==> Part(h, g, j)[b] == g.lists[b] || Part(h, g, j)[b] == h.lists[b]
  {
    hide InLists, Cut, IsChunk, ChunkBucket;
  }

  lemma CutInPage(page: int, main: nat, j: nat, a: int)
    requires main < BUCKETS && j < BUCKETS && page % PAGE == 0 && a in Cut(page, main, j)
    ensures page < a < page + PAGE && PageOf(a) == page && IsStart(a % PAGE, main)
  {
    CutOnce(page, main, j, a);
    hide Cut, BucketAt;
    assert a in multiset(Cut(page, main, j));
    InPage(page, a);
  }

  // ------------------------------------------------------------------ the arithmetic of cutting a page

  /** Where the k-th chunk counted from the end of the page lies, and that it fits. */
  lemma CutFromEnd(page: int, main: nat, k: nat)
    requires main < BUCKETS && page % PAGE == 0 && k < PAGE / Size(main) - 1
    ensures PAGE - Size(main) * (k + 1) >= Size(main) && Size(main) * (k + 1) == Size(main) * k + Size(main)
    ensures |Cut(page, main, main)| == PAGE / Size(main) - 1
    ensures Cut(page, main, main)[PAGE / Size(main) - 2 - k] == page + PAGE - Size(main) * (k + 1)
  {
    var z := Size(main);
    Sizes(main);
    DivMod(PAGE, z);
    hide Size;
    MulStep(z, k + 1, PAGE / z);
    var n := PAGE / z;
    assert Cut(page, main, main)[n - 2 - k] == page + z * (n - 2 - k + 1);
    assert z * n == z * (n - 2 - k + 1) + z * (k + 1);
  }

  /** The bytes of the page before its k last chunks. */
  function Left(main: nat, k: nat): int { PAGE - Size(main) * k }

  lemma LeftEnds(main: nat)
    requires main < BUCKETS
    ensures Left(main, 0) == PAGE && Left(main, (PAGE - 8) / Size(main)) == Size(main)
  {
    ChunkCount(main);
  }

  /** The next chunk down: there is room for it, and it is where the layout has it. */
  lemma NextChunk(page: int, main: nat, k: nat, offset: nat)
    requires main < BUCKETS && page % PAGE == 0 && k < PAGE / Size(main) - 1 && 8 * (offset + 1) == Left(main, k)
    ensures Size(main) / 8 <= offset && 8 * (offset - Size(main) / 8 + 1) == Left(main, k + 1)
    ensures |Cut(page, main, main)| == PAGE / Size(main) - 1
    ensures page + 8 + 8 * (offset - Size(main) / 8) == Cut(page, main, main)[PAGE / Size(main) - 2 - k]
  {
    CutFromEnd(page, main, k);
    Sizes(main);
    hide Size, Cut;
  }

  lemma ChunkCount(main: nat)
    requires main < BUCKETS
    ensures (PAGE - 8) / Size(main) == PAGE / Size(main) - 1 && PAGE / Size(main) >= 2
    ensures PAGE - Size(main) * (PAGE / Size(main) - 1) == Size(main)
  {
  }

  lemma {:induction false} FrontOfCut(page: int, main: nat, i: nat)
    requires main < BUCKETS && i < |Cut(page, main, main)|
    ensures [Cut(page, main, main)[i]] + Cut(page, main, main)[i + 1..] == Cut(page, main, main)[i..]
    ensures page % PAGE == 0 ==> Cut(page, main, main)[i] != NULL && Cut(page, main, main)[i] !in Cut(page, main, main)[i + 1..]
  {
    MainCutSorted(page, main);
    var s := Cut(page, main, main);
    assert s[i] in s;
    if page % PAGE == 0 { CutInPage(page, main, main, s[i]); ZeroIsNoChunk(page, main, s[i]); }
  }

  lemma ZeroIsNoChunk(page: int, main: nat, a: int)
    requires main < BUCKETS && page % PAGE == 0 && PageOf(a) == page && IsStart(a % PAGE, main)
    ensures a != NULL
  {
    hide Size, IndexOf;
  }

  class Buckets {
    const first: array<int>
    const last: array<int>
    var next: map<int, int>
    var headers: map<int, nat>
    ghost var h: Heap

    ghost predicate Shape()
      reads this, first, last
    {
      first.Length == BUCKETS == last.Length && first != last
    }

    ghost predicate Valid()
      reads this, first, last
    {
      Shape() && headers == h.pages && Tiled(h) && ListsIn(next, h.lists, first[..], last[..])
    }

    /** The heap of a thread just created, on memory as the others have left it. */
    constructor (next: map<int, int>, headers: map<int, nat>, ghost live: map<int, nat>, ghost elsewhere: multiset<int>)
      requires Tiled(Heap(NoLists(), live, headers, elsewhere))
      ensures Valid() && h == Heap(NoLists(), live, headers, elsewhere) && fresh(first) && fresh(last)
    {
      first := new int[BUCKETS](_ => NULL);
      last := new int[BUCKETS](_ => NULL);
      this.next, this.headers, h := next, headers, Heap(NoLists(), live, headers, elsewhere);
    }

    /** The bucket for a request: the first of the table that holds it. */
    static method SmallBucketIndexFromSize(size: nat) returns (r: nat)
      ensures r == IndexOf(size)
    {
      var b := 0;
      while b < BUCKETS
        invariant b <= BUCKETS && forall j :: 0 <= j < b ==> Size(j) < size
      {
        if size <= Size(b) {
          LeastBucket(size, b);
          return b;
        }
        b := b + 1;
      }
      assert Size(8) < size;
      r := NO_BUCKET;
    }

    /** Links a chain behind a bucket's list; cutting a page does this for each bucket. */
    method AppendChain(b: nat, chain: int, chainLast: int, ghost lists: seq<seq<int>>, ghost c: seq<int>)
      requires Shape() && ListsIn(next, lists, first[..], last[..]) && Apart(lists) && b < BUCKETS
      requires c != [] && Linked(next, c, chain) && (forall a :: a in c ==> a !in lists[b]) && chainLast == c[|c| - 1]
      modifies this`next, first, last
      ensures ListsIn(next, lists[b := lists[b] + c], first[..], last[..])
    {
      hide Linked, Apart, Bucket, ListsIn;
      ChainAppended(next, lists, first[..], last[..], b, c, chain);
      if last[b] != NULL {
        next := next[last[b] := chain];
      } else {
        first[b] := chain;
      }
      last[b] := chainLast;
      assert last[..] == old(last[..])[b := chainLast];
      assert first[..] == old(first[..])[b := if old(last[b]) != NULL then old(first[b]) else chain];
    }

    /** The first loop of InitChunkPage: the main chunks, placed from the end of the page down, become one chain. */
    method CutMain(b: nat, page: int) returns (offset: nat, chain: int, chainLast: int)
      requires Shape() && Tiled(h) && b < BUCKETS && page % PAGE == 0 && page !in h.pages
      requires ListsIn(next, h.lists, first[..], last[..])
      modifies this`next
      ensures ListsIn(next, h.lists, first[..], last[..])
      ensures var c := Cut(page, b, b); c != [] && Linked(next, c, chain) && chainLast == c[|c| - 1]
      ensures 8 * (offset + 1) == Size(b)
    {
      hide Tiled, ListsIn, Linked, Cut, InLists;
      var size, slots, count := Size(b), Size(b) / 8, (PAGE - 8) / Size(b);
      offset, chain, chainLast := 511, NULL, NULL;
      ghost var c := Cut(page, b, b);
      Sizes(b);
      ChunkCount(b);
      CutFromEnd(page, b, 0);
      NoLinks(next);
      LeftEnds(b);
      hide Size, Left;
      assert c[count..] == [];
      var k := 0;
      while k < count
        invariant k <= count && 8 * (offset + 1) == Left(b, k)
        invariant ListsIn(next, h.lists, first[..], last[..]) && Linked(next, c[count - k..], chain)
        invariant if k == 0 then chain == NULL else chain != NULL && chainLast == c[count - 1]
      {
        NextChunk(page, b, k, offset);
        FrontOfCut(page, b, count - 1 - k);
        CutOneOutside(h, page, b, count - 1 - k, next, first[..], last[..], chain);
        LinkedFront(next, c[count - k..], chain, c[count - 1 - k]);
        offset := offset - slots;
        var chunk := page + 8 + 8 * offset;
        assert chunk == c[count - 1 - k];
        next := next[chunk := chain];
        if chain == NULL { chainLast := chunk; }
        chain := chunk;
        k := k + 1;
      }
      assert c[0..] == c;
    }

    /** Its second loop: what is left at the start of the page gives one chunk of each smaller size. */
    method CutRest(b: nat, page: int, start: nat, ghost g: Heap)
      requires Shape() && Tiled(h) && b < BUCKETS && page % PAGE == 0 && page !in h.pages && g == AddPage(h, page, b)
      requires ListsIn(next, Part(h, g, b), first[..], last[..]) && 8 * (start + 1) == Size(b)
      modifies this`next, first, last
      ensures ListsIn(next, g.lists, first[..], last[..])
    {
      hide Tiled, ListsIn, Linked, Cut, InLists, AddPage, Apart, Part;
      var offset: nat, slots: nat, j: nat := start, Size(b) / 8, b;
      Sizes(b);
      PartEnds(h, page, b);
      while offset > 0
        invariant j <= b && 8 * (offset + 1) == Size(j) && slots == Size(j) / 8
        invariant ListsIn(next, Part(h, g, j), first[..], last[..])
      {
        Halves(j);
        slots := slots / 2;
        offset := offset - slots;
        j := j - 1;
        var chunk := page + 8 + 8 * offset;
        OneMore(h, page, b, j, next, first[..], last[..]);
        next := next[chunk := NULL];
        AppendChain(j, chunk, chunk, Part(h, g, j + 1), [chunk]);
      }
      SmallestSize(j);
    }

    /** Cuts a fresh page up for a bucket. */
    method InitChunkPage(b: nat, page: int)
      requires Valid() && b < BUCKETS && page % PAGE == 0 && page !in h.pages
      modifies this, first, last
      ensures Valid() && h == AddPage(old(h), page, b)
    {
      hide Tiled, ListsIn, Linked, Cut, InLists, AddPage, Apart, Part;
      ghost var g := AddPage(h, page, b);
      PageAddedTiles(h, page, b);
      PartEnds(h, page, b);
      PartStep(h, page, b, b);
      PartApart(h, page, b, b + 1);
      PagesAfter(h, page, b);
      PartOf(h, g, page, b, b + 1);
      ghost var c := Cut(page, b, b);
      forall a | a in c ensures a !in Part(h, g, b + 1)[b] { CutOutside(h, page, b, b, a); }
      var offset, chain, chainLast := CutMain(b, page);
      AppendChain(b, chain, chainLast, Part(h, g, b + 1), c);
      CutRest(b, page, offset, g);
      headers := headers[page := b];
      h := g;
    }

    /** A chunk for the request, from a page cut for it when its bucket is empty; too big a request gets none. */
    method SmallAlloc(size: nat, page: int) returns (chunk: int)
      requires Valid() && page % PAGE == 0 && page !in h.pages
      modifies this, first, last
      ensures Valid()
      ensures size > 2048 ==> chunk == NULL && h == old(h)
      ensures size <= 2048 ==> var b := IndexOf(size); var r := Refilled(old(h), b, page);
        && h == Allocated(old(h), b, page) && |r.lists| == BUCKETS && r.lists[b] != [] && chunk == r.lists[b][0] && chunk != NULL
    {
      hide Tiled, Linked, InLists, AddPage, ListsIn;
      var b := SmallBucketIndexFromSize(size);
      chunk := NULL;
      if b != NO_BUCKET {
        BucketAt0(next, h.lists, first[..], last[..], b);
        AllocationIsFresh(h, b, page);
        if first[b] == NULL {
          InitChunkPage(b, page);
        }
        TakenTiles(h, b);
        chunk := TakeFirst(b);
      }
    }

    method TakeFirst(b: nat) returns (chunk: int)
      requires Valid() && b < BUCKETS && |h.lists| == BUCKETS && h.lists[b] != []
      modifies this`h, first, last
      ensures Valid() && h == Taken(old(h), b) && chunk == old(h.lists[b][0]) && chunk != NULL
    {
      hide Tiled, InLists, ListsIn;
      TakenTiles(h, b);
      FirstTaken(next, h.lists, first[..], last[..], b);
      chunk := first[b];
      first[b] := next[chunk];
      if first[b] == NULL {
        last[b] := NULL;
      }
      h := Taken(h, b);
      assert first[..] == old(first[..])[b := next[chunk]];
      assert last[..] == old(last[..])[b := if next[chunk] == NULL then NULL else old(last[b])];
    }

    /** A chunk in use goes in front of the list of the bucket that its address and its page's header give. */
    method SmallFree(chunk: int)
      requires Valid() && chunk in h.live
      modifies this, first, last
      ensures Valid() && h == Freed(old(h), chunk)
    {
      hide Tiled, InLists, ListsIn, Linked, IsStart;
      LiveIsChunk(h, chunk);
      FreedTiles(h, chunk);
      PageBase(chunk);
      var page := chunk - chunk % PAGE;
      var b := SmallBucketIndexFromSize(chunk - page);
      if b > headers[page] {
        b := headers[page];
      }
      LiveOutside(h, chunk);
      ZeroIsNoChunk(page, headers[page], chunk);
      FrontAdded(next, h.lists, first[..], last[..], b, chunk);
      next := next[chunk := first[b]];
      first[b] := chunk;
      if next[chunk] == NULL {
        last[b] := chunk;
      }
      h := Freed(h, chunk);
      assert first[..] == old(first[..])[b := chunk];
      assert last[..] == old(last[..])[b := if old(first[b]) == NULL then chunk else old(last[b])];
    }

    // ---------------------------------------------------------------- one heap for all sizes

    /** bigs are the addresses in use that the big heap handed out; newPage is what it would hand out next. */
    method Malloc(size: nat, newPage: int, ghost bigs: set<int>) returns (a: int, ghost nowBigs: set<int>)
      requires Valid() && newPage % PAGE == 0 && newPage !in h.pages
      modifies this, first, last
      ensures Valid()
      ensures size == 0 ==> a == NULL && h == old(h) && nowBigs == bigs
      ensures size > 2048 ==> a == newPage && h == old(h) && nowBigs == bigs + {a}
      ensures 0 < size <= 2048 ==> nowBigs == bigs && a !in old(h).live && h.live == old(h).live[a := IndexOf(size)] && a % PAGE != 0
      ensures 0 < size <= 2048 ==> size <= Size(IndexOf(size)) && (IndexOf(size) > 0 ==> Size(IndexOf(size) - 1) < size)
    {
      hide Tiled, InLists, ListsIn, Linked, IsStart, Size, AddPage;
      nowBigs := bigs;
      a := NULL;
      if size != 0 {
        if size > 2048 {
          a := newPage;
          nowBigs := bigs + {a};
        } else {
          BucketFits(size);
          AllocationIsFresh(h, IndexOf(size), newPage);
          a := SmallAlloc(size, newPage);
          ChunkInPage(h.pages, a);
        }
      }
    }

    /** Whether an address goes back to the small heap or the big one is read off the address alone. */
    method Free(a: int, ghost bigs: set<int>) returns (ghost nowBigs: set<int>)
      requires Valid() && (a == NULL || a in h.live || a in bigs)
      requires forall g :: g in bigs ==> g % PAGE == 0
      modifies this, first, last
      ensures Valid()
      ensures a in old(h).live ==> h == Freed(old(h), a) && nowBigs == bigs
      ensures a !in old(h).live ==> h == old(h) && nowBigs == bigs - {a}
    {
      hide Tiled, InLists, ListsIn, Linked, IsStart;
      nowBigs := bigs;
      if a in h.live {
        LiveIsChunk(h, a);
        ChunkInPage(h.pages, a);
      }
      if a % PAGE != 0 {
        SmallFree(a);
      } else {
        nowBigs := bigs - {a};
      }
    }
  }

  lemma LeastBucket(size: nat, b: nat)
    requires b < BUCKETS && size <= Size(b) && forall j :: 0 <= j < b ==> Size(j) < size
    ensures b == IndexOf(size)
  {
    assert b > 0 ==> Size(b - 1) < size;
  }

  lemma NoLinks(next: map<int, int>)
    ensures Linked(next, [], NULL)
  {
  }

  lemma CutOneOutside(h: Heap, page: int, b: nat, i: nat, next: map<int, int>, firsts: seq<int>, lasts: seq<int>, chain: int)
    requires Tiled(h) && b < BUCKETS && page % PAGE == 0 && page !in h.pages && i < |Cut(page, b, b)|
    requires ListsIn(next, h.lists, firsts, lasts)
    ensures ListsIn(next[Cut(page, b, b)[i] := chain], h.lists, firsts, lasts)
  {
    var a := Cut(page, b, b)[i];
    hide InLists, Cut, IsStart, ListsIn;
    CutInPage(page, b, b, a);
    NewPageApart(h, page, a);
    OutsideWritten(next, next[a := chain], h.lists, firsts, lasts);
  }

  lemma Halves(j: nat)
    requires j < BUCKETS && Size(j) > 8
    ensures j > 0 && Size(j) / 8 / 2 == Size(j - 1) / 8 && 8 * (Size(j - 1) / 8) == Size(j - 1) && Size(j) == 2 * Size(j - 1)
  {
  }

  lemma SmallestSize(j: nat)
    requires j < BUCKETS && Size(j) == 8
    ensures j == 0
  {
  }

  lemma PagesAfter(h: Heap, page: int, b: nat)
    ensures AddPage(h, page, b).pages == h.pages[page := b]
  {
  }

  /** The one chunk of a smaller size is a chain by itself, and is in no list yet. */
  lemma OneMore(h: Heap, page: int, main: nat, j: nat, next: map<int, int>, firsts: seq<int>, lasts: seq<int>)
    requires Tiled(h) && j < main < BUCKETS && page % PAGE == 0 && page !in h.pages
    requires ListsIn(next, Part(h, AddPage(h, page, main), j + 1), firsts, lasts)
    ensures var l := Part(h, AddPage(h, page, main), j + 1); var a := page + Size(j); var more := next[a := NULL];
      && ListsIn(more, l, firsts, lasts) && Apart(l) && Linked(more, [a], a) && |l| == BUCKETS && a !in l[j]
      && Part(h, AddPage(h, page, main), j) == l[j := l[j] + [a]]
  {
    var g := AddPage(h, page, main);
    var l, a := Part(h, g, j + 1), page + Size(j);
    var more := next[a := NULL];
    assert Cut(page, main, j) == [a];
    hide InLists, IsStart, ListsIn, Apart, Size, Cut;
    CutInPage(page, main, j, a);
    ZeroIsNoChunk(page, main, a);
    PartStep(h, page, main, j);
    PartApart(h, page, main, j + 1);
    OutsideOfAll(h, page, main, j, a);
    OutsideWritten(next, more, l, firsts, lasts);
    assert [a][1..] == [];
  }

  lemma OutsideOfAll(h: Heap, page: int, main: nat, j: nat, a: int)
    requires Tiled(h) && page % PAGE == 0 && page !in h.pages && j < main < BUCKETS && a in Cut(page, main, j)
    ensures var l := Part(h, AddPage(h, page, main), j + 1); forall d :: 0 <= d < |l| ==> a !in l[d]
  {
    var g := AddPage(h, page, main);
    var l := Part(h, g, j + 1);
    hide InLists, Cut, IsStart, ChunkBucket;
    PageAddedTiles(h, page, main);
    TiledApart(g);
    CutOutside(h, page, main, j, a);
    assert a in g.lists[j];
    PartOf(h, g, page, main, j + 1);
    hide Tiled, Part, AddPage;
    forall d | 0 <= d < |l| ensures a !in l[d] {
      assert d != j ==> a !in g.lists[d];
    }
  }

  lemma FirstTaken(next: map<int, int>, lists: seq<seq<int>>, firsts: seq<int>, lasts: seq<int>, b: nat)
    requires ListsIn(next, lists, firsts, lasts) && b < BUCKETS && lists[b] != []
    ensures firsts[b] == lists[b][0] && firsts[b] in next && firsts[b] != NULL
    ensures var n := next[firsts[b]];
      ListsIn(next, lists[b := lists[b][1..]], firsts[b := n], lasts[b := if n == NULL then NULL else lasts[b]])
  {
    var s := lists[b];
    assert Bucket(next, s, firsts[b], lasts[b]);
    var n := next[firsts[b]];
    LinkedNonzero(next, s[1..], n);
    assert Bucket(next, s[1..], n, if n == NULL then NULL else lasts[b]);
  }

  lemma LiveOutside(h: Heap, a: int)
    requires Tiled(h) && a in h.live
    ensures |h.lists| == BUCKETS && forall b :: 0 <= b < |h.lists| ==> a !in h.lists[b]
  {
    hide InLists, IsChunk;
    forall b | 0 <= b < |h.lists| ensures a !in h.lists[b] {
      if a in h.lists[b] { FreeIsChunk(h, b, a); }
    }
  }

  lemma FrontAdded(next: map<int, int>, lists: seq<seq<int>>, firsts: seq<int>, lasts: seq<int>, b: nat, a: int)
    requires ListsIn(next, lists, firsts, lasts) && b < BUCKETS && a != NULL
    requires forall d :: 0 <= d < |lists| ==> a !in lists[d]
    ensures ListsIn(next[a := firsts[b]], lists[b := [a] + lists[b]], firsts[b := a],
                    lasts[b := if firsts[b] == NULL then a else lasts[b]])
  {
    var more := next[a := firsts[b]];
    BucketAt0(next, lists, firsts, lasts, b);
    LinkedFront(next, lists[b], firsts[b], a);
    OutsideWritten(next, more, lists, firsts, lasts);
    hide Linked;
    assert Bucket(more, [a] + lists[b], a, if firsts[b] == NULL then a else lasts[b]);
  }
}
