/**
  The entry pages of kernel/fs/pup.c as they lie in memory: a doubly linked list with an index in
  every page, a current page, and the pages that have run empty chained by next alone.

  Every method is proved to do to the pages what the function of the same kind in CacheSlab does.  As
  in ThreadQueues, memory is taken as a value, a map from pages to their fields, and what the writes do
  to the list is proved as lemmas about maps.
 */
module EntryPages {
  import opened CacheSlab

  class EntryPage {
    var next: EntryPage?
    var prev: EntryPage?
    var index: nat
    var used: int
    var free: seq<nat>

    constructor ()
      ensures next == null && prev == null && index == 0 && used == 0
    {
      next, prev, index, used, free := null, null, 0, 0, [];
    }
  }

  type Pages = Slab<EntryPage>

  datatype Cell = Cell(next: EntryPage?, prev: EntryPage?, index: nat, used: int, free: seq<nat>)

  type Memory = map<EntryPage, Cell>

  ghost function MemoryOf(ts: set<EntryPage>): Memory
    reads ts
  {
    map t | t in ts :: Cell(t.next, t.prev, t.index, t.used, t.free)
  }

  datatype Heads = Heads(first: EntryPage?, last: EntryPage?, cur: EntryPage?, count: nat, freeable: EntryPage?)

  // ------------------------------------------------------------------ how the pages lie in memory

  function PageAt(ps: seq<PageView<EntryPage>>, i: int): EntryPage? { if 0 <= i < |ps| then ps[i].page else null }

  /** Page i has its neighbours' links, its position for an index, and as many used entries as are not free. */
  ghost predicate PageOk(m: Memory, ps: seq<PageView<EntryPage>>, i: nat) {
    i < |ps| && ps[i].page in m
    && m[ps[i].page] == Cell(PageAt(ps, i + 1), PageAt(ps, i - 1), i, ENTRIES - |ps[i].free|, ps[i].free)
  }

  ghost predicate Chain(m: Memory, s: seq<EntryPage>, head: EntryPage?)
    decreases |s|
  {
    if s == [] then head == null else head == s[0] && s[0] in m && Chain(m, s[1..], m[s[0]].next)
  }

  ghost predicate Shows(m: Memory, v: Pages, h: Heads) {
    && Good(v)
    && (forall i :: 0 <= i < |v.pages| ==> PageOk(m, v.pages, i))
    && h.first == PageAt(v.pages, 0) && h.last == PageAt(v.pages, |v.pages| - 1) && h.cur == PageAt(v.pages, v.cur)
    && h.count == |v.pages|
    && Chain(m, v.spare, h.freeable)
  }

  lemma {:induction false} ChainKept(m: Memory, n: Memory, s: seq<EntryPage>, head: EntryPage?)
    requires Chain(m, s, head) && forall t :: t in s && t in m ==> t in n && n[t].next == m[t].next
    ensures Chain(n, s, head)
    decreases |s|
  {
    if s != [] { ChainKept(m, n, s[1..], m[s[0]].next); }
  }

  /** No page is twice in the list, nor both in it and spare. */
  lemma PageOnce(v: Pages, i: nat, j: nat)
    requires Good(v) && i < |v.pages| && j < |v.pages| && v.pages[i].page == v.pages[j].page
    ensures i == j && v.pages[i].page !in v.spare
  {
    hide GoodPage;
    assert i < j || j < i || i == j;
    assert forall k :: 0 <= k < |v.spare| ==> v.spare[k] != v.pages[i].page;
  }

  // ------------------------------------------------------------------ taking an entry

  ghost function EntryTaken(m: Memory, p: EntryPage): Memory {
    if p in m && m[p].free != [] then m[p := m[p].(free := m[p].free[1..], used := m[p].used + 1)] else m
  }

  lemma TakeShows(m: Memory, v: Pages, h: Heads)
    requires Shows(m, v, h) && v.pages[v.cur].free != []
    ensures Shows(EntryTaken(m, v.pages[v.cur].page), TakeEntry(v), h)
  {
    var p, w := v.pages[v.cur].page, TakeEntry(v);
    var n := EntryTaken(m, p);
    TakeKeeps(v);
    PageOnce(v, v.cur, v.cur);
    hide Good;
    forall i | 0 <= i < |w.pages| ensures PageOk(n, w.pages, i) {
      assert PageOk(m, v.pages, i);
      TakenPageOk(m, v, i);
    }
    hide PageOk;
    ChainKept(m, n, v.spare, h.freeable);
  }

  lemma TakenPageOk(m: Memory, v: Pages, i: nat)
    requires Good(v) && i < |v.pages| && PageOk(m, v.pages, i) && v.pages[v.cur].free != []
    ensures PageOk(EntryTaken(m, v.pages[v.cur].page), TakeEntry(v).pages, i)
  {
    if i != v.cur { PageOnceOnly(v, i, v.cur); }
    hide Good;
    var w := TakeEntry(v);
    assert PageAt(w.pages, i + 1) == PageAt(v.pages, i + 1) && PageAt(w.pages, i - 1) == PageAt(v.pages, i - 1);
  }

  // ------------------------------------------------------------------ adding a page

  /** The page made ready and linked behind the last. */
  ghost function PageLinked(m: Memory, page: EntryPage, h: Heads): Memory {
    var n := if page in m then m[page := Cell(null, h.last, h.count, 0, AllSlots())] else m;
    if h.last != null && h.last in n then n[h.last := n[h.last].(next := page)] else n
  }

  ghost function NewHeads(h: Heads, page: EntryPage): Heads {
    h.(last := page, cur := page, count := h.count + 1)
  }

  lemma LinkShows(m: Memory, v: Pages, h: Heads, page: EntryPage)
    requires Shows(m, v, h) && page in m && Unknown(v, page)
    requires forall i :: 0 <= i < |v.pages| ==> v.pages[i].free == []
    ensures Shows(PageLinked(m, page, h), Slab(v.pages + [PageView(page, AllSlots())], |v.pages|, v.spare), NewHeads(h, page))
  {
    var w := Slab(v.pages + [PageView(page, AllSlots())], |v.pages|, v.spare);
    var n := PageLinked(m, page, h);
    var last := |v.pages| - 1;
    LinkedGood(v, page);
    assert PageOk(m, v.pages, last) && h.last == v.pages[last].page;
    PageOnce(v, last, last);
    hide Good, AllSlots;
    forall i | 0 <= i < |w.pages| ensures PageOk(n, w.pages, i) {
      if i < |v.pages| { assert PageOk(m, v.pages, i); }
      LinkedPageOk(m, v, h, page, i);
    }
    hide PageOk;
    ChainKept(m, n, v.spare, h.freeable);
  }

  lemma LinkedPageOk(m: Memory, v: Pages, h: Heads, page: EntryPage, i: nat)
    requires Good(v) && page in m && Unknown(v, page) && h.count == |v.pages| && h.last == v.pages[|v.pages| - 1].page && h.last in m
    requires i <= |v.pages| && (i < |v.pages| ==> PageOk(m, v.pages, i))
    ensures PageOk(PageLinked(m, page, h), v.pages + [PageView(page, AllSlots())], i)
  {
    var last := |v.pages| - 1;
    if i < last { PageOnceOnly(v, i, last); }
    hide Good, AllSlots;
    var qs := v.pages + [PageView(page, AllSlots())];
    assert PageAt(qs, i - 1) == PageAt(v.pages, i - 1);
    assert i < last ==> PageAt(qs, i + 1) == PageAt(v.pages, i + 1);
  }

  lemma PageOnceOnly(v: Pages, i: nat, j: nat)
    requires Good(v) && i < |v.pages| && j < |v.pages| && i != j
    ensures v.pages[i].page != v.pages[j].page
  {
    hide GoodPage;
    assert i < j || j < i;
  }

  lemma LinkedGood(v: Pages, page: EntryPage)
    requires Good(v) && Unknown(v, page) && forall i :: 0 <= i < |v.pages| ==> v.pages[i].free == []
    ensures Good(Slab(v.pages + [PageView(page, AllSlots())], |v.pages|, v.spare))
  {
    AllSlotsGood(page);
    var w := Slab(v.pages + [PageView(page, AllSlots())], |v.pages|, v.spare);
    hide GoodPage, AllSlots;
    assert |w.pages| == |v.pages| + 1 && forall i :: 0 <= i < |v.pages| ==> w.pages[i] == v.pages[i];
  }

  // ------------------------------------------------------------------ giving an entry back

  ghost function EntryGiven(m: Memory, p: EntryPage, slot: nat): Memory {
    if p in m then m[p := m[p].(free := [slot] + m[p].free, used := m[p].used - 1)] else m
  }

  /** The page stays in the list; when it is before the current one it becomes that. */
  lemma GiveShows(m: Memory, v: Pages, h: Heads, i: nat, slot: nat)
    requires Shows(m, v, h) && i < |v.pages| && Live(v, EntryRef(v.pages[i].page, slot))
    requires !(|v.pages[i].free| + 1 == ENTRIES && |v.pages| > 1)
    ensures Shows(EntryGiven(m, v.pages[i].page, slot), Free(v, i, slot),
                  h.(cur := if i < v.cur then v.pages[i].page else h.cur))
  {
    var p, w := v.pages[i].page, Free(v, i, slot);
    var n := EntryGiven(m, p, slot);
    FreeKeeps(v, i, slot);
    PageOnce(v, i, i);
    hide Good, Live;
    forall j | 0 <= j < |w.pages| ensures PageOk(n, w.pages, j) {
      assert PageOk(m, v.pages, j);
      GivenPageOk(m, v, i, slot, j);
    }
    hide PageOk;
    ChainKept(m, n, v.spare, h.freeable);
  }

  lemma GivenPageOk(m: Memory, v: Pages, i: nat, slot: nat, j: nat)
    requires Good(v) && i < |v.pages| && j < |v.pages| && PageOk(m, v.pages, j)
    requires !(|v.pages[i].free| + 1 == ENTRIES && |v.pages| > 1)
    ensures PageOk(EntryGiven(m, v.pages[i].page, slot), Free(v, i, slot).pages, j)
  {
    if i != j { PageOnceOnly(v, i, j); }
    hide Good;
    var w := Free(v, i, slot);
    assert PageAt(w.pages, j + 1) == PageAt(v.pages, j + 1) && PageAt(w.pages, j - 1) == PageAt(v.pages, j - 1);
  }

  // ------------------------------------------------------------------ taking an empty page out of the list

  ghost predicate After(ps: seq<PageView<EntryPage>>, k: nat, q: EntryPage) { exists j :: k < j < |ps| && ps[j].page == q }

  /** Every page after k one position lower. */
  ghost function Renumbered(m: Memory, ps: seq<PageView<EntryPage>>, k: nat): Memory {
    map q | q in m :: if After(ps, k, q) && m[q].index > 0 then m[q].(index := m[q].index - 1) else m[q]
  }

  ghost function WithNext(m: Memory, q: EntryPage?, x: EntryPage?): Memory {
    if q != null && q in m then m[q := m[q].(next := x)] else m
  }

  ghost function WithPrev(m: Memory, q: EntryPage?, x: EntryPage?): Memory {
    if q != null && q in m then m[q := m[q].(prev := x)] else m
  }

  /** The links around page k closed. */
  ghost function Closed(m: Memory, ps: seq<PageView<EntryPage>>, k: nat): Memory {
    var a, b := PageAt(ps, k - 1), PageAt(ps, k + 1);
    var n := if k == 0 then WithPrev(m, b, null) else WithNext(m, a, b);
    if k + 1 == |ps| then WithNext(n, a, null) else WithPrev(n, b, a)
  }

  /** And page k chained before the spare pages. */
  ghost function Unlinked(m: Memory, ps: seq<PageView<EntryPage>>, k: nat, freeable: EntryPage?): Memory {
    WithNext(Closed(m, ps, k), PageAt(ps, k), freeable)
  }

  /** The heads after page k of the list has gone. */
  ghost function CutHeads(h: Heads, v: Pages, k: nat): Heads {
    var ps := v.pages;
    Heads(if k == 0 then PageAt(ps, 1) else h.first, if k + 1 == |ps| then PageAt(ps, k - 1) else h.last,
          if k == v.cur then (if k == 0 then PageAt(ps, 1) else h.first) else h.cur, if h.count > 0 then h.count - 1 else 0, PageAt(ps, k))
  }

  lemma TailMeans(v: Pages, k: nat, j: nat)
    requires Good(v) && k < |v.pages| && j < |v.pages|
    ensures After(v.pages, k, v.pages[j].page) <==> j > k
  {
    hide Good;
    if After(v.pages, k, v.pages[j].page) {
      var i :| k < i < |v.pages| && v.pages[i].page == v.pages[j].page;
      PageOnce(v, i, j);
    }
  }

  /** What is left of a page's cell, position by position. */
  lemma UnlinkedPageOk(m: Memory, v: Pages, k: nat, freeable: EntryPage?, j: nat)
    requires Good(v) && k < |v.pages| && |v.pages| > 1 && j < |v.pages| && j != k && PageOk(m, v.pages, j)
    ensures PageOk(Unlinked(Renumbered(m, v.pages, k), v.pages, k, freeable), Removed(v.pages, k), if j < k then j else j - 1)
  {
    hide Good, Removed, After, Unlinked, Renumbered;
    var i := if j < k then j else j - 1;
    TailMeans(v, k, j);
    PageOnceOnly(v, j, k);
    if j != k - 1 && k > 0 { PageOnceOnly(v, j, k - 1); }
    if j != k + 1 && k + 1 < |v.pages| { PageOnceOnly(v, j, k + 1); }
    RemovedAt(v.pages, k, i);
    RemovedAt(v.pages, k, i + 1);
    RemovedAt(v.pages, k, i - 1);
    RenumberedCell(m, v.pages, k, v.pages[j].page);
    UnlinkedCell(Renumbered(m, v.pages, k), v.pages, k, freeable, j);
  }

  lemma RenumberedCell(m: Memory, ps: seq<PageView<EntryPage>>, k: nat, q: EntryPage)
    requires q in m
    ensures q in Renumbered(m, ps, k)
    ensures Renumbered(m, ps, k)[q] == if After(ps, k, q) && m[q].index > 0 then m[q].(index := m[q].index - 1) else m[q]
  {
  }

  lemma UnlinkedCell(m: Memory, ps: seq<PageView<EntryPage>>, k: nat, freeable: EntryPage?, j: nat)
    requires k < |ps| && j < |ps| && j != k && |ps| > 1 && ps[j].page in m
    requires ps[j].page != ps[k].page
    requires j != k - 1 ==> ps[j].page != PageAt(ps, k - 1)
    requires j != k + 1 ==> ps[j].page != PageAt(ps, k + 1)
    ensures var q := ps[j].page; var n := Unlinked(m, ps, k, freeable);
      q in n && n[q] == m[q].(next := if j == k - 1 then PageAt(ps, k + 1) else m[q].next,
                              prev := if j == k + 1 then PageAt(ps, k - 1) else m[q].prev)
  {
  }

  lemma RemovedAt(ps: seq<PageView<EntryPage>>, k: nat, i: int)
    requires k < |ps|
    ensures |Removed(ps, k)| == |ps| - 1
    ensures PageAt(Removed(ps, k), i) == if i < k then PageAt(ps, i) else PageAt(ps, i + 1)
    ensures 0 <= i < |ps| - 1 ==> Removed(ps, k)[i] == ps[if i < k then i else i + 1]
  {
  }

  lemma SparesUntouched(m: Memory, v: Pages, k: nat, freeable: EntryPage?, t: EntryPage)
    requires Good(v) && k < |v.pages| && t in v.spare && t in m
    ensures var n := Unlinked(Renumbered(m, v.pages, k), v.pages, k, freeable); t in n && n[t].next == m[t].next
  {
    PageOnce(v, k, k);
    if k > 0 { PageOnce(v, k - 1, k - 1); }
    if k + 1 < |v.pages| { PageOnce(v, k + 1, k + 1); }
    hide Good, After;
  }

  lemma CutShows(m: Memory, v: Pages, h: Heads, k: nat, slot: nat)
    requires Shows(m, v, h) && k < |v.pages| && |v.pages| > 1 && Live(v, EntryRef(v.pages[k].page, slot))
    requires |v.pages[k].free| + 1 == ENTRIES
    ensures Shows(Unlinked(Renumbered(EntryGiven(m, v.pages[k].page, slot), v.pages, k), v.pages, k, h.freeable),
                  Free(v, k, slot), CutHeads(h, v, k))
  {
    var p := v.pages[k].page;
    var m1 := EntryGiven(m, p, slot);
    var n := Unlinked(Renumbered(m1, v.pages, k), v.pages, k, h.freeable);
    var w := Free(v, k, slot);
    FreeKeeps(v, k, slot);
    assert PageOk(m, v.pages, k);
    hide Live;
    forall i | 0 <= i < |w.pages| ensures PageOk(n, w.pages, i) {
      CutPageOk(m, v, k, slot, h.freeable, i);
    }
    CutChain(m, v, k, slot, h.freeable);
    FreeFields(v, k, slot);
    hide PageOk, Unlinked, Renumbered, EntryGiven, Free, Chain, Good;
    CutEnds(v, k, h);
  }

  lemma CutPageOk(m: Memory, v: Pages, k: nat, slot: nat, freeable: EntryPage?, i: nat)
    requires Good(v) && k < |v.pages| && |v.pages| > 1 && i < |v.pages| - 1
    requires PageOk(m, v.pages, if i < k then i else i + 1)
    ensures PageOk(Unlinked(Renumbered(EntryGiven(m, v.pages[k].page, slot), v.pages, k), v.pages, k, freeable), Removed(v.pages, k), i)
  {
    var j := if i < k then i else i + 1;
    PageOnceOnly(v, j, k);
    hide Good, Unlinked, Renumbered, Removed;
    UnlinkedPageOk(EntryGiven(m, v.pages[k].page, slot), v, k, freeable, j);
  }

  lemma CutChain(m: Memory, v: Pages, k: nat, slot: nat, freeable: EntryPage?)
    requires Good(v) && k < |v.pages| && v.pages[k].page in m && Chain(m, v.spare, freeable)
    ensures Chain(Unlinked(Renumbered(EntryGiven(m, v.pages[k].page, slot), v.pages, k), v.pages, k, freeable),
                  [v.pages[k].page] + v.spare, v.pages[k].page)
  {
    var p := v.pages[k].page;
    var m1 := EntryGiven(m, p, slot);
    var n := Unlinked(Renumbered(m1, v.pages, k), v.pages, k, freeable);
    PageOnce(v, k, k);
    hide Good, After;
    assert p in n && n[p].next == freeable;
    hide Unlinked, Renumbered;
    forall t | t in v.spare && t in m ensures t in n && n[t].next == m[t].next {
      SparesUntouched(m1, v, k, freeable, t);
    }
    ChainKept(m, n, v.spare, freeable);
    assert ([p] + v.spare)[1..] == v.spare;
  }

  lemma FreeFields(v: Pages, k: nat, slot: nat)
    requires k < |v.pages| && |v.pages| > 1 && |v.pages[k].free| + 1 == ENTRIES
    ensures Free(v, k, slot) == Slab(Removed(v.pages, k), if k == v.cur then 0 else if k < v.cur then v.cur - 1 else v.cur,
                                     [v.pages[k].page] + v.spare)
  {
  }

  lemma CutEnds(v: Pages, k: nat, h: Heads)
    requires k < |v.pages| && |v.pages| > 1
    requires h.first == PageAt(v.pages, 0) && h.last == PageAt(v.pages, |v.pages| - 1) && h.cur == PageAt(v.pages, v.cur)
    requires v.cur < |v.pages| && h.count == |v.pages|
    ensures var qs := Removed(v.pages, k); var c := CutHeads(h, v, k);
      && c.first == PageAt(qs, 0) && c.last == PageAt(qs, |qs| - 1) && c.count == |qs|
      && c.cur == PageAt(qs, if k == v.cur then 0 else if k < v.cur then v.cur - 1 else v.cur)
  {
    RemovedAt(v.pages, k, 0);
    RemovedAt(v.pages, k, |v.pages| - 2);
    RemovedAt(v.pages, k, v.cur);
    RemovedAt(v.pages, k, v.cur - 1);
  }

  // ------------------------------------------------------------------ moving between the steps of an allocation

  lemma MoveShows(m: Memory, v: Pages, h: Heads, j: nat)
    requires Shows(m, v, h) && j < |v.pages| && forall i :: 0 <= i < j ==> v.pages[i].free == []
    ensures Shows(m, v.(cur := j), h.(cur := PageAt(v.pages, j)))
  {
    hide GoodPage, Chain;
    forall i | 0 <= i < |v.pages| ensures PageOk(m, v.(cur := j).pages, i) { assert PageOk(m, v.pages, i); }
  }

  lemma SpareTaken(m: Memory, v: Pages, h: Heads)
    requires Shows(m, v, h) && v.spare != []
    ensures h.freeable == v.spare[0] && v.spare[0] in m
    ensures Shows(m, v.(spare := v.spare[1..]), h.(freeable := m[v.spare[0]].next)) && Unknown(v.(spare := v.spare[1..]), v.spare[0])
  {
    hide GoodPage;
    var w := v.(spare := v.spare[1..]);
    assert forall k :: 0 <= k < |w.spare| ==> w.spare[k] == v.spare[k + 1];
    forall i | 0 <= i < |v.pages| ensures PageOk(m, w.pages, i) { assert PageOk(m, v.pages, i); }
    assert v.spare[0] !in w.spare;
  }

  lemma NoSpare(m: Memory, v: Pages, h: Heads)
    requires Shows(m, v, h)
    ensures h.freeable == null <==> v.spare == []
  {
    hide Good;
  }

  /** A page that is not in memory yet is unknown, and its coming leaves everything shown as it was. */
  lemma MemoryGrows(m: Memory, n: Memory, v: Pages, h: Heads, page: EntryPage)
    requires Shows(m, v, h) && page !in m && forall q :: q in m ==> q in n && n[q] == m[q]
    ensures Shows(n, v, h) && Unknown(v, page)
  {
    hide Good;
    forall i | 0 <= i < |v.pages| ensures PageOk(n, v.pages, i) && v.pages[i].page != page { assert PageOk(m, v.pages, i); }
    ChainKept(m, n, v.spare, h.freeable);
    ChainKnown(m, v.spare, h.freeable);
  }

  lemma {:induction false} ChainKnown(m: Memory, s: seq<EntryPage>, head: EntryPage?)
    requires Chain(m, s, head)
    ensures forall q :: q in s ==> q in m
    decreases |s|
  {
    if s != [] {
      ChainKnown(m, s[1..], m[s[0]].next);
      assert s == [s[0]] + s[1..];
    }
  }

  lemma ShownPage(m: Memory, v: Pages, h: Heads, i: nat)
    requires Shows(m, v, h) && i < |v.pages|
    ensures v.pages[i].page in m
    ensures m[v.pages[i].page] == Cell(PageAt(v.pages, i + 1), PageAt(v.pages, i - 1), i, ENTRIES - |v.pages[i].free|, v.pages[i].free)
  {
    hide Good;
    assert PageOk(m, v.pages, i);
  }

  lemma ShownHeads(m: Memory, v: Pages, h: Heads)
    requires Shows(m, v, h)
    ensures v.cur < |v.pages| && h.cur == v.pages[v.cur].page && h.first == v.pages[0].page && h.last == v.pages[|v.pages| - 1].page
    ensures h.count == |v.pages| && Good(v) && forall i :: 0 <= i < v.cur ==> v.pages[i].free == []
  {
  }

  lemma CellOf(ts: set<EntryPage>, t: EntryPage)
    ensures t in MemoryOf(ts) <==> t in ts
    ensures t in ts ==> MemoryOf(ts)[t] == Cell(t.next, t.prev, t.index, t.used, t.free)
  {
  }

  // ------------------------------------------------------------------ the code

  class EntrySlab {
    var first: EntryPage?
    var last: EntryPage?
    var cur: EntryPage?
    var freeable: EntryPage?
    var count: nat
    ghost var v: Pages
    ghost var pages: set<EntryPage>

    ghost function Memory(): Memory
      reads this, pages
    {
      MemoryOf(pages)
    }

    ghost function Head(): Heads
      reads this
    {
      Heads(first, last, cur, count, freeable)
    }

    ghost predicate Valid()
      reads this, pages
    {
      Shows(Memory(), v, Head())
    }

    /** What mounting a volume sets up: one page, all of it free. */
    constructor ()
      ensures Valid() && fresh(pages) && |v.pages| == 1 && v == Slab([PageView(v.pages[0].page, AllSlots())], 0, [])
    {
      var page := new EntryPage();
      page.free := AllSlots();
      first, last, cur, freeable, count := page, page, page, null, 1;
      pages := {page};
      v := Slab([PageView(page, AllSlots())], 0, []);
      new;
      OnePageIsGood(page, EntryRef(page, 0));
      assert PageOk(Memory(), v.pages, 0);
    }

    /** The search from the current page forward. */
    method FindPage() returns (p: EntryPage?)
      requires Valid()
      ensures p == PageAt(v.pages, Search(v.pages, v.cur))
    {
      hide MemoryOf, Shows, Good;
      ShownHeads(Memory(), v, Head());
      ShownPage(Memory(), v, Head(), v.cur);
      CellOf(pages, v.pages[v.cur].page);
      p := cur;
      ghost var j := v.cur;
      while p != null && p.free == []
        invariant j <= |v.pages| && p == PageAt(v.pages, j) && (p != null ==> p in pages && p.free == v.pages[j].free)
        invariant Search(v.pages, j) == Search(v.pages, v.cur)
        decreases |v.pages| - j
      {
        ShownPage(Memory(), v, Head(), j);
        CellOf(pages, p);
        p := p.next;
        j := j + 1;
        if j < |v.pages| { ShownPage(Memory(), v, Head(), j); CellOf(pages, v.pages[j].page); }
      }
    }

    /** A page is made ready, with all its entries free, and linked behind the last. */
    method InitCacheEntryPage(page: EntryPage)
      requires Valid() && page in pages && Unknown(v, page) && forall i :: 0 <= i < |v.pages| ==> v.pages[i].free == []
      modifies this`last, this`cur, this`count, this`v, pages
      ensures Valid() && v == Slab(old(v.pages) + [PageView(page, AllSlots())], |old(v.pages)|, old(v.spare))
    {
      hide MemoryOf, Shows, Good, PageLinked, AllSlots, Unknown;
      ghost var m, h := Memory(), Head();
      CellOf(pages, page);
      LinkShows(m, v, h, page);
      LastKnown(m, v, h);
      CellOf(pages, last);
      LinkCells(page, pages);
      last := page;
      count := count + 1;
      cur := page;
      v := Slab(v.pages + [PageView(page, AllSlots())], |v.pages|, v.spare);
    }

    /** What InitCacheEntryPage writes in the pages. */
    method LinkCells(page: EntryPage, ghost ts: set<EntryPage>)
      requires page in ts && last != null && last in ts
      modifies ts
      ensures MemoryOf(ts) == PageLinked(old(MemoryOf(ts)), page, Head())
    {
      page.next := null;
      page.free := AllSlots();
      page.index := count;
      page.used := 0;
      page.prev := last;
      last.next := page;
    }

    /** A spare page if there is one, or new memory. */
    method FindMemory() returns (page: EntryPage)
      requires Valid()
      modifies this`freeable, this`v, this`pages
      ensures Valid() && page in pages && old(pages) <= pages && fresh(pages - old(pages)) && Unknown(v, page)
      ensures v == old(v).(spare := if old(v.spare) != [] then old(v.spare)[1..] else [])
      ensures page == NewPage(old(v), page) && (old(v.spare) == [] ==> fresh(page))
    {
      hide MemoryOf, Shows, Good, Unknown;
      NoSpare(Memory(), v, Head());
      if freeable != null {
        SpareTaken(Memory(), v, Head());
        CellOf(pages, freeable);
        page := freeable;
        freeable := freeable.next;
        v := v.(spare := v.spare[1..]);
      } else {
        page := new EntryPage();
        GrownMemory(pages, page);
        MemoryGrows(Memory(), MemoryOf(pages + {page}), v, Head(), page);
        pages := pages + {page};
      }
    }

    /** A free entry, from a page added when every page is full; added is that page. */
    method AllocCacheEntry() returns (page: EntryPage, slot: nat, ghost added: EntryPage)
      requires Valid()
      modifies this, pages
      ensures Valid() && v == Alloc(old(v), added) && EntryRef(page, slot) == Taken(old(v), added)
      ensures old(pages) <= pages && fresh(pages - old(pages))
      ensures Search(old(v.pages), old(v.cur)) == |old(v.pages)| && old(v.spare) == [] ==> fresh(page)
    {
      hide MemoryOf, Shows, Good, Unknown, TakeEntry, AllSlots;
      ghost var v0 := v;
      ShownHeads(Memory(), v, Head());
      ghost var j := Search(v.pages, v.cur);
      var p := FindPage();
      if p == null {
        AllFull(v);
        page := FindMemory();
        InitCacheEntryPage(page);
      } else {
        page := p;
        FullBefore(v);
        MoveShows(Memory(), v, Head(), j);
        cur := page;
        v := v.(cur := j);
      }
      added := page;
      assert v == WithRoom(v0, added);
      slot := TakeFirst(page);
    }

    /** An entry goes back to its page; a page left empty is taken out of the list, unless it is the only one. */
    method FreeCacheEntry(page: EntryPage, slot: nat, ghost i: nat)
      requires Valid() && i < |v.pages| && page == v.pages[i].page && Live(v, EntryRef(page, slot))
      modifies this, pages
      ensures Valid() && v == Free(old(v), i, slot) && pages == old(pages)
    {
      hide MemoryOf, Shows, Good, Live, EntryGiven, Free, Renumbered, Unlinked, CutHeads;
      ghost var m, h0 := Memory(), Head();
      ghost var cut := |v.pages[i].free| + 1 == ENTRIES && |v.pages| > 1;
      ShownHeads(m, v, h0);
      ShownPage(m, v, h0, i);
      ShownPage(m, v, h0, v.cur);
      CellOf(pages, page);
      CellOf(pages, v.pages[v.cur].page);
      if cut { CutShows(m, v, h0, i, slot); } else { GiveShows(m, v, h0, i, slot); }
      NearAfterGive(m, v, h0, i, slot);
      GiveCell(page, slot, pages);
      if page.used == 0 && count > 1 {
        Cut(page, i);
      } else if page.index < cur.index {
        cur := page;
      }
      v := Free(v, i, slot);
    }

    /** Gives every page behind this one the position before its own. */
    method Renumber(page: EntryPage, ghost k: nat)
      requires k < |v.pages| && page == v.pages[k].page && Good(v)
      requires forall j :: 0 <= j < |v.pages| ==> Near(Memory(), v.pages, j)
      modifies pages`index
      ensures Memory() == Renumbered(old(Memory()), v.pages, k)
    {
      ghost var m := Memory();
      hide MemoryOf, Good, RenumberedTo;
      NearCells(pages, v.pages, k);
      var usedPage, pageIndex := page.next, page.index;
      ghost var j := k + 1;
      RenumberedBegins(m, v.pages, k);
      while usedPage != null
        invariant k < j <= |v.pages| && usedPage == PageAt(v.pages, j) && pageIndex == j - 1
        invariant Memory() == RenumberedTo(m, v.pages, k, j)
        decreases |v.pages| - j
      {
        RenumberedStep(m, v, k, j);
        StillNext(m, v, k, j);
        CellOf(pages, usedPage);
        SetIndex(usedPage, pageIndex, pages);
        pageIndex := pageIndex + 1;
        usedPage := usedPage.next;
        j := j + 1;
      }
      RenumberedEnds(m, v.pages, k, j);
    }

    /** Joins the neighbours of a page to each other, and the ends of the list to its neighbours. */
    method CloseLinks(page: EntryPage, ghost k: nat)
      requires k < |v.pages| && |v.pages| > 1 && page == v.pages[k].page && Linked(Memory(), v.pages, k)
      requires (page == first <==> k == 0) && (page == last <==> k + 1 == |v.pages|)
      modifies this`first, this`last, pages`next, pages`prev
      ensures Memory() == Closed(old(Memory()), v.pages, k)
      ensures first == (if k == 0 then PageAt(v.pages, 1) else old(first))
      ensures last == (if k + 1 == |v.pages| then PageAt(v.pages, k - 1) else old(last))
    {
      CellsOf(pages, v.pages, k);
      hide MemoryOf, WithNext, WithPrev;
      var a, b, atEnd := page.prev, page.next, page == last;
      if page == first {
        first := b;
        SetPrev(b, null, pages);
      } else {
        SetNext(a, b, pages);
      }
      if atEnd {
        last := a;
        SetNext(a, null, pages);
      } else {
        SetPrev(b, a, pages);
      }
    }

    /** Takes an empty page out of the list and puts it with the spare ones. */
    method Cut(page: EntryPage, ghost k: nat)
      requires k < |v.pages| && |v.pages| > 1 && page == v.pages[k].page && Good(v) && v.cur < |v.pages| && count == |v.pages|
      requires forall j :: 0 <= j < |v.pages| ==> Near(Memory(), v.pages, j)
      requires first == v.pages[0].page && last == v.pages[|v.pages| - 1].page && cur == v.pages[v.cur].page
      modifies this`first, this`last, this`cur, this`count, this`freeable, pages
      ensures Memory() == Unlinked(Renumbered(old(Memory()), v.pages, k), v.pages, k, old(freeable))
      ensures Head() == CutHeads(old(Head()), v, k)
    {
      hide MemoryOf, Renumbered, Near, Good, WithNext, WithPrev, Closed;
      ghost var ps := v.pages;
      Neighbours(Memory(), v, k);
      Renumber(page, k);
      CellsOf(pages, ps, k);
      CloseLinks(page, k);
      SetNext(page, freeable, pages);
      freeable := page;
      count := count - 1;
      if page == cur { cur := first; }
    }

    method TakeFirst(page: EntryPage) returns (slot: nat)
      requires Valid() && v.cur < |v.pages| && page == v.pages[v.cur].page && v.pages[v.cur].free != []
      modifies this`v, pages
      ensures Valid() && v == TakeEntry(old(v)) && slot == old(v.pages[v.cur].free[0])
    {
      hide MemoryOf, Shows, Good, TakeEntry, EntryTaken;
      TakeShows(Memory(), v, Head());
      ShownPage(Memory(), v, Head(), v.cur);
      CellOf(pages, page);
      slot := page.free[0];
      TakeCell(page, pages);
      v := TakeEntry(v);
    }
  }

  lemma LastKnown(m: Memory, v: Pages, h: Heads)
    requires Shows(m, v, h)
    ensures h.last != null && h.last in m
  {
    ShownHeads(m, v, h);
    ShownPage(m, v, h, |v.pages| - 1);
    hide Shows;
  }

  /** Page j is in memory with its neighbours' links and its position. */
  ghost predicate Near(m: Memory, ps: seq<PageView<EntryPage>>, j: nat) {
    j < |ps| && ps[j].page in m
    && m[ps[j].page].next == PageAt(ps, j + 1) && m[ps[j].page].prev == PageAt(ps, j - 1) && m[ps[j].page].index == j
  }

  lemma NearAfterGive(m: Memory, v: Pages, h: Heads, i: nat, slot: nat)
    requires Shows(m, v, h) && i < |v.pages|
    ensures forall j :: 0 <= j < |v.pages| ==> Near(EntryGiven(m, v.pages[i].page, slot), v.pages, j)
  {
    hide Good;
    forall j | 0 <= j < |v.pages| ensures Near(EntryGiven(m, v.pages[i].page, slot), v.pages, j) {
      ShownPage(m, v, h, j);
    }
  }

  lemma NearCells(ts: set<EntryPage>, ps: seq<PageView<EntryPage>>, k: nat)
    requires Near(MemoryOf(ts), ps, k)
    ensures var q := ps[k].page; q in ts && q.next == PageAt(ps, k + 1) && q.prev == PageAt(ps, k - 1) && q.index == k
  {
  }

  /** The renumbering when it has come to page j. */
  ghost function RenumberedTo(m: Memory, ps: seq<PageView<EntryPage>>, k: nat, j: nat): Memory {
    map q | q in m :: if Between(ps, k, j, q) && m[q].index > 0 then m[q].(index := m[q].index - 1) else m[q]
  }

  ghost predicate Between(ps: seq<PageView<EntryPage>>, k: nat, j: nat, q: EntryPage) {
    exists i :: k < i < j && i < |ps| && ps[i].page == q
  }

  lemma RenumberedBegins(m: Memory, ps: seq<PageView<EntryPage>>, k: nat)
    ensures RenumberedTo(m, ps, k, k + 1) == m
  {
  }

  lemma RenumberedEnds(m: Memory, ps: seq<PageView<EntryPage>>, k: nat, j: nat)
    requires j == |ps|
    ensures RenumberedTo(m, ps, k, j) == Renumbered(m, ps, k)
  {
    assert forall q :: Between(ps, k, j, q) <==> After(ps, k, q);
  }

  ghost function WithIndex(m: Memory, q: EntryPage, x: nat): Memory {
    if q in m then m[q := m[q].(index := x)] else m
  }

  lemma NotBetween(v: Pages, k: nat, j: nat)
    requires Good(v) && j < |v.pages|
    ensures !Between(v.pages, k, j, v.pages[j].page)
  {
    hide Good;
    forall i: nat | k < i < j ensures v.pages[i].page != v.pages[j].page { PageOnceOnly(v, i, j); }
  }

  lemma BetweenStep(ps: seq<PageView<EntryPage>>, k: nat, j: nat, q: EntryPage)
    requires k < j < |ps|
    ensures Between(ps, k, j + 1, q) <==> Between(ps, k, j, q) || q == ps[j].page
  {
  }

  lemma RenumberedStep(m: Memory, v: Pages, k: nat, j: nat)
    requires Good(v) && k < j < |v.pages| && Near(m, v.pages, j)
    ensures RenumberedTo(m, v.pages, k, j + 1) == WithIndex(RenumberedTo(m, v.pages, k, j), v.pages[j].page, j - 1)
  {
    hide Good, Between;
    NotBetween(v, k, j);
    forall q ensures Between(v.pages, k, j + 1, q) <==> Between(v.pages, k, j, q) || q == v.pages[j].page {
      BetweenStep(v.pages, k, j, q);
    }
  }

  lemma StillNext(m: Memory, v: Pages, k: nat, j: nat)
    requires k < j < |v.pages| && Near(m, v.pages, j)
    ensures var q := v.pages[j].page; q in RenumberedTo(m, v.pages, k, j) && RenumberedTo(m, v.pages, k, j)[q].next == PageAt(v.pages, j + 1)
  {
  }

  method SetIndex(q: EntryPage, x: nat, ghost ts: set<EntryPage>)
    requires q in ts
    modifies q`index
    ensures MemoryOf(ts) == WithIndex(old(MemoryOf(ts)), q, x)
  {
    q.index := x;
  }

  method SetNext(q: EntryPage, x: EntryPage?, ghost ts: set<EntryPage>)
    requires q in ts
    modifies q`next
    ensures MemoryOf(ts) == WithNext(old(MemoryOf(ts)), q, x)
  {
    q.next := x;
  }

  method SetPrev(q: EntryPage, x: EntryPage?, ghost ts: set<EntryPage>)
    requires q in ts
    modifies q`prev
    ensures MemoryOf(ts) == WithPrev(old(MemoryOf(ts)), q, x)
  {
    q.prev := x;
  }

  /** What Cut needs to know of the page and its neighbours, before and after the renumbering. */
  lemma Neighbours(m: Memory, v: Pages, k: nat)
    requires Good(v) && k < |v.pages| && forall j :: 0 <= j < |v.pages| ==> Near(m, v.pages, j)
    ensures Linked(Renumbered(m, v.pages, k), v.pages, k)
    ensures v.cur < |v.pages| && (v.pages[k].page == v.pages[0].page <==> k == 0)
    ensures v.pages[k].page == v.pages[|v.pages| - 1].page <==> k + 1 == |v.pages|
    ensures v.pages[k].page == v.pages[v.cur].page <==> k == v.cur
  {
    if k != 0 { PageOnceOnly(v, k, 0); }
    if k + 1 != |v.pages| { PageOnceOnly(v, k, |v.pages| - 1); }
    if k != v.cur { PageOnceOnly(v, k, v.cur); }
    hide GoodPage, After;
    assert Near(m, v.pages, k) && (k > 0 ==> Near(m, v.pages, k - 1)) && (k + 1 < |v.pages| ==> Near(m, v.pages, k + 1));
  }

  ghost predicate Linked(m: Memory, ps: seq<PageView<EntryPage>>, k: nat) {
    && k < |ps| && ps[k].page in m && m[ps[k].page].next == PageAt(ps, k + 1) && m[ps[k].page].prev == PageAt(ps, k - 1)
    && (k > 0 ==> ps[k - 1].page in m) && (k + 1 < |ps| ==> ps[k + 1].page in m)
  }

  lemma CellsOf(ts: set<EntryPage>, ps: seq<PageView<EntryPage>>, k: nat)
    requires Linked(MemoryOf(ts), ps, k)
    ensures var p := ps[k].page;
      && p in ts && p.next == PageAt(ps, k + 1) && p.prev == PageAt(ps, k - 1)
      && (k > 0 ==> ps[k - 1].page in ts) && (k + 1 < |ps| ==> ps[k + 1].page in ts)
  {
  }

  method GiveCell(page: EntryPage, slot: nat, ghost ts: set<EntryPage>)
    requires page in ts
    modifies page
    ensures page.index == old(page.index) && page.used == old(page.used) - 1 && MemoryOf(ts) == EntryGiven(old(MemoryOf(ts)), page, slot)
  {
    page.free := [slot] + page.free;
    page.used := page.used - 1;
  }

  method TakeCell(page: EntryPage, ghost ts: set<EntryPage>)
    requires page in ts && page.free != []
    modifies page
    ensures MemoryOf(ts) == EntryTaken(old(MemoryOf(ts)), page)
  {
    page.free := page.free[1..];
    page.used := page.used + 1;
  }

  lemma GrownMemory(ts: set<EntryPage>, extra: EntryPage)
    requires extra !in ts
    ensures extra !in MemoryOf(ts) && forall q :: q in MemoryOf(ts) ==> q in MemoryOf(ts + {extra}) && MemoryOf(ts + {extra})[q] == MemoryOf(ts)[q]
  {
  }

  /** When the search comes to the end, every page is full. */
  lemma AllFull(v: Pages)
    requires Good(v) && Search(v.pages, v.cur) == |v.pages|
    ensures forall i :: 0 <= i < |v.pages| ==> v.pages[i].free == []
  {
    hide GoodPage;
  }

  lemma FullBefore(v: Pages)
    requires Good(v)
    ensures forall i :: 0 <= i < Search(v.pages, v.cur) ==> v.pages[i].free == []
  {
    hide GoodPage;
  }
}
