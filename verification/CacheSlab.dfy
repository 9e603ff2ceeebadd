/**
  The pages of cache entries of a PUP volume (kernel/fs/pup.c), as values: a list of pages, each
  with the list of its free entries, a current page to search from, and spare pages that have run
  empty.  P is a page.
 */
module CacheSlab {
  import opened Sequences

  /** (0x800000 - 20) / 16424 entries of four blocks fit in a page of 8 MB. */
  const ENTRIES: nat := 510

  datatype PageView<P> = PageView(page: P, free: seq<nat>)

  datatype Slab<P> = Slab(pages: seq<PageView<P>>, cur: nat, spare: seq<P>)

  datatype EntryRef<P> = EntryRef(page: P, slot: nat)

  function AllSlots(): (s: seq<nat>)
    ensures |s| == ENTRIES == 510 && forall k :: 0 <= k < |s| ==> s[k] == k
  {
    seq(ENTRIES, k => k)
  }

  // ------------------------------------------------------------------ the operations

  /** The first page from i on that has a free entry, or the number of pages. */
  function Search<P>(pages: seq<PageView<P>>, i: nat): (j: nat)
    ensures i <= |pages| ==> i <= j <= |pages|
    ensures i <= |pages| ==> forall k :: i <= k < j ==> pages[k].free == []
    ensures j < |pages| ==> pages[j].free != []
    decreases |pages| - i
  {
    if i >= |pages| then |pages| else if pages[i].free != [] then i else Search(pages, i + 1)
  }

  /** The page added when all are full: a spare one, or a new one. */
  function NewPage<P>(s: Slab<P>, added: P): P { if s.spare != [] then s.spare[0] else added }

  function WithRoom<P>(s: Slab<P>, added: P): Slab<P> {
    if Search(s.pages, s.cur) < |s.pages| then s.(cur := Search(s.pages, s.cur))
    else
      Slab(s.pages + [PageView(NewPage(s, added), AllSlots())], |s.pages|, if s.spare != [] then s.spare[1..] else [])
  }

  function TakeEntry<P>(s: Slab<P>): Slab<P> {
    if s.cur < |s.pages| && s.pages[s.cur].free != [] then
      s.(pages := s.pages[s.cur := s.pages[s.cur].(free := s.pages[s.cur].free[1..])])
    else s
  }

  function Alloc<P>(s: Slab<P>, added: P): Slab<P> { TakeEntry(WithRoom(s, added)) }

  function Removed<T>(s: seq<T>, i: nat): seq<T> { if i < |s| then s[..i] + s[i + 1..] else s }

  /** Entry slot of page i is freed; a page left empty becomes spare, unless it is the only one. */
  function Free<P>(s: Slab<P>, i: nat, slot: nat): Slab<P> {
    if i >= |s.pages| then s
    else
      var p := s.pages[i].(free := [slot] + s.pages[i].free);
      if |p.free| == ENTRIES && |s.pages| > 1 then
        Slab(Removed(s.pages, i), if i == s.cur then 0 else if i < s.cur then s.cur - 1 else s.cur, [p.page] + s.spare)
      else
        s.(pages := s.pages[i := p], cur := if i < s.cur then i else s.cur)
  }

  // ------------------------------------------------------------------ what is kept

  ghost predicate GoodPage<P>(p: PageView<P>) {
    (forall k :: 0 <= k < |p.free| ==> p.free[k] < ENTRIES) && forall j, k :: 0 <= j < k < |p.free| ==> p.free[j] != p.free[k]
  }

  /** Every page before the current one is full; pages and spares are all different. */
  ghost predicate Good<P>(s: Slab<P>) {
    && s.cur < |s.pages|
    && (forall i :: 0 <= i < s.cur ==> s.pages[i].free == [])
    && (forall i :: 0 <= i < |s.pages| ==> GoodPage(s.pages[i]))
    && (forall i, j :: 0 <= i < j < |s.pages| ==> s.pages[i].page != s.pages[j].page)
    && (forall i, k :: 0 <= i < |s.pages| && 0 <= k < |s.spare| ==> s.pages[i].page != s.spare[k])
    && (forall j, k :: 0 <= j < k < |s.spare| ==> s.spare[j] != s.spare[k])
  }

  /** An entry is live when its page is in the list and does not have it free. */
  ghost predicate Live<P>(s: Slab<P>, e: EntryRef<P>) {
    e.slot < ENTRIES && exists i :: 0 <= i < |s.pages| && s.pages[i].page == e.page && e.slot !in s.pages[i].free
  }

  ghost predicate Unknown<P>(s: Slab<P>, page: P) {
    (forall i :: 0 <= i < |s.pages| ==> s.pages[i].page != page) && page !in s.spare
  }

  lemma AllSlotsGood<P>(page: P)
    ensures GoodPage(PageView(page, AllSlots()))
  {
  }

  lemma WithRoomKeeps<P>(s: Slab<P>, added: P)
    requires Good(s) && Unknown(s, added)
    ensures Good(WithRoom(s, added))
    ensures var w := WithRoom(s, added); w.pages[w.cur].free != [] && (|w.pages| > |s.pages| ==> forall i :: 0 <= i < |s.pages| ==> s.pages[i].free == [])
  {
    hide GoodPage;
    var w := WithRoom(s, added);
    if Search(s.pages, s.cur) == |s.pages| {
      AllSlotsGood(NewPage(s, added));
      assert |w.pages| == |s.pages| + 1 && forall i :: 0 <= i < |s.pages| ==> w.pages[i] == s.pages[i];
      forall i | 0 <= i < |s.pages| ensures s.pages[i].free == [] && s.pages[i].page != NewPage(s, added) {
      }
      forall k | 0 <= k < |w.spare| ensures w.spare[k] != NewPage(s, added) {
        assert w.spare[k] == s.spare[k + 1];
      }
    }
  }

  /** A page is added only when every page is full, so the forward search misses no free entry. */
  lemma SearchMissesNothing<P>(s: Slab<P>, added: P)
    requires Good(s) && Unknown(s, added)
    ensures |Alloc(s, added).pages| > |s.pages| <==> forall i :: 0 <= i < |s.pages| ==> s.pages[i].free == []
  {
    WithRoomKeeps(s, added);
    hide GoodPage;
    if Search(s.pages, s.cur) < |s.pages| { assert s.pages[Search(s.pages, s.cur)].free != []; }
  }

  lemma TakeKeeps<P>(s: Slab<P>)
    requires Good(s)
    ensures Good(TakeEntry(s))
  {
    var w := TakeEntry(s);
    if s.pages[s.cur].free != [] {
      assert GoodPage(s.pages[s.cur]);
      assert GoodPage(w.pages[s.cur]);
      hide GoodPage;
      forall i | 0 <= i < |w.pages| ensures GoodPage(w.pages[i]) && w.pages[i].page == s.pages[i].page {
      }
    }
  }

  lemma AllocKeeps<P>(s: Slab<P>, added: P)
    requires Good(s) && Unknown(s, added)
    ensures Good(Alloc(s, added))
  {
    WithRoomKeeps(s, added);
    TakeKeeps(WithRoom(s, added));
  }

  /** The entry an allocation hands out. */
  function Taken<P>(s: Slab<P>, added: P): EntryRef<P> {
    var w := WithRoom(s, added);
    EntryRef(w.pages[w.cur].page, w.pages[w.cur].free[0])
  }

  lemma LiveAt<P>(s: Slab<P>, i: nat, e: EntryRef<P>)
    requires Good(s) && i < |s.pages| && s.pages[i].page == e.page
    ensures Live(s, e) <==> e.slot < ENTRIES && e.slot !in s.pages[i].free
  {
    hide GoodPage;
    if Live(s, e) {
      var j :| 0 <= j < |s.pages| && s.pages[j].page == e.page && e.slot !in s.pages[j].free;
      assert i < j || j < i || i == j;
    }
  }

  /** Adding a page changes nothing that is live; moving the current page neither. */
  lemma RoomLeavesLive<P>(s: Slab<P>, added: P, e: EntryRef<P>)
    requires Good(s) && Unknown(s, added)
    ensures Live(WithRoom(s, added), e) <==> Live(s, e)
  {
    WithRoomKeeps(s, added);
    hide GoodPage, Good;
    var w := WithRoom(s, added);
    if Live(s, e) {
      var i :| 0 <= i < |s.pages| && s.pages[i].page == e.page && e.slot !in s.pages[i].free;
      assert w.pages[i] == s.pages[i];
    }
    if Live(w, e) {
      var i :| 0 <= i < |w.pages| && w.pages[i].page == e.page && e.slot !in w.pages[i].free;
      assert i == |s.pages| ==> e.slot in AllSlots() by { assert e.slot < ENTRIES ==> AllSlots()[e.slot] == e.slot; }
      assert i < |s.pages| && w.pages[i] == s.pages[i];
    }
  }

  /** What an allocation hands out was not live, and is now; nothing else changes. */
  lemma AllocIsFresh<P>(s: Slab<P>, added: P, e: EntryRef<P>)
    requires Good(s) && Unknown(s, added)
    ensures !Live(s, Taken(s, added)) && (Live(Alloc(s, added), e) <==> Live(s, e) || e == Taken(s, added))
  {
    var w, t := WithRoom(s, added), Taken(s, added);
    WithRoomKeeps(s, added);
    TakeKeeps(w);
    RoomLeavesLive(s, added, t);
    RoomLeavesLive(s, added, e);
    TakeIsFresh(w, t, e);
  }

  lemma TakeIsFresh<P>(w: Slab<P>, t: EntryRef<P>, e: EntryRef<P>)
    requires Good(w) && Good(TakeEntry(w)) && w.pages[w.cur].free != []
    requires t == EntryRef(w.pages[w.cur].page, w.pages[w.cur].free[0])
    ensures !Live(w, t) && (Live(TakeEntry(w), e) <==> Live(w, e) || e == t)
  {
    LiveAt(w, w.cur, t);
    var f := w.pages[w.cur].free;
    assert f == [f[0]] + f[1..] && GoodPage(w.pages[w.cur]) && f[0] !in f[1..];
    if e.page == t.page {
      LiveAt(w, w.cur, e);
      LiveAt(TakeEntry(w), w.cur, e);
    } else {
      OtherPageLive(w, TakeEntry(w), w.cur, e);
    }
  }

  lemma OtherPageLive<P>(s: Slab<P>, w: Slab<P>, i: nat, e: EntryRef<P>)
    requires i < |s.pages| == |w.pages| && s.pages[i].page == w.pages[i].page != e.page
    requires forall k :: 0 <= k < |s.pages| && k != i ==> w.pages[k] == s.pages[k]
    ensures Live(w, e) <==> Live(s, e)
  {
    if Live(s, e) {
      var k :| 0 <= k < |s.pages| && s.pages[k].page == e.page && e.slot !in s.pages[k].free;
      assert w.pages[k] == s.pages[k];
    }
    if Live(w, e) {
      var k :| 0 <= k < |w.pages| && w.pages[k].page == e.page && e.slot !in w.pages[k].free;
      assert w.pages[k] == s.pages[k];
    }
  }

  // ------------------------------------------------------------------ freeing

  /** A page before the current one is full, so freeing one of its entries never empties it. */
  lemma FreeKeeps<P>(s: Slab<P>, i: nat, slot: nat)
    requires Good(s) && i < |s.pages| && Live(s, EntryRef(s.pages[i].page, slot))
    ensures Good(Free(s, i, slot))
  {
    LiveAt(s, i, EntryRef(s.pages[i].page, slot));
    var p := s.pages[i].(free := [slot] + s.pages[i].free);
    assert GoodPage(s.pages[i]);
    assert GoodPage(p) by {
      assert forall k :: 1 <= k < |p.free| ==> p.free[k] == s.pages[i].free[k - 1];
    }
    hide GoodPage;
    if |p.free| == ENTRIES && |s.pages| > 1 {
      RemoveKeeps(s, i);
    }
  }

  lemma RemoveKeeps<P>(s: Slab<P>, i: nat)
    requires Good(s) && i < |s.pages| && |s.pages| > 1 && i >= s.cur
    ensures Good(Slab(Removed(s.pages, i), if i == s.cur then 0 else s.cur, [s.pages[i].page] + s.spare))
  {
    hide GoodPage;
    var w := Slab(Removed(s.pages, i), if i == s.cur then 0 else s.cur, [s.pages[i].page] + s.spare);
    assert |w.pages| == |s.pages| - 1;
    assert forall k :: 0 <= k < |w.pages| ==> w.pages[k] == s.pages[if k < i then k else k + 1];
    assert forall k :: 1 <= k < |w.spare| ==> w.spare[k] == s.spare[k - 1];
  }

  /** Freeing takes exactly that entry out of the live ones. */
  lemma FreeIsExact<P>(s: Slab<P>, i: nat, slot: nat, e: EntryRef<P>)
    requires Good(s) && i < |s.pages| && Live(s, EntryRef(s.pages[i].page, slot))
    ensures Live(Free(s, i, slot), e) <==> Live(s, e) && e != EntryRef(s.pages[i].page, slot)
  {
    FreeKeeps(s, i, slot);
    LiveAt(s, i, EntryRef(s.pages[i].page, slot));
    var w := Free(s, i, slot);
    var p := s.pages[i].(free := [slot] + s.pages[i].free);
    if |p.free| == ENTRIES && |s.pages| > 1 {
      if e.page == p.page {
        LiveAt(s, i, e);
        GonePage(s, w, i, e);
        if e.slot < ENTRIES { EmptyPage(p, e.slot); }
      } else {
        RemovedLive(s, w, i, e);
      }
    } else if e.page == p.page {
      LiveAt(s, i, e);
      LiveAt(w, i, e);
    } else {
      OtherPageLive(s, w, i, e);
    }
  }

  lemma GonePage<P>(s: Slab<P>, w: Slab<P>, i: nat, e: EntryRef<P>)
    requires Good(s) && i < |s.pages| && w.pages == Removed(s.pages, i) && e.page == s.pages[i].page
    ensures !Live(w, e)
  {
    hide GoodPage;
    assert forall k :: 0 <= k < |w.pages| ==> w.pages[k] == s.pages[if k < i then k else k + 1];
  }

  lemma RemovedLive<P>(s: Slab<P>, w: Slab<P>, i: nat, e: EntryRef<P>)
    requires i < |s.pages| && w.pages == Removed(s.pages, i) && e.page != s.pages[i].page
    ensures Live(w, e) <==> Live(s, e)
  {
    if Live(s, e) {
      var k :| 0 <= k < |s.pages| && s.pages[k].page == e.page && e.slot !in s.pages[k].free;
      assert w.pages[if k < i then k else k - 1] == s.pages[k];
    }
    if Live(w, e) {
      var k :| 0 <= k < |w.pages| && w.pages[k].page == e.page && e.slot !in w.pages[k].free;
      assert w.pages[k] == s.pages[if k < i then k else k + 1];
    }
  }

  /** A page with as many free entries as it has entries has every one of them free. */
  lemma EmptyPage<P>(p: PageView<P>, slot: nat)
    requires GoodPage(p) && |p.free| == ENTRIES && slot < ENTRIES
    ensures slot in p.free
  {
    if slot !in p.free {
      var s := p.free + [slot];
      assert Distinct(s) by {
        forall j, k | 0 <= j < k < |s| ensures s[j] != s[k] {
          assert k == |p.free| ==> p.free[j] in p.free;
        }
      }
      Pigeonhole(s, ENTRIES);
    }
  }

  // ------------------------------------------------------------------ whole runs

  datatype Op<P> = Take(added: P) | GiveBack(i: nat, slot: nat)

  /** An operation whose caller keeps the rules: new memory is new, and only live entries are freed. */
  ghost predicate Allowed<P>(s: Slab<P>, op: Op<P>) {
    match op
    case Take(added) => Unknown(s, added)
    case GiveBack(i, slot) => i < |s.pages| && Live(s, EntryRef(s.pages[i].page, slot))
  }

  ghost function Do<P>(s: Slab<P>, op: Op<P>): Slab<P> {
    if !Allowed(s, op) then s
    else if op.Take? then Alloc(s, op.added)
    else Free(s, op.i, op.slot)
  }

  ghost function Run<P>(s: Slab<P>, ops: seq<Op<P>>): Slab<P> {
    if ops == [] then s else Do(Run(s, ops[..|ops| - 1]), ops[|ops| - 1])
  }

  lemma EverySlot(slot: nat)
    ensures slot < ENTRIES ==> slot in AllSlots()
  {
    if slot < ENTRIES { assert AllSlots()[slot] == slot; }
  }

  lemma OnePageIsGood<P>(page: P, e: EntryRef<P>)
    ensures var s := Slab([PageView(page, AllSlots())], 0, []); Good(s) && !Live(s, e)
  {
    AllSlotsGood(page);
    EverySlot(e.slot);
  }

  lemma {:induction false} RunKeeps<P>(page: P, ops: seq<Op<P>>)
    ensures Good(Run(Slab([PageView(page, AllSlots())], 0, []), ops))
    decreases |ops|
  {
    var s := Slab([PageView(page, AllSlots())], 0, []);
    hide Good, Allowed, Alloc, Free;
    if ops == [] {
      OnePageIsGood(page, EntryRef(page, 0));
    } else {
      RunKeeps(page, ops[..|ops| - 1]);
      StepKeeps(Run(s, ops[..|ops| - 1]), ops[|ops| - 1]);
    }
  }

  lemma StepKeeps<P>(s: Slab<P>, op: Op<P>)
    requires Good(s)
    ensures Good(Do(s, op))
  {
    hide Good, Alloc, Free, Live, Unknown;
    if Allowed(s, op) {
      if op.Take? { AllocKeeps(s, op.added); } else { FreeKeeps(s, op.i, op.slot); }
    }
  }

  /** How many more times an entry has been handed out than given back: it is 1 while it is live and else 0. */
  ghost function Balance<P>(s: Slab<P>, ops: seq<Op<P>>, e: EntryRef<P>): int {
    if ops == [] then 0
    else
      var before := ops[..|ops| - 1]; var op := ops[|ops| - 1]; var b := Run(s, before);
      Balance(s, before, e)
      + (if !Allowed(b, op) then 0
         else if op.Take? && Taken(b, op.added) == e then 1
         else if op.GiveBack? && EntryRef(b.pages[op.i].page, op.slot) == e then -1
         else 0)
  }

  /** So no entry is handed out twice without being given back in between. */
  lemma {:induction false} NeverHandedOutTwice<P>(page: P, ops: seq<Op<P>>, e: EntryRef<P>)
    ensures var s := Slab([PageView(page, AllSlots())], 0, []);
      Balance(s, ops, e) == if Live(Run(s, ops), e) then 1 else 0
    decreases |ops|
  {
    var s := Slab([PageView(page, AllSlots())], 0, []);
    hide Good, Alloc, Free, Live, Unknown, Taken;
    if ops == [] {
      OnePageIsGood(page, e);
    } else {
      var before, op := ops[..|ops| - 1], ops[|ops| - 1];
      NeverHandedOutTwice(page, before, e);
      RunKeeps(page, before);
      var b := Run(s, before);
      if Allowed(b, op) {
        if op.Take? { AllocIsFresh(b, op.added, e); } else { FreeIsExact(b, op.i, op.slot, e); }
      }
    }
  }

  // ------------------------------------------------------------------ no page is wasted

  /** New memory is needed only when every page is full and none is spare. */
  ghost predicate NeedsNew<P>(s: Slab<P>) { s.spare == [] && forall i :: 0 <= i < |s.pages| ==> s.pages[i].free == [] }

  /** Every page there is stays in the list or among the spares; one comes in only when it is needed. */
  lemma PagesStay<P>(s: Slab<P>, op: Op<P>, page: P)
    requires Good(s) && Allowed(s, op)
    ensures !Unknown(Do(s, op), page) <==> !Unknown(s, page) || (op.Take? && NeedsNew(s) && page == op.added)
  {
    match op
    case Take(added) => RoomStays(s, added, page);
    case GiveBack(i, slot) => FreeStays(s, i, slot, page);
  }

  lemma RoomStays<P>(s: Slab<P>, added: P, page: P)
    requires Good(s) && Unknown(s, added)
    ensures !Unknown(Alloc(s, added), page) <==> !Unknown(s, page) || (NeedsNew(s) && page == added)
  {
    WithRoomKeeps(s, added);
    hide Good, GoodPage;
    var w, t := WithRoom(s, added), Alloc(s, added);
    assert forall i :: 0 <= i < |w.pages| ==> t.pages[i].page == w.pages[i].page;
    SearchMissesNothing(s, added);
    if |w.pages| > |s.pages| {
      assert forall i :: 0 <= i < |s.pages| ==> w.pages[i] == s.pages[i];
      assert w.pages[|s.pages|].page == NewPage(s, added);
      assert s.spare != [] ==> s.spare == [s.spare[0]] + w.spare;
    }
  }

  lemma FreeStays<P>(s: Slab<P>, i: nat, slot: nat, page: P)
    requires i < |s.pages|
    ensures Unknown(Free(s, i, slot), page) <==> Unknown(s, page)
  {
    var w := Free(s, i, slot);
    if |w.pages| < |s.pages| {
      RemovedStays(s, w, i, page);
    } else {
      assert forall k :: 0 <= k < |s.pages| ==> w.pages[k].page == s.pages[k].page;
    }
  }

  lemma RemovedStays<P>(s: Slab<P>, w: Slab<P>, i: nat, page: P)
    requires i < |s.pages| && w.pages == Removed(s.pages, i) && w.spare == [s.pages[i].page] + s.spare
    ensures Unknown(w, page) <==> Unknown(s, page)
  {
    assert page in w.spare <==> page == s.pages[i].page || page in s.spare;
    if Unknown(w, page) {
      forall k | 0 <= k < |s.pages| ensures s.pages[k].page != page {
        assert k != i ==> s.pages[k] == w.pages[if k < i then k else k - 1];
      }
    }
    if Unknown(s, page) {
      forall k | 0 <= k < |w.pages| ensures w.pages[k].page != page {
        assert w.pages[k] == s.pages[if k < i then k else k + 1];
      }
    }
  }

  /** No page of the list has nothing in use, unless it is the only one. */
  ghost predicate NoneIdle<P>(s: Slab<P>) {
    |s.pages| > 1 ==> forall i :: 0 <= i < |s.pages| ==> |s.pages[i].free| < ENTRIES
  }

  lemma AllocNoneIdle<P>(s: Slab<P>, added: P)
    requires Good(s) && Unknown(s, added) && NoneIdle(s)
    ensures NoneIdle(Alloc(s, added))
  {
    WithRoomKeeps(s, added);
    hide Good, GoodPage;
  }

  lemma FreeNoneIdle<P>(s: Slab<P>, i: nat, slot: nat)
    requires Good(s) && i < |s.pages| && Live(s, EntryRef(s.pages[i].page, slot)) && NoneIdle(s)
    ensures NoneIdle(Free(s, i, slot))
  {
    hide Good, GoodPage, Live;
    var w := Free(s, i, slot);
    if |w.pages| < |s.pages| {
      assert forall k :: 0 <= k < |w.pages| ==> w.pages[k] == s.pages[if k < i then k else k + 1];
    }
  }

  /** So in every run: pages that run empty leave the list at once, for the next allocations to take before new memory. */
  lemma {:induction false} NoPageIdle<P>(page: P, ops: seq<Op<P>>)
    ensures NoneIdle(Run(Slab([PageView(page, AllSlots())], 0, []), ops))
    decreases |ops|
  {
    var s := Slab([PageView(page, AllSlots())], 0, []);
    hide Good, Live, Unknown, Alloc, Free, NoneIdle;
    if ops == [] {
      OnlyPage(s);
    } else {
      var before, op := ops[..|ops| - 1], ops[|ops| - 1];
      NoPageIdle(page, before);
      RunKeeps(page, before);
      var b := Run(s, before);
      if Allowed(b, op) {
        if op.Take? { AllocNoneIdle(b, op.added); } else { FreeNoneIdle(b, op.i, op.slot); }
      }
    }
  }

  lemma OnlyPage<P>(s: Slab<P>)
    requires |s.pages| == 1
    ensures NoneIdle(s)
  {
  }
}
