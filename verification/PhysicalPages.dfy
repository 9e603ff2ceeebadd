/**
  Physical pages as kernel/mem/mngr.c keeps them: for each range of memory a stack of free pages,
  and a table that for each page has either its flags, when used, or its position in the stack.
 */
module PhysicalPages {
  import opened Sequences

  const PAGE: nat := 4096
  const NULL_PAGE: nat := 0
  const ADDRESS_SPACE: nat := 0x1_0000_0000

  /** A free page's index is its place on the stack; flags beside used and head are in rest. */
  datatype PageInfo = PageInfo(index: nat, used: bool, head: bool, rest: nat)

  datatype Range = Range(base: nat, free: seq<nat>, table: seq<PageInfo>)

  function PageAt(r: Range, i: nat): nat { r.base + PAGE * i }

  function IndexOf(r: Range, page: nat): nat {
    if page < r.base then 0 else (page - r.base) / PAGE
  }

  predicate InRange(r: Range, page: nat) {
    page >= r.base && page == PageAt(r, IndexOf(r, page)) && IndexOf(r, page) < |r.table|
  }

  /** The k-th page of the stack is a page of the range that says it is the k-th. */
  predicate OnStack(r: Range, k: nat) {
    k < |r.free| && InRange(r, r.free[k])
    && !r.table[IndexOf(r, r.free[k])].used && r.table[IndexOf(r, r.free[k])].index == k
  }

  /** A page that is not used has nothing but its place on the stack, and is there. */
  predicate Stacked(r: Range, i: nat) {
    i < |r.table| && !r.table[i].head && r.table[i].rest == 0
    && r.table[i].index < |r.free| && r.free[r.table[i].index] == PageAt(r, i)
  }

  /** The stack holds the unused pages, each once, and the table says where. */
  ghost predicate Good(r: Range) {
    && 0 < r.base && r.base % PAGE == 0 && r.base + PAGE * |r.table| <= ADDRESS_SPACE
    && (forall k :: 0 <= k < |r.free| ==> OnStack(r, k))
    && (forall i :: 0 <= i < |r.table| && !r.table[i].used ==> Stacked(r, i))
  }

  lemma IndexOfPage(r: Range, i: nat)
    ensures IndexOf(r, PageAt(r, i)) == i
  {
  }

  /** The stack has no page twice, so a used page leaves room on it: the check after a push never fires. */
  lemma StackHasRoom(r: Range, i: nat)
    requires Good(r) && i < |r.table| && r.table[i].used
    ensures |r.free| < |r.table|
  {
    var s := seq(|r.free|, (k: nat) => if k < |r.free| then IndexOf(r, r.free[k]) else 0) + [i];
    forall j, k | 0 <= j < k < |s| ensures s[j] != s[k] {
      assert OnStack(r, j);
      if k < |r.free| { assert OnStack(r, k); }
    }
    forall k | 0 <= k < |s| ensures s[k] < |r.table| {
      if k < |r.free| { assert OnStack(r, k); }
    }
    Pigeonhole(s, |r.table|);
  }

  /** Hence never more pages on the stack than in the range. */
  lemma StackFits(r: Range)
    requires Good(r)
    ensures |r.free| <= |r.table|
  {
    var s := seq(|r.free|, (k: nat) => if k < |r.free| then IndexOf(r, r.free[k]) else 0);
    forall j, k | 0 <= j < k < |s| ensures s[j] != s[k] {
      assert OnStack(r, j) && OnStack(r, k);
    }
    forall k | 0 <= k < |s| ensures s[k] < |r.table| {
      assert OnStack(r, k);
    }
    Pigeonhole(s, |r.table|);
  }

  // ------------------------------------------------------------------ one range

  /** The page an allocation takes from a range that has any. */
  function Top(r: Range): nat {
    if r.free == [] then NULL_PAGE else r.free[|r.free| - 1]
  }

  function Pop(r: Range, rest: nat): Range {
    if r.free == [] || IndexOf(r, Top(r)) >= |r.table| then r
    else r.(free := r.free[..|r.free| - 1], table := r.table[IndexOf(r, Top(r)) := PageInfo(0, true, true, rest)])
  }

  /** Past the table the entry written is none of the range's. */
  function Push(r: Range, i: nat): Range {
    r.(free := r.free + [PageAt(r, i)],
       table := if i < |r.table| then r.table[i := PageInfo(|r.free|, false, false, 0)] else r.table)
  }

  /**
    The i-th entry as the code reads it, which does not ask whether the table has that many.  What
    follows a table is the stack of the next range, if there is one; a word of it reads as used and
    not head when bit 24 of the address it holds is set and bit 25 is not.
   */
  function EntryAt(r: Range, i: nat, beyond: seq<PageInfo>): PageInfo {
    if i < |r.table| then r.table[i]
    else if i - |r.table| < |beyond| then beyond[i - |r.table|]
    else PageInfo(0, false, false, 0)
  }

  predicate Continues(e: PageInfo) { e.used && !e.head }

  /** Frees the page and those after it that are used and not the head of another allocation. */
  function FreeRun(r: Range, i: nat, beyond: seq<PageInfo>): Range
    decreases |r.table| + |beyond| - i
  {
    if i < |r.table| + |beyond| && Continues(EntryAt(r, i + 1, beyond)) then FreeRun(Push(r, i), i + 1, beyond)
    else Push(r, i)
  }

  /** The allocation reaches the end of the table, and what lies past it reads as its continuation. */
  predicate Overruns(r: Range, i: nat, beyond: seq<PageInfo>) {
    (forall j :: i < j < |r.table| ==> Continues(r.table[j])) && beyond != [] && Continues(beyond[0])
  }

  lemma PopKeeps(r: Range, rest: nat)
    requires Good(r)
    ensures Good(Pop(r, rest))
    ensures r.free != [] ==> InRange(r, Top(r)) && !r.table[IndexOf(r, Top(r))].used
    ensures r.free != [] ==> var i := IndexOf(r, Top(r));
      Pop(r, rest) == r.(free := r.free[..|r.free| - 1], table := r.table[i := PageInfo(0, true, true, rest)])
  {
    if r.free != [] {
      var n := |r.free| - 1;
      assert OnStack(r, n);
      var q, i := Pop(r, rest), IndexOf(r, Top(r));
      forall k | 0 <= k < |q.free| ensures OnStack(q, k) {
        assert OnStack(r, k);
      }
      forall j | 0 <= j < |q.table| && !q.table[j].used ensures Stacked(q, j) {
        assert Stacked(r, j);
      }
    }
  }

  lemma PushKeeps(r: Range, i: nat)
    requires Good(r) && i < |r.table| && r.table[i].used
    ensures Good(Push(r, i))
  {
    var q := Push(r, i);
    IndexOfPage(r, i);
    forall k | 0 <= k < |q.free| ensures OnStack(q, k) {
      if k < |r.free| { assert OnStack(r, k); }
    }
    forall j | 0 <= j < |q.table| && !q.table[j].used ensures Stacked(q, j) {
      if j != i { assert Stacked(r, j); }
    }
  }

  lemma {:induction false} FreeRunAppends(r: Range, i: nat, beyond: seq<PageInfo>)
    ensures var q := FreeRun(r, i, beyond);
      r.free + [PageAt(r, i)] <= q.free && |q.table| == |r.table| && q.base == r.base
    decreases |r.table| + |beyond| - i
  {
    if i < |r.table| + |beyond| && Continues(EntryAt(r, i + 1, beyond)) { FreeRunAppends(Push(r, i), i + 1, beyond); }
  }

  /** A page that is not of the range spoils its stack. */
  lemma StrayPage(r: Range, k: nat, i: nat)
    requires k < |r.free| && r.free[k] == PageAt(r, i) && i >= |r.table|
    ensures !Good(r)
  {
    IndexOfPage(r, i);
    assert !OnStack(r, k);
  }

  /** Freeing keeps a range in order exactly when the run ends inside the table. */
  lemma {:induction false} FreeRunKeepsIff(r: Range, i: nat, beyond: seq<PageInfo>)
    requires Good(r) && i < |r.table| && r.table[i].used
    ensures Good(FreeRun(r, i, beyond)) <==> !Overruns(r, i, beyond)
    ensures |FreeRun(r, i, beyond).table| == |r.table| && FreeRun(r, i, beyond).base == r.base
    decreases |r.table| - i
  {
    hide Good;
    PushKeeps(r, i);
    FreeRunAppends(r, i, beyond);
    var q := Push(r, i);
    if i + 1 < |r.table| {
      assert forall j :: i + 1 < j < |r.table| ==> q.table[j] == r.table[j];
      if Continues(r.table[i + 1]) { FreeRunKeepsIff(q, i + 1, beyond); }
    } else if beyond != [] && Continues(beyond[0]) {
      FreeRunAppends(q, i + 1, beyond);
      StrayPage(FreeRun(r, i, beyond), |q.free|, i + 1);
    }
  }

  /** A run that ends inside the table does not depend on what lies past it. */
  lemma {:induction false} RunInside(r: Range, i: nat, beyond: seq<PageInfo>)
    requires i < |r.table| && !Overruns(r, i, beyond)
    ensures FreeRun(r, i, beyond) == FreeRun(r, i, [])
    decreases |r.table| - i
  {
    if i + 1 < |r.table| && Continues(r.table[i + 1]) {
      var q := Push(r, i);
      assert forall j :: i + 1 < j < |r.table| ==> q.table[j] == r.table[j];
      RunInside(q, i + 1, beyond);
    }
  }

  /** Freeing what an allocation just took gives back the very same range, unless a longer allocation follows it. */
  lemma PushUndoesPop(r: Range, rest: nat)
    requires Good(r) && r.free != []
    ensures Push(Pop(r, rest), IndexOf(r, Top(r))) == r
  {
    var n, i := |r.free| - 1, IndexOf(r, Top(r));
    assert OnStack(r, n) && Stacked(r, i);
    PopKeeps(r, rest);
    assert r.free == r.free[..n] + [r.free[n]];
    assert r.table[i := PageInfo(0, true, true, rest)][i := r.table[i]] == r.table;
  }

  // ------------------------------------------------------------------ all ranges

  predicate Overlap(r: Range, q: Range) {
    r.base < PageAt(q, |q.table|) && q.base < PageAt(r, |r.table|)
  }

  ghost predicate GoodMemory(rs: seq<Range>) {
    && (forall j :: 0 <= j < |rs| ==> Good(rs[j]))
    && (forall j, k :: 0 <= j < |rs| && 0 <= k < |rs| && j != k ==> !Overlap(rs[j], rs[k]))
  }

  predicate UsedIn(r: Range, page: nat) {
    InRange(r, page) && r.table[IndexOf(r, page)].used
  }

  ghost predicate InUse(rs: seq<Range>, page: nat) {
    exists j :: 0 <= j < |rs| && UsedIn(rs[j], page)
  }

  /** The loop has no break: it takes a page from every range that has one. */
  function PopAll(rs: seq<Range>, rest: nat): seq<Range> {
    seq(|rs|, (j: nat) => if j < |rs| then Pop(rs[j], rest) else Range(0, [], []))
  }

  /** What it returns is the page it took last. */
  function Returned(rs: seq<Range>): nat {
    if rs == [] then NULL_PAGE
    else if rs[|rs| - 1].free != [] then Top(rs[|rs| - 1])
    else Returned(rs[..|rs| - 1])
  }

  predicate Matches(r: Range, page: nat) {
    UsedIn(r, page) && r.table[IndexOf(r, page)].head
  }

  /** What lies past the table of range j. */
  function Past(beyond: seq<seq<PageInfo>>, j: nat): seq<PageInfo> { if j < |beyond| then beyond[j] else [] }

  /** The first range where the page heads an allocation gets it back, with what follows it. */
  function FreeFrom(rs: seq<Range>, page: nat, j: nat, beyond: seq<seq<PageInfo>>): seq<Range>
    decreases |rs| - j
  {
    if j >= |rs| then rs
    else if Matches(rs[j], page) then rs[j := FreeRun(rs[j], IndexOf(rs[j], page), Past(beyond, j))]
    else FreeFrom(rs, page, j + 1, beyond)
  }

  function FreePages(rs: seq<Range>, page: nat, beyond: seq<seq<PageInfo>>): seq<Range> {
    var p := page - page % PAGE;
    if p == NULL_PAGE then rs else FreeFrom(rs, p, 0, beyond)
  }

  /** Freeing the page runs past the end of its range's table. */
  predicate RunsOver(rs: seq<Range>, page: nat, beyond: seq<seq<PageInfo>>) {
    var p := page - page % PAGE;
    exists j :: 0 <= j < |rs| && Matches(rs[j], p) && Overruns(rs[j], IndexOf(rs[j], p), Past(beyond, j))
  }

  /** At most one range has free pages left. */
  predicate OneSupplier(rs: seq<Range>) {
    forall j, k :: 0 <= j < |rs| && 0 <= k < |rs| && rs[j].free != [] && rs[k].free != [] ==> j == k
  }

  lemma RangesApart(rs: seq<Range>, j: nat, k: nat, page: nat)
    requires GoodMemory(rs) && j < |rs| && k < |rs| && InRange(rs[j], page) && InRange(rs[k], page)
    ensures j == k
  {
    assert j != k ==> !Overlap(rs[j], rs[k]);
  }

  lemma {:induction false} ReturnedIsTop(rs: seq<Range>) returns (j: nat)
    requires exists k :: 0 <= k < |rs| && rs[k].free != []
    ensures j < |rs| && rs[j].free != [] && Returned(rs) == Top(rs[j])
  {
    j := |rs| - 1;
    if rs[j].free == [] {
      j := ReturnedIsTop(rs[..j]);
    }
  }

  lemma {:induction false} NothingReturned(rs: seq<Range>)
    requires forall k :: 0 <= k < |rs| ==> rs[k].free == []
    ensures Returned(rs) == NULL_PAGE
  {
    if rs != [] { NothingReturned(rs[..|rs| - 1]); }
  }

  lemma PoppedRange(rs: seq<Range>, rest: nat, j: nat)
    requires GoodMemory(rs) && j < |rs|
    ensures Good(PopAll(rs, rest)[j]) && PopAll(rs, rest)[j].base == rs[j].base && |PopAll(rs, rest)[j].table| == |rs[j].table|
    ensures forall page :: UsedIn(PopAll(rs, rest)[j], page) <==> UsedIn(rs[j], page) || (rs[j].free != [] && page == Top(rs[j]))
  {
    PopKeeps(rs[j], rest);
    hide Good;
  }

  lemma PopAllKeeps(rs: seq<Range>, rest: nat)
    requires GoodMemory(rs)
    ensures GoodMemory(PopAll(rs, rest))
  {
    hide Good, UsedIn;
    forall j | 0 <= j < |rs| ensures Good(PopAll(rs, rest)[j]) { PoppedRange(rs, rest, j); }
    forall j, k | 0 <= j < |rs| && 0 <= k < |rs| && j != k ensures !Overlap(PopAll(rs, rest)[j], PopAll(rs, rest)[k]) {
      PoppedRange(rs, rest, j);
      PoppedRange(rs, rest, k);
      assert !Overlap(rs[j], rs[k]);
    }
  }

  lemma TopIsFree(rs: seq<Range>, j: nat)
    requires GoodMemory(rs) && j < |rs| && rs[j].free != []
    ensures !InUse(rs, Top(rs[j])) && InRange(rs[j], Top(rs[j])) && Top(rs[j]) != NULL_PAGE
  {
    PopKeeps(rs[j], 0);
    if InUse(rs, Top(rs[j])) {
      var k :| 0 <= k < |rs| && UsedIn(rs[k], Top(rs[j]));
      RangesApart(rs, j, k, Top(rs[j]));
    }
  }

  /** What is handed out was not in use and now is; null comes back exactly when every range is empty. */
  lemma AllocGivesFreePage(rs: seq<Range>, rest: nat)
    requires GoodMemory(rs)
    ensures Returned(rs) == 0 <==> forall k :: 0 <= k < |rs| ==> rs[k].free == []
    ensures Returned(rs) != 0 ==> !InUse(rs, Returned(rs)) && InUse(PopAll(rs, rest), Returned(rs))
    ensures forall page :: InUse(rs, page) ==> InUse(PopAll(rs, rest), page)
  {
    hide Good, Overlap, Pop;
    var q := PopAll(rs, rest);
    if k :| 0 <= k < |rs| && rs[k].free != [] {
      var j := ReturnedIsTop(rs);
      TopIsFree(rs, j);
      PoppedRange(rs, rest, j);
      assert UsedIn(q[j], Returned(rs));
    } else {
      NothingReturned(rs);
    }
    forall page | InUse(rs, page) ensures InUse(q, page) {
      var j :| 0 <= j < |rs| && UsedIn(rs[j], page);
      PoppedRange(rs, rest, j);
    }
  }

  /**
    Every page that becomes used is the one returned exactly when at most one range has free pages;
    otherwise some page becomes used that nobody has been given.
   */
  lemma AllocLosesNothingIff(rs: seq<Range>, rest: nat)
    requires GoodMemory(rs)
    ensures (forall page :: InUse(PopAll(rs, rest), page) ==> InUse(rs, page) || page == Returned(rs)) <==> OneSupplier(rs)
  {
    hide Good, Overlap, Pop;
    var q := PopAll(rs, rest);
    if OneSupplier(rs) {
      forall page | InUse(q, page) ensures InUse(rs, page) || page == Returned(rs) {
        var j :| 0 <= j < |q| && UsedIn(q[j], page);
        PoppedRange(rs, rest, j);
        if !UsedIn(rs[j], page) {
          var k := ReturnedIsTop(rs);
          assert k == j;
        }
      }
    } else {
      var lost := SecondPageLost(rs, rest);
    }
  }

  lemma SecondPageLost(rs: seq<Range>, rest: nat) returns (page: nat)
    requires GoodMemory(rs) && !OneSupplier(rs)
    ensures InUse(PopAll(rs, rest), page) && !InUse(rs, page) && page != Returned(rs)
  {
    hide Good, Overlap, Pop;
    var j, k :| 0 <= j < |rs| && 0 <= k < |rs| && rs[j].free != [] && rs[k].free != [] && j != k;
    var last := ReturnedIsTop(rs);
    var lost := if j == last then k else j;
    page := Top(rs[lost]);
    TopIsFree(rs, lost);
    TopIsFree(rs, last);
    PoppedRange(rs, rest, lost);
    assert UsedIn(PopAll(rs, rest)[lost], page);
    if page == Returned(rs) { RangesApart(rs, lost, last, page); }
  }

  // ------------------------------------------------------------------ freeing

  /** Only single pages are ever handed out, so every used page heads its own allocation. */
  ghost predicate AllHeads(rs: seq<Range>) {
    forall j, i :: 0 <= j < |rs| && 0 <= i < |rs[j].table| ==> (rs[j].table[i].used ==> rs[j].table[i].head)
  }

  lemma MatchIsUsed(r: Range, page: nat)
    requires Matches(r, page)
    ensures IndexOf(r, page) < |r.table| && r.table[IndexOf(r, page)].used
  {
  }

  lemma OneRangeChanged(rs: seq<Range>, j: nat, q: Range)
    requires GoodMemory(rs) && j < |rs| && Good(q) && q.base == rs[j].base && |q.table| == |rs[j].table|
    ensures GoodMemory(rs[j := q])
  {
    hide Good;
    var more := rs[j := q];
    forall i, k | 0 <= i < |more| && 0 <= k < |more| && i != k ensures !Overlap(more[i], more[k]) {
      assert !Overlap(rs[i], rs[k]);
    }
  }

  /** Freeing keeps all ranges in order exactly when no run goes past the end of a table. */
  lemma FreeKeepsIff(rs: seq<Range>, page: nat, beyond: seq<seq<PageInfo>>)
    requires GoodMemory(rs)
    ensures GoodMemory(FreePages(rs, page, beyond)) <==> !RunsOver(rs, page, beyond)
  {
    var p := page - page % PAGE;
    if k :| 0 <= k < |rs| && Matches(rs[k], p) {
      var i := IndexOf(rs[k], p);
      MatchIsUsed(rs[k], p);
      NotNull(rs[k], p);
      FreeFromFinds(rs, p, 0, k, beyond);
      FreeRunKeepsIff(rs[k], i, Past(beyond, k));
      var q := FreeRun(rs[k], i, Past(beyond, k));
      assert FreePages(rs, page, beyond)[k] == q;
      if Good(q) { OneRangeChanged(rs, k, q); }
      forall j | 0 <= j < |rs| && Matches(rs[j], p) ensures j == k { RangesApart(rs, j, k, p); }
      hide Good, Overlap, Matches, Overruns, FreeRun, FreeFrom;
    } else {
      NoMatchNoChange(rs, p, 0, beyond);
    }
  }

  /** Nothing that lies past a table reads as the continuation of an allocation. */
  predicate Fenced(beyond: seq<seq<PageInfo>>) {
    forall j :: 0 <= j < |beyond| && beyond[j] != [] ==> !Continues(beyond[j][0])
  }

  lemma FencedRunsInside(rs: seq<Range>, page: nat, beyond: seq<seq<PageInfo>>)
    requires Fenced(beyond)
    ensures !RunsOver(rs, page, beyond)
  {
    hide Matches, Continues;
  }

  /** A free that ends inside its table does not depend on what lies past it. */
  lemma FreeInside(rs: seq<Range>, page: nat, beyond: seq<seq<PageInfo>>)
    requires GoodMemory(rs) && !RunsOver(rs, page, beyond)
    ensures FreePages(rs, page, beyond) == FreePages(rs, page, [])
  {
    var p := page - page % PAGE;
    if k :| 0 <= k < |rs| && Matches(rs[k], p) {
      MatchIsUsed(rs[k], p);
      FreeFromFinds(rs, p, 0, k, beyond);
      FreeFromFinds(rs, p, 0, k, []);
      RunInside(rs[k], IndexOf(rs[k], p), Past(beyond, k));
    } else {
      NoMatchNoChange(rs, p, 0, beyond);
      NoMatchNoChange(rs, p, 0, []);
    }
  }

  /** A page that heads no allocation in any range changes nothing: freeing twice is harmless. */
  lemma {:induction false} NoMatchNoChange(rs: seq<Range>, page: nat, j: nat, beyond: seq<seq<PageInfo>>)
    requires forall k :: j <= k < |rs| ==> !Matches(rs[k], page)
    ensures FreeFrom(rs, page, j, beyond) == rs
    decreases |rs| - j
  {
    if j < |rs| { NoMatchNoChange(rs, page, j + 1, beyond); }
  }

  lemma UnusedMatchesNothing(rs: seq<Range>, page: nat, k: nat)
    requires !InUse(rs, page) && k < |rs|
    ensures !Matches(rs[k], page)
  {
    hide UsedIn;
  }

  lemma FreeingFreePage(rs: seq<Range>, page: nat, beyond: seq<seq<PageInfo>>)
    requires !InUse(rs, page - page % PAGE)
    ensures FreePages(rs, page, beyond) == rs
  {
    hide UsedIn;
    var p := page - page % PAGE;
    forall k | 0 <= k < |rs| ensures !Matches(rs[k], p) {
      UnusedMatchesNothing(rs, p, k);
    }
    NoMatchNoChange(rs, p, 0, beyond);
  }

  /** The range that is freed from is the one the page is in. */
  lemma {:induction false} FreeFromFinds(rs: seq<Range>, page: nat, j: nat, k: nat, beyond: seq<seq<PageInfo>>)
    requires GoodMemory(rs) && j <= k < |rs| && Matches(rs[k], page)
    ensures FreeFrom(rs, page, j, beyond) == rs[k := FreeRun(rs[k], IndexOf(rs[k], page), Past(beyond, k))]
    decreases |rs| - j
  {
    hide GoodMemory;
    if Matches(rs[j], page) {
      RangesApart(rs, j, k, page);
    } else {
      FreeFromFinds(rs, page, j + 1, k, beyond);
    }
  }

  /**
    While only single pages are handed out, freeing a used page frees that page and no other, exactly
    when it is not the last of its range or what lies past the table does not read as more of it.
   */
  lemma FreeingUsedPage(rs: seq<Range>, page: nat, beyond: seq<seq<PageInfo>>)
    requires GoodMemory(rs) && AllHeads(rs) && page % PAGE == 0 && InUse(rs, page)
    ensures var q := FreePages(rs, page, beyond);
      && (GoodMemory(q) && AllHeads(q) && (forall x :: InUse(q, x) <==> InUse(rs, x) && x != page)) <==> !RunsOver(rs, page, beyond)
    ensures RunsOver(rs, page, beyond) <==>
      exists k :: 0 <= k < |rs| && |rs[k].table| > 0 && page == PageAt(rs[k], |rs[k].table| - 1)
               && Past(beyond, k) != [] && Continues(Past(beyond, k)[0])
  {
    hide Overlap, Good;
    FreeKeepsIff(rs, page, beyond);
    LastRunsOver(rs, page, beyond);
    if !RunsOver(rs, page, beyond) {
      FreeInside(rs, page, beyond);
      SinglePageFreed(rs, page);
    }
  }

  lemma SinglePageFreed(rs: seq<Range>, page: nat)
    requires GoodMemory(rs) && AllHeads(rs) && page % PAGE == 0 && InUse(rs, page)
    ensures var q := FreePages(rs, page, []);
      AllHeads(q) && forall x :: InUse(q, x) <==> InUse(rs, x) && x != page
  {
    hide Overlap, Good;
    var k :| 0 <= k < |rs| && UsedIn(rs[k], page);
    var i, q := IndexOf(rs[k], page), FreePages(rs, page, []);
    NotNull(rs[k], page);
    FreeFromFinds(rs, page, 0, k, []);
    assert FreeRun(rs[k], i, []) == Push(rs[k], i);
    forall x ensures InUse(q, x) <==> InUse(rs, x) && x != page {
      UseAfterPush(rs, q, k, page, x);
    }
  }

  /** With single pages only the last page of a range can run over. */
  lemma LastRunsOver(rs: seq<Range>, page: nat, beyond: seq<seq<PageInfo>>)
    requires GoodMemory(rs) && AllHeads(rs) && page % PAGE == 0 && InUse(rs, page)
    ensures RunsOver(rs, page, beyond) <==>
      exists k :: 0 <= k < |rs| && |rs[k].table| > 0 && page == PageAt(rs[k], |rs[k].table| - 1)
               && Past(beyond, k) != [] && Continues(Past(beyond, k)[0])
  {
    hide Good, Overlap;
    var k :| 0 <= k < |rs| && UsedIn(rs[k], page);
    var i := IndexOf(rs[k], page);
    assert Matches(rs[k], page);
    assert Overruns(rs[k], i, Past(beyond, k)) <==>
           i == |rs[k].table| - 1 && Past(beyond, k) != [] && Continues(Past(beyond, k)[0]) by {
      if i + 1 < |rs[k].table| { assert !Continues(rs[k].table[i + 1]); }
    }
    forall j | 0 <= j < |rs| && |rs[j].table| > 0 && page == PageAt(rs[j], |rs[j].table| - 1) ensures j == k {
      IndexOfPage(rs[j], |rs[j].table| - 1);
      RangesApart(rs, j, k, page);
    }
    forall j | 0 <= j < |rs| && Matches(rs[j], page) ensures j == k { RangesApart(rs, j, k, page); }
    IndexOfPage(rs[k], |rs[k].table| - 1);
  }

  lemma NotNull(r: Range, page: nat)
    requires Good(r) && UsedIn(r, page)
    ensures page != NULL_PAGE
  {
  }

  lemma UseAfterPush(rs: seq<Range>, q: seq<Range>, k: nat, page: nat, x: nat)
    requires GoodMemory(rs) && k < |rs| && UsedIn(rs[k], page) && q == rs[k := Push(rs[k], IndexOf(rs[k], page))]
    ensures InUse(q, x) <==> InUse(rs, x) && x != page
  {
    hide Good, Overlap;
    if InUse(rs, x) && x != page {
      var j :| 0 <= j < |rs| && UsedIn(rs[j], x);
      assert UsedIn(q[j], x);
    }
    if InUse(q, x) {
      var j :| 0 <= j < |q| && UsedIn(q[j], x);
      assert UsedIn(rs[j], x);
      if x == page { RangesApart(rs, j, k, page); }
    }
  }

  /** A range's pages are the multiples of 4096 from its base on, as many as its table has entries. */
  lemma InRangeIs(r: Range, page: nat)
    ensures InRange(r, page) <==> page >= r.base && (page - r.base) % 4096 == 0 && (page - r.base) / 4096 < |r.table|
    ensures InRange(r, page) ==> IndexOf(r, page) == (page - r.base) / 4096
  {
  }

  /** Page j of the range is one of the allocation that begins at address p: all between are used and no other's head. */
  ghost predicate PartOf(r: Range, p: nat, j: nat) {
    exists i :: 0 <= i <= j < |r.table| && HeadAt(r, p, i) && InOneAllocation(r, i, j)
  }

  predicate HeadAt(r: Range, p: nat, i: nat) { i < |r.table| && p == r.base + 4096 * i && r.table[i].used && r.table[i].head }

  predicate InOneAllocation(r: Range, i: nat, j: nat) {
    forall m :: i < m <= j && m < |r.table| ==> r.table[m].used && !r.table[m].head
  }

  lemma {:induction false} FreeRunUsed(r: Range, i: nat, beyond: seq<PageInfo>, j: nat)
    requires i < |r.table| && r.table[i].used && !Overruns(r, i, beyond) && j < |r.table|
    ensures |FreeRun(r, i, beyond).table| == |r.table|
    ensures FreeRun(r, i, beyond).table[j].used <==> r.table[j].used && !(i <= j && InOneAllocation(r, i, j))
    decreases |r.table| - i
  {
    var q := Push(r, i);
    if i + 1 < |r.table| && Continues(r.table[i + 1]) {
      assert forall m :: i + 1 < m < |r.table| ==> q.table[m] == r.table[m];
      FreeRunUsed(q, i + 1, beyond, j);
      assert i + 1 <= j ==> (InOneAllocation(q, i + 1, j) <==> InOneAllocation(r, i, j));
    } else {
      assert i + 1 < |r.table| ==> !Continues(r.table[i + 1]);
    }
  }

  lemma MatchIsHead(r: Range, p: nat)
    ensures Matches(r, p) <==> exists i: nat :: HeadAt(r, p, i)
    ensures Matches(r, p) ==> HeadAt(r, p, IndexOf(r, p))
    ensures forall i: nat :: HeadAt(r, p, i) ==> i == IndexOf(r, p)
  {
    if Matches(r, p) { assert HeadAt(r, p, IndexOf(r, p)); }
    forall i: nat | HeadAt(r, p, i) ensures i == IndexOf(r, p) { IndexOfPage(r, i); }
  }

  /** A free that does not run over takes out of use exactly the pages of the allocation that begins at the page given. */
  lemma FreesTheAllocation(rs: seq<Range>, page: nat, beyond: seq<seq<PageInfo>>, k: nat, j: nat)
    requires GoodMemory(rs) && !RunsOver(rs, page, beyond) && k < |rs| && j < |rs[k].table|
    ensures var q := FreePages(rs, page, beyond);
      && |q| == |rs| && q[k].base == rs[k].base && |q[k].table| == |rs[k].table|
      && (q[k].table[j].used <==> rs[k].table[j].used && !PartOf(rs[k], page - page % 4096, j))
  {
    var p := page - page % PAGE;
    MatchIsHead(rs[k], p);
    if k0 :| 0 <= k0 < |rs| && Matches(rs[k0], p) {
      var i := IndexOf(rs[k0], p);
      MatchIsUsed(rs[k0], p);
      NotNull(rs[k0], p);
      FreeFromFinds(rs, p, 0, k0, beyond);
      FreeRunAppends(rs[k0], i, Past(beyond, k0));
      hide Good, Overlap, FreeRun, FreeFrom, Overruns, InOneAllocation;
      if k == k0 {
        FreeRunUsed(rs[k], i, Past(beyond, k), j);
      } else if Matches(rs[k], p) {
        RangesApart(rs, k, k0, p);
      }
    } else {
      NoMatchNoChange(rs, p, 0, beyond);
    }
  }

  /**
    Freeing the page an allocation returned restores everything, when one range supplied it, exactly
    when the free does not run over.
   */
  lemma FreeUndoesAlloc(rs: seq<Range>, rest: nat, beyond: seq<seq<PageInfo>>)
    requires GoodMemory(rs) && AllHeads(rs) && OneSupplier(rs) && Returned(rs) != NULL_PAGE
    ensures FreePages(PopAll(rs, rest), Returned(rs), beyond) == rs <==> !RunsOver(PopAll(rs, rest), Returned(rs), beyond)
  {
    hide Good, Overlap, Pop, Push, Matches, Overruns;
    PopAllKeeps(rs, rest);
    FreeKeepsIff(PopAll(rs, rest), Returned(rs), beyond);
    if !RunsOver(PopAll(rs, rest), Returned(rs), beyond) {
      FreeInside(PopAll(rs, rest), Returned(rs), beyond);
      InsideUndoes(rs, rest);
    }
  }

  lemma InsideUndoes(rs: seq<Range>, rest: nat)
    requires GoodMemory(rs) && AllHeads(rs) && OneSupplier(rs) && Returned(rs) != NULL_PAGE
    ensures FreePages(PopAll(rs, rest), Returned(rs), []) == rs
  {
    hide Good, Overlap, Pop, Push;
    var q, page := PopAll(rs, rest), Returned(rs);
    AllocGivesFreePage(rs, rest);
    var k := ReturnedIsTop(rs);
    TopIsFree(rs, k);
    PopAllKeeps(rs, rest);
    PoppedHead(rs[k], rest);
    TopAligned(rs[k], page);
    FreeFromFinds(q, page, 0, k, []);
    FreesOnlyTop(rs, rest, k);
    PushUndoesPop(rs[k], rest);
    forall j | 0 <= j < |rs| && j != k ensures q[j] == rs[j] {
      assert rs[j].free == [];
      PopOfEmpty(rs[j], rest);
    }
    assert q[k := rs[k]] == rs;
  }

  lemma PopOfEmpty(r: Range, rest: nat)
    requires r.free == []
    ensures Pop(r, rest) == r
  {
  }

  lemma PoppedHead(r: Range, rest: nat)
    requires Good(r) && r.free != []
    ensures Matches(Pop(r, rest), Top(r)) && IndexOf(Pop(r, rest), Top(r)) == IndexOf(r, Top(r))
  {
    PopKeeps(r, rest);
  }

  lemma TopAligned(r: Range, page: nat)
    requires Good(r) && InRange(r, page)
    ensures page % PAGE == 0
  {
  }

  lemma FreesOnlyTop(rs: seq<Range>, rest: nat, k: nat)
    requires GoodMemory(rs) && AllHeads(rs) && k < |rs| && rs[k].free != []
    ensures FreeRun(Pop(rs[k], rest), IndexOf(rs[k], Top(rs[k])), []) == Push(Pop(rs[k], rest), IndexOf(rs[k], Top(rs[k])))
  {
    PopKeeps(rs[k], rest);
    hide Good, Overlap;
  }

  // ------------------------------------------------------------------ what follows a table

  const BIT24: nat := 0x100_0000

  /** A word read as an entry: 24 bits of index, then the flags, used first and head second. */
  function AsEntry(word: nat): PageInfo {
    PageInfo(word % BIT24, word / BIT24 % 2 == 1, word / BIT24 / 2 % 2 == 1, word / BIT24 / 4)
  }

  /** Each part of the entry is where the word has it, and nothing is lost. */
  lemma EntryWord(word: nat)
    ensures var e := AsEntry(word);
      e.index < 0x100_0000 && word == e.index + 0x100_0000 * ((if e.used then 1 else 0) + (if e.head then 2 else 0) + 4 * e.rest)
  {
    var x := word / BIT24;
    assert x == 4 * (x / 4) + (x % 2) + 2 * (x / 2 % 2);
  }

  lemma ReadsAsMore(word: nat)
    ensures Continues(AsEntry(word)) <==> word / 0x100_0000 % 4 == 1
  {
    TwoBits(word / BIT24);
  }

  lemma TwoBits(x: nat)
    ensures x % 4 == 1 <==> x % 2 == 1 && x / 2 % 2 == 0
  {
    var q, r := x / 4, x % 4;
    assert x == 4 * q + r && x / 2 == 2 * q + r / 2;
  }

  /** The word at the bottom of a stack; when the stack is empty it is what was there last. */
  function Bottom(r: Range, stale: nat): nat { if r.free == [] then stale else r.free[0] }

  /**
    At start-up the stacks and tables are laid one after another: after a table comes the stack of the
    next range that has pages, and after the last one something else.  stale are the bottom words of
    empty stacks.
   */
  function NextStack(rs: seq<Range>, stale: seq<nat>, last: seq<PageInfo>, j: nat): seq<PageInfo>
    decreases |rs| - j
  {
    if j >= |rs| then last
    else if rs[j].table == [] then NextStack(rs, stale, last, j + 1)
    else [AsEntry(Bottom(rs[j], if j < |stale| then stale[j] else 0))]
  }

  function Following(rs: seq<Range>, stale: seq<nat>, last: seq<PageInfo>): (beyond: seq<seq<PageInfo>>)
    ensures |beyond| == |rs| && forall j :: 0 <= j < |rs| ==> beyond[j] == NextStack(rs, stale, last, j + 1)
  {
    seq(|rs|, (j: nat) => NextStack(rs, stale, last, j + 1))
  }

  /** After a table comes the stack of the next range that has pages; nothing is there of ranges without. */
  lemma {:induction false} NextStackIs(rs: seq<Range>, stale: seq<nat>, last: seq<PageInfo>, j: nat, k: nat)
    requires j <= k <= |rs| && (forall i :: j <= i < k ==> rs[i].table == []) && (k < |rs| ==> rs[k].table != [])
    ensures NextStack(rs, stale, last, j) == if k < |rs| then [AsEntry(Bottom(rs[k], if k < |stale| then stale[k] else 0))] else last
    decreases k - j
  {
    if j < k { NextStackIs(rs, stale, last, j + 1, k); }
  }

  /**
    So when the last page of a range is freed on its own, and range k is the next that has pages, all ranges
    stay in order exactly when the lowest word of that range's stack, or what is there when the stack is empty,
    is not an address with bit 24 set and bit 25 clear.
   */
  lemma FreeingLastPageIff(rs: seq<Range>, j: nat, k: nat, stale: seq<nat>, last: seq<PageInfo>)
    requires GoodMemory(rs) && AllHeads(rs) && j < k < |rs| && rs[j].table != [] && rs[k].table != []
    requires rs[j].table[|rs[j].table| - 1].used && forall i :: j < i < k ==> rs[i].table == []
    requires rs[k].free != [] || k < |stale|
    ensures var word := if rs[k].free != [] then rs[k].free[0] else stale[k];
      GoodMemory(FreePages(rs, PageAt(rs[j], |rs[j].table| - 1), Following(rs, stale, last))) <==> word / 0x100_0000 % 4 != 1
  {
    NextStackIs(rs, stale, last, j + 1, k);
    var word := Bottom(rs[k], if k < |stale| then stale[k] else 0);
    ReadsAsMore(word);
    assert Following(rs, stale, last)[j] == [AsEntry(word)];
    hide NextStack, Following, AsEntry, Continues;
    LastPageOver(rs, j, Following(rs, stale, last));
  }

  /** Freeing the last page of range j keeps all in order exactly when what lies past its table does not read as more. */
  lemma LastPageOver(rs: seq<Range>, j: nat, beyond: seq<seq<PageInfo>>)
    requires GoodMemory(rs) && AllHeads(rs) && j < |rs| && rs[j].table != [] && rs[j].table[|rs[j].table| - 1].used
    ensures GoodMemory(FreePages(rs, PageAt(rs[j], |rs[j].table| - 1), beyond)) <==> !(Past(beyond, j) != [] && Continues(Past(beyond, j)[0]))
  {
    var page := PageAt(rs[j], |rs[j].table| - 1);
    LastPageIsUsed(rs, j, page);
    hide Good, Overlap, RunsOver, Continues;
    FreeKeepsIff(rs, page, beyond);
    LastRunsOver(rs, page, beyond);
    if k :| 0 <= k < |rs| && |rs[k].table| > 0 && page == PageAt(rs[k], |rs[k].table| - 1)
            && Past(beyond, k) != [] && Continues(Past(beyond, k)[0]) {
      IndexOfPage(rs[k], |rs[k].table| - 1);
      RangesApart(rs, j, k, page);
    }
  }

  lemma LastPageIsUsed(rs: seq<Range>, j: nat, page: nat)
    requires GoodMemory(rs) && j < |rs| && rs[j].table != [] && page == PageAt(rs[j], |rs[j].table| - 1)
    requires rs[j].table[|rs[j].table| - 1].used
    ensures InRange(rs[j], page) && UsedIn(rs[j], page) && InUse(rs, page) && page % PAGE == 0
  {
    IndexOfPage(rs[j], |rs[j].table| - 1);
    assert Good(rs[j]);
    assert UsedIn(rs[j], page);
  }

  /** One page below 15 MB, in use, and one at 16 MB, free: freeing the first spoils its stack. */
  lemma FreeBelow16M(stale: seq<nat>, last: seq<PageInfo>)
    ensures var rs := [Range(0xEF_F000, [], [PageInfo(0, true, true, 0)]), Fresh(0x100_0000, 1)];
      GoodMemory(rs) && !GoodMemory(FreePages(rs, 0xEF_F000, Following(rs, stale, last)))
  {
    var rs := [Range(0xEF_F000, [], [PageInfo(0, true, true, 0)]), Fresh(0x100_0000, 1)];
    FreshIsGood(0x100_0000, 1);
    assert Good(rs[0]) && Good(rs[1]);
    assert PageAt(rs[0], 0) == 0xEF_F000;
    hide Good;
    FreeingLastPageIff(rs, 0, 1, stale, last);
  }

  // ------------------------------------------------------------------ whole runs

  /** A free comes with what lies past each table at that time. */
  datatype Op = Alloc(rest: nat) | Free(page: nat, beyond: seq<seq<PageInfo>>)

  function Do(rs: seq<Range>, op: Op): seq<Range> {
    match op
    case Alloc(rest) => PopAll(rs, rest)
    case Free(page, beyond) => FreePages(rs, page, beyond)
  }

  function Run(rs: seq<Range>, ops: seq<Op>): seq<Range> {
    if ops == [] then rs else Do(Run(rs, ops[..|ops| - 1]), ops[|ops| - 1])
  }

  /** In every state the run passes through, all ranges are in order. */
  ghost predicate StaysGood(rs: seq<Range>, ops: seq<Op>) {
    GoodMemory(Run(rs, ops)) && (ops != [] ==> StaysGood(rs, ops[..|ops| - 1]))
  }

  /** No free of the run goes past the end of a table. */
  predicate Inside(rs: seq<Range>, ops: seq<Op>) {
    ops != [] ==>
      var before, op := ops[..|ops| - 1], ops[|ops| - 1];
      Inside(rs, before) && (op.Free? ==> !RunsOver(Run(rs, before), op.page, op.beyond))
  }

  /**
    Over a run from a good start every page is on a stack once or used at all times, exactly when no
    free of the run goes past the end of a table.
   */
  lemma {:induction false} RunKeepsIff(rs: seq<Range>, ops: seq<Op>)
    requires GoodMemory(rs)
    ensures StaysGood(rs, ops) <==> Inside(rs, ops)
    decreases |ops|
  {
    if ops != [] {
      var before, op := Run(rs, ops[..|ops| - 1]), ops[|ops| - 1];
      RunKeepsIff(rs, ops[..|ops| - 1]);
      hide Good, Overlap, GoodMemory, RunsOver;
      if StaysGood(rs, ops[..|ops| - 1]) {
        if op.Alloc? { PopAllKeeps(before, op.rest); } else { FreeKeepsIff(before, op.page, op.beyond); }
      }
    }
  }

  /** So it is when nothing past the tables ever reads as the continuation of an allocation. */
  lemma {:induction false} FencedIsInside(rs: seq<Range>, ops: seq<Op>)
    requires forall i :: 0 <= i < |ops| && ops[i].Free? ==> Fenced(ops[i].beyond)
    ensures Inside(rs, ops)
    decreases |ops|
  {
    if ops != [] {
      var before, op := ops[..|ops| - 1], ops[|ops| - 1];
      FencedIsInside(rs, before);
      hide RunsOver, Fenced;
      if op.Free? { FencedRunsInside(Run(rs, before), op.page, op.beyond); }
    }
  }

  /** Then no stack ever overflows. */
  lemma RunKeeps(rs: seq<Range>, ops: seq<Op>)
    requires GoodMemory(rs) && Inside(rs, ops)
    ensures GoodMemory(Run(rs, ops)) && forall j :: 0 <= j < |Run(rs, ops)| ==> |Run(rs, ops)[j].free| <= |Run(rs, ops)[j].table|
  {
    RunKeepsIff(rs, ops);
    hide Good, Overlap;
    forall j | 0 <= j < |Run(rs, ops)| ensures |Run(rs, ops)[j].free| <= |Run(rs, ops)[j].table| {
      StackFits(Run(rs, ops)[j]);
    }
  }

  /** The state a range starts in: all its pages on the stack in order. */
  function Fresh(base: nat, count: nat): Range {
    Range(base, seq(count, (k: nat) => base + PAGE * k), seq(count, (k: nat) => PageInfo(k, false, false, 0)))
  }

  lemma FreshIsGood(base: nat, count: nat)
    requires 0 < base && base % PAGE == 0 && base + PAGE * count <= ADDRESS_SPACE
    ensures Good(Fresh(base, count))
  {
    var r := Fresh(base, count);
    forall k | 0 <= k < |r.free| ensures OnStack(r, k) { IndexOfPage(r, k); }
  }
}
