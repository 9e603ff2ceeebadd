/**
  The code of kernel/mem/mngr.c for physical pages on its own arrays, proved against PhysicalPages.

  A range has an array for its stack and one for its table.  The freeing loop of the code may go on past
  the table; what it writes there is nobody's in this model, and the methods that free say whether it
  happens instead.  PhysicalPages says what it would do to the stack.
 */
module PhysicalMemory {
  import opened PhysicalPages

  class PhysicalRange {
    const base: nat
    const freePages: array<nat>
    const usedPages: array<PageInfo>
    var freeCount: nat

    ghost predicate Shape()
      reads this
    {
      freePages.Length == usedPages.Length && freeCount <= freePages.Length
    }

    ghost function View(): Range
      reads this, freePages, usedPages
    {
      Range(base, if freeCount <= freePages.Length then freePages[..freeCount] else [], usedPages[..])
    }

    ghost predicate Valid()
      reads this, freePages, usedPages
    {
      Shape() && Good(View())
    }

    /** All pages of the range are free, in order. */
    constructor (base: nat, count: nat)
      requires 0 < base && base % PAGE == 0 && base + PAGE * count <= ADDRESS_SPACE
      ensures Valid() && View() == Fresh(base, count) && fresh(freePages) && fresh(usedPages)
    {
      this.base := base;
      freePages := new nat[count](k => if k >= 0 then base + PAGE * k else 0);
      usedPages := new PageInfo[count](k => if k >= 0 then PageInfo(k, false, false, 0) else PageInfo(0, false, false, 0));
      freeCount := count;
      new;
      FreshIsGood(base, count);
      assert View() == Fresh(base, count);
    }

    /** What the allocation loop does to a range that has free pages. */
    method Take(rest: nat) returns (page: nat)
      requires Valid() && freeCount > 0
      modifies this, usedPages
      ensures Valid() && View() == Pop(old(View()), rest) && page == Top(old(View()))
    {
      ghost var r := View();
      PopKeeps(r, rest);
      hide Good, OnStack, Stacked;
      freeCount := freeCount - 1;
      page := freePages[freeCount];
      var i := (page - base) / PAGE;
      usedPages[i] := PageInfo(0, true, true, rest);
      assert freePages[..freeCount] == r.free[..|r.free| - 1];
      assert usedPages[..] == r.table[i := PageInfo(0, true, true, rest)];
    }

    /**
      The loop that puts a page, and those of the same allocation after it, back on the stack, as far
      as the table goes; over says that the code's loop goes on into what lies past it.
     */
    method Release(start: nat, beyond: seq<PageInfo>) returns (over: bool)
      requires Valid() && start < usedPages.Length && usedPages[start].used
      modifies this, freePages, usedPages
      ensures Valid() && View() == FreeRun(old(View()), start, []) && over == Overruns(old(View()), start, beyond)
    {
      ghost var r := View();
      hide Good, OnStack, Stacked;
      var i := start;
      var more := true;
      while more && i < usedPages.Length
        invariant Valid() && start <= i <= usedPages.Length && |View().table| == |r.table|
        invariant more && i < usedPages.Length ==> usedPages[i].used
        invariant forall j :: i <= j < |r.table| ==> usedPages[j] == r.table[j]
        invariant FreeRun(r, start, []) == if more && i < usedPages.Length then FreeRun(View(), i, []) else View()
        invariant more ==> forall j :: start < j <= i && j < |r.table| ==> Continues(r.table[j])
        invariant more && i == usedPages.Length ==> beyond != [] && Continues(beyond[0])
        invariant !more ==> !Overruns(r, start, beyond)
        decreases usedPages.Length - i
      {
        PutBack(i);
        i := i + 1;
        more := if i < usedPages.Length then usedPages[i].used && !usedPages[i].head else beyond != [] && beyond[0].used && !beyond[0].head;
      }
      over := more;
    }

    method PutBack(i: nat)
      requires Valid() && i < usedPages.Length && usedPages[i].used
      modifies this, freePages, usedPages
      ensures Valid() && View() == Push(old(View()), i)
    {
      ghost var r := View();
      StackHasRoom(r, i);
      PushKeeps(r, i);
      hide Good, OnStack, Stacked;
      freePages[freeCount] := base + PAGE * i;
      usedPages[i] := PageInfo(freeCount, false, false, 0);
      freeCount := freeCount + 1;
      assert freePages[..freeCount] == r.free + [PageAt(r, i)];
      assert usedPages[..] == r.table[i := PageInfo(|r.free|, false, false, 0)];
    }
  }

  class PhysicalRanges {
    const ranges: seq<PhysicalRange>

    ghost predicate Separate()
    {
      forall j, k :: 0 <= j < k < |ranges| ==>
        ranges[j] != ranges[k] && ranges[j].freePages != ranges[k].freePages && ranges[j].usedPages != ranges[k].usedPages
    }

    /** Every range as it stands. */
    ghost predicate Shows(v: seq<Range>)
      reads ranges, set r | r in ranges :: r.freePages, set r | r in ranges :: r.usedPages
    {
      |v| == |ranges| && forall j :: 0 <= j < |ranges| ==> ranges[j].Valid() && ranges[j].View() == v[j]
    }

    ghost function View(): (v: seq<Range>)
      reads ranges, set r | r in ranges :: r.freePages, set r | r in ranges :: r.usedPages
    {
      Views(ranges)
    }

    ghost predicate Valid()
      reads ranges, set r | r in ranges :: r.freePages, set r | r in ranges :: r.usedPages
    {
      Separate() && Shows(View()) && GoodMemory(View())
    }

    constructor (ranges: seq<PhysicalRange>)
      requires forall j, k :: 0 <= j < k < |ranges| ==>
        ranges[j] != ranges[k] && ranges[j].freePages != ranges[k].freePages && ranges[j].usedPages != ranges[k].usedPages
      requires (forall r :: r in ranges ==> r.Valid()) && GoodMemory(Views(ranges))
      ensures Valid() && this.ranges == ranges
    {
      this.ranges := ranges;
    }

    lemma ShowsView(v: seq<Range>)
      requires Shows(v)
      ensures View() == v
    {
      hide Good;
    }

    /** A round of the loop: range j gives up a page if it has one. */
    method TakeFrom(j: nat, rest: nat, before: nat, ghost v: seq<Range>) returns (page: nat)
      requires Separate() && Shows(v) && j < |ranges|
      modifies ranges[j], ranges[j].usedPages
      ensures Shows(v[j := Pop(v[j], rest)]) && page == if v[j].free != [] then Top(v[j]) else before
    {
      hide Good;
      assert ranges[j].View() == v[j];
      page := before;
      if ranges[j].freeCount > 0 {
        hide Pop;
        page := ranges[j].Take(rest);
        forall k | 0 <= k < |ranges| && k != j ensures ranges[k].Valid() && ranges[k].View() == v[k] {
          assert j < k || k < j;
        }
      } else {
        assert v[j := Pop(v[j], rest)] == v;
      }
    }

    /** A page, or null; every range that has any gives one up, and the last given up is returned. */
    method AllocPhysicalPage(rest: nat) returns (page: nat)
      requires Valid()
      modifies ranges, set r | r in ranges :: r.usedPages
      ensures Valid() && View() == PopAll(old(View()), rest) && page == Returned(old(View()))
    {
      ghost var v := View();
      PopAllKeeps(v, rest);
      hide GoodMemory, Pop, Returned, PopAll, Good, Popped;
      page := NULL_PAGE;
      EmptyReturned(v, rest);
      var j := 0;
      while j < |ranges|
        invariant j <= |ranges| && Shows(Popped(v, rest, j)) && page == Returned(v[..j])
      {
        ReturnedStep(v, j, rest);
        page := TakeFrom(j, rest, page, Popped(v, rest, j));
        j := j + 1;
      }
      AllPopped(v, rest);
      ShowsView(PopAll(v, rest));
    }

    /** A page given back; addresses that head no allocation are passed over. */
    method FreePhysicalPages(address: nat, beyond: seq<seq<PageInfo>>) returns (over: bool)
      requires Valid()
      modifies ranges, set r | r in ranges :: r.freePages, set r | r in ranges :: r.usedPages
      ensures Valid() && over == RunsOver(old(View()), address, beyond)
      ensures View() == FreePages(old(View()), address, if over then [] else beyond)
    {
      hide GoodMemory, Good, FreeFrom, FreePages, Views, Matches, RunsOver;
      ghost var v := View();
      FreeMeans(v, address, beyond);
      var page := address - address % PAGE;
      over := false;
      if page != NULL_PAGE {
        over := FreeInRanges(page, beyond, v);
        ShowsView(FreeFrom(v, page, 0, []));
      }
    }

    /** The loop over the ranges, left at the first that takes the page back. */
    method FreeInRanges(page: nat, beyond: seq<seq<PageInfo>>, ghost v: seq<Range>) returns (over: bool)
      requires Separate() && Shows(v) && GoodMemory(v) && page % PAGE == 0
      modifies ranges, set r | r in ranges :: r.freePages, set r | r in ranges :: r.usedPages
      ensures Shows(FreeFrom(v, page, 0, [])) && over == RunsOver(v, page, beyond)
    {
      hide GoodMemory, Good, FreeFrom, Matches, FreeRun, RunsOver, Overruns, PhysicalRange.View, PhysicalRange.Valid;
      var j, done := 0, false;
      over := false;
      while j < |ranges| && !done
        invariant j <= |ranges| && Shows(if done then FreeFrom(v, page, 0, []) else v)
        invariant !done ==> FreeFrom(v, page, 0, []) == FreeFrom(v, page, j, [])
        invariant !done ==> !over && forall k :: 0 <= k < j ==> !Matches(v[k], page)
        invariant done ==> over == RunsOver(v, page, beyond)
        decreases |ranges| - j
      {
        FreeFromStep(v, page, j);
        OverHere(v, page, j, beyond);
        done, over := GiveBack(j, page, Past(beyond, j), v);
        j := j + 1;
      }
      FreeFromEnd(v, page, j);
      if !done { NoneRunsOver(v, page, beyond); }
    }

    /** A round of the loop: range j takes the page back if it heads an allocation there. */
    method GiveBack(j: nat, page: nat, beyond: seq<PageInfo>, ghost v: seq<Range>) returns (done: bool, over: bool)
      requires Separate() && Shows(v) && j < |ranges| && page % PAGE == 0
      modifies ranges[j], ranges[j].freePages, ranges[j].usedPages
      ensures done == Matches(v[j], page)
      ensures Shows(if done then v[j := FreeRun(v[j], IndexOf(v[j], page), [])] else v)
      ensures over == (done && Overruns(v[j], IndexOf(v[j], page), beyond))
    {
      var r := ranges[j];
      assert r.View() == v[j];
      MatchMeans(v[j], page);
      hide Good, FreeRun, Matches, Overruns;
      done, over := false, false;
      if page >= r.base {
        var i := (page - r.base) / PAGE;
        if i < r.usedPages.Length && r.usedPages[i].used && r.usedPages[i].head {
          over := r.Release(i, beyond);
          done := true;
          forall k | 0 <= k < |ranges| && k != j ensures ranges[k].Valid() && ranges[k].View() == v[k] {
            assert j < k || k < j;
          }
        }
      }
    }
  }

  /** The ranges when the loop is at range j. */
  ghost function Popped(v: seq<Range>, rest: nat, j: nat): seq<Range> {
    seq(|v|, (k: nat) => if k < |v| then if k < j then Pop(v[k], rest) else v[k] else Range(0, [], []))
  }

  ghost function Views(rs: seq<PhysicalRange>): (v: seq<Range>)
    reads rs, set r | r in rs :: r.freePages, set r | r in rs :: r.usedPages
    ensures |v| == |rs| && forall j :: 0 <= j < |rs| ==> v[j] == rs[j].View()
  {
    if rs == [] then [] else Views(rs[..|rs| - 1]) + [rs[|rs| - 1].View()]
  }

  lemma EmptyReturned(v: seq<Range>, rest: nat)
    ensures Returned(v[..0]) == NULL_PAGE && Popped(v, rest, 0) == v
  {
  }

  lemma AllPopped(v: seq<Range>, rest: nat)
    ensures Popped(v, rest, |v|) == PopAll(v, rest) && v[..|v|] == v
  {
  }

  lemma ReturnedStep(v: seq<Range>, j: nat, rest: nat)
    requires j < |v|
    ensures Returned(v[..j + 1]) == if v[j].free != [] then Top(v[j]) else Returned(v[..j])
    ensures |Popped(v, rest, j)| == |v| && Popped(v, rest, j)[j] == v[j]
    ensures Popped(v, rest, j + 1) == Popped(v, rest, j)[j := Pop(v[j], rest)]
  {
    assert v[..j + 1][..j] == v[..j];
    hide Pop, Returned;
  }

  lemma FreeFromStep(v: seq<Range>, page: nat, j: nat)
    requires j < |v|
    ensures FreeFrom(v, page, j, [])
         == if Matches(v[j], page) then v[j := FreeRun(v[j], IndexOf(v[j], page), [])] else FreeFrom(v, page, j + 1, [])
  {
  }

  lemma FreeFromEnd(v: seq<Range>, page: nat, j: nat)
    ensures j >= |v| ==> FreeFrom(v, page, j, []) == v
  {
  }

  /** The page is in one range, and it is that range's run that may go over. */
  lemma OverHere(v: seq<Range>, page: nat, j: nat, beyond: seq<seq<PageInfo>>)
    requires GoodMemory(v) && j < |v| && page % PAGE == 0
    ensures Matches(v[j], page) ==> (RunsOver(v, page, beyond) <==> Overruns(v[j], IndexOf(v[j], page), Past(beyond, j)))
  {
    if Matches(v[j], page) {
      forall k | 0 <= k < |v| && Matches(v[k], page) ensures k == j { RangesApart(v, j, k, page); }
    }
    hide GoodMemory, Matches, Overruns;
  }

  lemma NoneRunsOver(v: seq<Range>, page: nat, beyond: seq<seq<PageInfo>>)
    requires page % PAGE == 0 && forall k :: 0 <= k < |v| ==> !Matches(v[k], page)
    ensures !RunsOver(v, page, beyond)
  {
  }

  lemma NothingPast(v: seq<Range>, address: nat)
    ensures !RunsOver(v, address, [])
  {
  }

  /** The test the code makes. */
  lemma MatchMeans(r: Range, page: nat)
    requires Good(r) && page % PAGE == 0
    ensures Matches(r, page) <==> page >= r.base && IndexOf(r, page) < |r.table|
                                  && r.table[IndexOf(r, page)].used && r.table[IndexOf(r, page)].head
  {
  }

  lemma FreeMeans(v: seq<Range>, address: nat, beyond: seq<seq<PageInfo>>)
    requires GoodMemory(v)
    ensures var p := address - address % PAGE;
      && p % PAGE == 0 && GoodMemory(FreePages(v, address, []))
      && FreePages(v, address, []) == (if p == NULL_PAGE then v else FreeFrom(v, p, 0, []))
      && (RunsOver(v, address, beyond) <==> p != NULL_PAGE && RunsOver(v, p, beyond))
      && (!RunsOver(v, address, beyond) ==> FreePages(v, address, beyond) == FreePages(v, address, []))
  {
    NothingPast(v, address);
    FreeKeepsIff(v, address, []);
    if !RunsOver(v, address, beyond) { FreeInside(v, address, beyond); }
    var p := address - address % PAGE;
    forall j | 0 <= j < |v| && Matches(v[j], p) ensures p != NULL_PAGE { NotNull(v[j], p); }
    hide Good, Overlap, Matches, Overruns, FreeFrom;
  }
}
