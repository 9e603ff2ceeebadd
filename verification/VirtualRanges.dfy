/** The virtual range allocator of kernel/mem/mngr.c. */
module VirtualRanges {

  // One array holds the sorted free ranges followed by the sorted used ranges, and is edited in place
  // by shifting loops.  Part one gives the two operations on a pair of range lists; part two the
  // in-place code, proved to compute them; part three what the operations keep and undo over whole runs.

  const PAGE: nat := 0x1000

  /** Page numbers of a 32-bit address space. */
  const ADDRESS_PAGES: nat := 0x10_0000

  /** A run of pages; both fields count pages. */
  datatype Range = Range(start: nat, size: nat) {
    function End(): nat { start + size }
  }

  datatype Lists = Lists(free: seq<Range>, used: seq<Range>)

  // ------------------------------------------------------------------ well-formed lists

  ghost predicate Sized(s: seq<Range>) {
    forall i :: 0 <= i < |s| ==> 0 < s[i].start && 0 < s[i].size && s[i].End() <= ADDRESS_PAGES
  }

  /** Ascending, with at least gap pages between any two ranges. */
  ghost predicate Spaced(s: seq<Range>, gap: nat) {
    forall i, j :: 0 <= i < j < |s| ==> s[i].End() + gap <= s[j].start
  }

  /** Ascending, and no two ranges touch. */
  ghost predicate Coalesced(s: seq<Range>) { Spaced(s, 1) }

  /** Ascending, and no two ranges overlap. */
  ghost predicate Ascending(s: seq<Range>) { Spaced(s, 0) }

  ghost predicate Apart(s: seq<Range>, t: seq<Range>) {
    forall i, j :: 0 <= i < |s| && 0 <= j < |t| ==> s[i].End() <= t[j].start || t[j].End() <= s[i].start
  }

  ghost predicate WellFormed(l: Lists) {
    Sized(l.free) && Sized(l.used) && Coalesced(l.free) && Ascending(l.used) && Apart(l.free, l.used)
  }

  /** Some range of the list contains page p. */
  ghost predicate Covers(s: seq<Range>, p: nat) {
    exists i :: 0 <= i < |s| && s[i].start <= p < s[i].End()
  }

  ghost predicate SamePages(l: Lists, m: Lists) {
    forall p :: (Covers(l.free, p) || Covers(l.used, p)) <==> (Covers(m.free, p) || Covers(m.used, p))
  }

  function Total(s: seq<Range>): nat {
    if s == [] then 0 else Total(s[..|s| - 1]) + s[|s| - 1].size
  }

  function Managed(l: Lists): nat { Total(l.free) + Total(l.used) }

  // ------------------------------------------------------------------ the operations on lists

  function Remove(s: seq<Range>, i: nat): (r: seq<Range>)
    requires i < |s|
    ensures |r| == |s| - 1
  {
    s[..i] + s[i + 1..]
  }

  function Insert(s: seq<Range>, i: nat, r: Range): (t: seq<Range>)
    requires i <= |s|
    ensures |t| == |s| + 1
  {
    s[..i] + [r] + s[i..]
  }

  /** The first position at which the list starts at or above page p; its length if there is none. */
  function Above(s: seq<Range>, p: nat): (i: nat)
    ensures i <= |s|
  {
    if s == [] then 0 else if s[0].start >= p then 0 else Above(s[1..], p) + 1
  }

  /** The first range of at least n pages; the length of the list if there is none. */
  function FirstFit(s: seq<Range>, n: nat): (i: nat)
    ensures i <= |s| && (i < |s| ==> s[i].size >= n)
  {
    if s == [] then 0 else if s[0].size >= n then 0 else FirstFit(s[1..], n) + 1
  }

  /** Take n pages off the start of the first free range that has them. */
  function AllocLists(l: Lists, n: nat): Lists {
    var i := FirstFit(l.free, n);
    if i == |l.free| then l else TakeFrom(l, i, n)
  }

  function TakeFrom(l: Lists, i: nat, n: nat): Lists
    requires i < |l.free| && l.free[i].size >= n
  {
    TakeAt(l, i, Above(l.used, l.free[i].start), n)
  }

  function TakeAt(l: Lists, i: nat, k: nat, n: nat): Lists
    requires i < |l.free| && k <= |l.used| && l.free[i].size >= n
  {
    var f := l.free[i];
    Lists(if f.size > n then l.free[i := Range(f.start + n, f.size - n)] else Remove(l.free, i),
          Insert(l.used, k, Range(f.start, n)))
  }

  /**
    What the code does for the same request.  When the range found has exactly n pages, the code
    saves its size where it means its start and closes the gap one slot too far: the used range at
    the insertion point moves below a new range that starts at page n, or, with no used range there,
    the slot beyond the list moves in and the new range is written outside the list.
   */
  function AllocByCode(l: Lists, n: nat, beyond: Range): Lists {
    var i := FirstFit(l.free, n);
    if i == |l.free| then l else TakeFromByCode(l, i, n, beyond)
  }

  function TakeFromByCode(l: Lists, i: nat, n: nat, beyond: Range): Lists
    requires i < |l.free| && l.free[i].size >= n
  {
    if l.free[i].size > n then TakeFrom(l, i, n)
    else TakenWholeByCode(l, i, Above(l.used, l.free[i].start), beyond)
  }

  function TakenWholeByCode(l: Lists, i: nat, k: nat, beyond: Range): Lists
    requires i < |l.free| && k <= |l.used|
  {
    var n := l.free[i].size;
    Lists(Remove(l.free, i), if k < |l.used| then Insert(l.used, k + 1, Range(n, n)) else l.used + [beyond])
  }

  /** Bytes asked for, in pages, rounded up. */
  function PagesFor(size: nat): nat { if size % PAGE != 0 then size / PAGE + 1 else size / PAGE }

  /** Give the range starting at page p back, merged with the free ranges it touches. */
  function FreeLists(l: Lists, p: nat): Lists {
    var k, j := Above(l.used, p), Above(l.free, p + 1);
    if k == |l.used| || l.used[k].start != p || j == |l.free| then l
    else GivenBack(l, j, k)
  }

  function GivenBack(l: Lists, j: nat, k: nat): Lists
    requires j < |l.free| && k < |l.used|
  {
    Lists(GiveBack(l.free, j, l.used[k]), Remove(l.used, k))
  }

  /** A range on its way into a list, at position at, and the ranges it has not been merged with. */
  datatype Joining = Joining(rest: seq<Range>, at: nat, r: Range)

  function MergePrev(m: Joining): (m': Joining)
    requires m.at <= |m.rest|
    ensures m'.at <= |m'.rest|
  {
    if m.at > 0 && m.rest[m.at - 1].End() == m.r.start then
      Joining(Remove(m.rest, m.at - 1), m.at - 1, Range(m.rest[m.at - 1].start, m.rest[m.at - 1].size + m.r.size))
    else m
  }

  function MergeNext(m: Joining): (m': Joining)
    requires m.at <= |m.rest|
    ensures m'.at <= |m'.rest|
  {
    if m.at < |m.rest| && m.r.End() == m.rest[m.at].start then
      Joining(Remove(m.rest, m.at), m.at, Range(m.r.start, m.r.size + m.rest[m.at].size))
    else m
  }

  /** Give r back in front of position j: merge it with the range before, then with the range after. */
  function GiveBack(free: seq<Range>, j: nat, r: Range): seq<Range>
    requires j < |free|
  {
    var m := MergeNext(MergePrev(Joining(free, j, r)));
    Insert(m.rest, m.at, m.r)
  }

  // ------------------------------------------------------------------ the code

  /** The two lists held in the array, given the two counters. */
  function Parts(all: seq<Range>, freeCount: nat, rangeCount: nat): Lists
    requires freeCount <= rangeCount <= |all|
  {
    Lists(all[..freeCount], all[freeCount..rangeCount])
  }

  /** all[from..to] moved up one slot, over all[to]. */
  function ShiftedUp(all: seq<Range>, from: nat, to: nat): (r: seq<Range>)
    requires from <= to < |all|
    ensures |r| == |all|
  {
    seq(|all|, j requires 0 <= j < |all| => if from < j <= to then all[j - 1] else all[j])
  }

  /** all[from + gap..to + gap] moved down gap slots. */
  function ShiftedDown(all: seq<Range>, from: nat, to: nat, gap: nat): (r: seq<Range>)
    requires from <= to && to + gap <= |all|
    ensures |r| == |all|
  {
    seq(|all|, j requires 0 <= j < |all| => if from <= j < to then all[j + gap] else all[j])
  }

  class RangeList {
    var ranges: array<Range>
    var freeCount: nat
    var rangeCount: nat

    ghost predicate Valid()
      reads this, ranges
    {
      freeCount <= rangeCount < ranges.Length
    }

    ghost function Content(): Lists
      reads this, ranges
      requires Valid()
    {
      Parts(ranges[..], freeCount, rangeCount)
    }

    /** One managed free range in an array with room to spare. */
    constructor (capacity: nat, first: Range)
      requires capacity > 1
      ensures Valid() && fresh(ranges) && ranges.Length == capacity && Content() == Lists([first], [])
    {
      ranges := new Range[capacity](i => first);
      freeCount, rangeCount := 1, 1;
      new;
      assert ranges[..][..1] == [first];
    }

    method UsedRangeIndex(page: nat) returns (index: nat)
      requires Valid()
      ensures freeCount <= index <= rangeCount
      ensures index - freeCount == Above(Content().used, page)
    {
      index := freeCount;
      while index < rangeCount
        invariant freeCount <= index <= rangeCount
        invariant forall j :: freeCount <= j < index ==> ranges[j].start < page
      {
        if ranges[index].start >= page {
          AboveIs(Content().used, page, index - freeCount);
          return;
        }
        index := index + 1;
      }
      AboveIs(Content().used, page, index - freeCount);
    }

    /** The loop that moves ranges[from..to] up one slot. */
    method ShiftUp(from: nat, to: nat)
      requires from <= to < ranges.Length
      modifies ranges
      ensures ranges[..] == ShiftedUp(old(ranges[..]), from, to)
    {
      var i := to;
      while i > from
        invariant from <= i <= to
        invariant forall j :: 0 <= j <= i ==> ranges[j] == old(ranges[j])
        invariant forall j :: i < j <= to ==> ranges[j] == old(ranges[j - 1])
        invariant forall j :: to < j < ranges.Length ==> ranges[j] == old(ranges[j])
      {
        ranges[i] := ranges[i - 1];
        i := i - 1;
      }
    }

    /** The loop that moves ranges[from + gap..to + gap] down gap slots. */
    method ShiftDown(from: nat, to: nat, gap: nat)
      requires from <= to && 0 < gap && to + gap <= ranges.Length
      modifies ranges
      ensures ranges[..] == ShiftedDown(old(ranges[..]), from, to, gap)
    {
      var i := from;
      while i < to
        invariant from <= i <= to
        invariant forall j :: 0 <= j < from ==> ranges[j] == old(ranges[j])
        invariant forall j :: from <= j < i ==> ranges[j] == old(ranges[j + gap])
        invariant forall j :: i <= j < ranges.Length ==> ranges[j] == old(ranges[j])
      {
        ranges[i] := ranges[i + gap];
        i := i + 1;
      }
    }

    method RoundUp(size: nat) returns (n: nat)
      ensures n == PagesFor(size)
    {
      n := size / PAGE;
      if size % PAGE != 0 {
        n := n + 1;
      }
    }

    /** The allocator's search loop. */
    method FindFit(n: nat) returns (index: nat)
      requires Valid()
      ensures index == FirstFit(Content().free, n) <= freeCount
    {
      index := 0;
      while index < freeCount
        invariant 0 <= index <= freeCount
        invariant forall j :: 0 <= j < index ==> ranges[j].size < n
      {
        if ranges[index].size >= n {
          break;
        }
        index := index + 1;
      }
      FirstFitIs(Content().free, n, index);
    }

    /** The strict-fit branch: a new used range in front of slot used, the rest stays free. */
    method TakePart(index: nat, used: nat, n: nat)
      requires Valid() && rangeCount + 1 < ranges.Length
      requires index < freeCount <= used <= rangeCount && ranges[index].size > n
      modifies this`rangeCount, ranges
      ensures Valid()
      ensures var f, l := old(ranges[index]), old(Content());
        Content() == Lists(l.free[index := Range(f.start + n, f.size - n)],
                           Insert(l.used, used - freeCount, Range(f.start, n)))
    {
      hide ShiftedUp, ShiftedDown, Insert, Remove;
      var f := ranges[index];
      TakePartSplits(ranges[..], freeCount, rangeCount, index, used, Range(f.start, n), Range(f.start + n, f.size - n));
      ShiftUp(used, rangeCount);
      rangeCount := rangeCount + 1;
      ranges[used] := Range(f.start, n);
      ranges[index] := Range(f.start + n, f.size - n);
    }

    /** The exact-fit branch as the code has it. */
    method TakeWhole(index: nat, used: nat)
      requires Valid() && index < freeCount <= used <= rangeCount
      modifies this`freeCount, ranges
      ensures Valid()
      ensures Content() == TakenWholeByCode(old(Content()), index, used - old(freeCount), old(ranges[rangeCount]))
    {
      hide ShiftedUp, ShiftedDown, Insert, Remove;
      var n := ranges[index].size;
      TakeWholeSplits(ranges[..], freeCount, rangeCount, index, used, n);
      ShiftDown(index, used, 1);
      ranges[used] := Range(n, n);
      freeCount := freeCount - 1;
    }

    /** The exact-fit branch repaired: save the start, and close the gap up to the insertion point. */
    method TakeWholeRepaired(index: nat, used: nat)
      requires Valid() && index < freeCount <= used <= rangeCount
      modifies this`freeCount, ranges
      ensures Valid()
      ensures var f, l := old(ranges[index]), old(Content());
        Content() == Lists(Remove(l.free, index), Insert(l.used, used - old(freeCount), f))
    {
      hide ShiftedUp, ShiftedDown, Insert, Remove;
      var f := ranges[index];
      TakeWholeRepairedSplits(ranges[..], freeCount, rangeCount, index, used);
      ShiftDown(index, used - 1, 1);
      ranges[used - 1] := f;
      freeCount := freeCount - 1;
    }

    /** The allocator as the code has it. */
    method Alloc(size: nat) returns (memory: nat)
      requires Valid() && WellFormed(Content()) && Managed(Content()) + 1 < ranges.Length
      modifies this, ranges
      ensures ranges == old(ranges) && Valid()
      ensures Content() == AllocByCode(old(Content()), PagesFor(size), old(ranges[rangeCount]))
      ensures memory == Placed(old(Content()), PagesFor(size)) * PAGE
      ensures StartsAtRoom(old(Content()), Content(), memory, size) && HoldsRequest(old(Content()), Content(), memory, size, 4096)
    {
      CountBounded(Content());
      AllocByCodeInBytes(Content(), size, ranges[rangeCount]);
      hide WellFormed, Managed, FirstFit, TakeFrom, TakeFromByCode, PagesFor, StartsAtRoom, HoldsRequest;
      var n := RoundUp(size);
      memory := 0;
      var index := FindFit(n);
      if index < freeCount {
        memory := TakeByCode(index, n);
      }
    }

    method TakeByCode(index: nat, n: nat) returns (memory: nat)
      requires Valid() && index < freeCount && ranges[index].size >= n
      requires ranges[index].size > n ==> rangeCount + 1 < ranges.Length
      modifies this, ranges
      ensures ranges == old(ranges) && Valid()
      ensures memory == old(ranges[index]).start * PAGE
      ensures Content() == TakeFromByCode(old(Content()), index, n, old(ranges[rangeCount]))
    {
      memory := ranges[index].start * PAGE;
      PageOfAddress(ranges[index].start);
      var used := UsedRangeIndex(memory / PAGE);
      hide Above, TakeAt, TakenWholeByCode;
      PlaceAtByCode(index, used, n);
    }

    method PlaceAtByCode(index: nat, used: nat, n: nat)
      requires Valid() && index < freeCount <= used <= rangeCount && ranges[index].size >= n
      requires ranges[index].size > n ==> rangeCount + 1 < ranges.Length
      modifies this, ranges
      ensures ranges == old(ranges) && Valid()
      ensures var l := old(Content());
        Content() == if l.free[index].size > n then TakeAt(l, index, used - old(freeCount), n)
          else TakenWholeByCode(l, index, used - old(freeCount), old(ranges[rangeCount]))
    {
      hide Insert, Remove, TakenWholeByCode;
      if ranges[index].size > n {
        TakePart(index, used, n);
      } else {
        assert ranges[index] == Range(ranges[index].start, n);
        TakeWhole(index, used);
      }
    }

    /** The allocator with the exact-fit branch repaired. */
    method AllocRepaired(size: nat) returns (memory: nat)
      requires Valid() && WellFormed(Content()) && Managed(Content()) + 1 < ranges.Length
      modifies this, ranges
      ensures ranges == old(ranges) && Valid()
      ensures Content() == AllocLists(old(Content()), PagesFor(size))
      ensures memory == Placed(old(Content()), PagesFor(size)) * PAGE
      ensures StartsAtRoom(old(Content()), Content(), memory, size) && HoldsRequest(old(Content()), Content(), memory, size, 0)
    {
      CountBounded(Content());
      AllocInBytes(Content(), size);
      hide WellFormed, Managed, FirstFit, TakeFrom, TakeFromByCode, PagesFor, StartsAtRoom, HoldsRequest;
      var n := RoundUp(size);
      memory := 0;
      var index := FindFit(n);
      if index < freeCount {
        memory := Take(index, n);
      }
    }

    method Take(index: nat, n: nat) returns (memory: nat)
      requires Valid() && index < freeCount && ranges[index].size >= n
      requires ranges[index].size > n ==> rangeCount + 1 < ranges.Length
      modifies this, ranges
      ensures ranges == old(ranges) && Valid()
      ensures memory == old(ranges[index]).start * PAGE
      ensures Content() == TakeFrom(old(Content()), index, n)
    {
      memory := ranges[index].start * PAGE;
      PageOfAddress(ranges[index].start);
      var used := UsedRangeIndex(memory / PAGE);
      hide Above, TakeAt, TakenWholeByCode;
      PlaceAt(index, used, n);
    }

    method PlaceAt(index: nat, used: nat, n: nat)
      requires Valid() && index < freeCount <= used <= rangeCount && ranges[index].size >= n
      requires ranges[index].size > n ==> rangeCount + 1 < ranges.Length
      modifies this, ranges
      ensures ranges == old(ranges) && Valid()
      ensures var l := old(Content());
        Content() == TakeAt(l, index, used - old(freeCount), n)
    {
      hide Insert, Remove, TakenWholeByCode;
      if ranges[index].size > n {
        TakePart(index, used, n);
      } else {
        assert ranges[index] == Range(ranges[index].start, n);
        TakeWholeRepaired(index, used);
      }
    }

    /** Gives a range back; memory is the address its allocation returned. */
    method Free(memory: nat)
      requires Valid()
      modifies this, ranges
      ensures ranges == old(ranges) && Valid()
      ensures Content() == if memory == 0 then old(Content()) else FreeLists(old(Content()), memory / PAGE)
    {
      if memory != 0 {
        FreePage(memory / PAGE);
      }
    }

    method FreePage(page: nat)
      requires Valid()
      modifies this, ranges
      ensures ranges == old(ranges) && Valid()
      ensures Content() == FreeLists(old(Content()), page)
    {
      hide GivenBack, Above;
      var used := UsedRangeIndex(page);
      if used < rangeCount && ranges[used].start == page {
        var index := FindFreeAbove(page);
        if index < freeCount {
          GiveBackAt(index, used);
        }
      }
    }

    /** The search loop of Free. */
    method FindFreeAbove(page: nat) returns (index: nat)
      requires Valid()
      ensures index == Above(Content().free, page + 1) <= freeCount
    {
      index := 0;
      while index < freeCount
        invariant 0 <= index <= freeCount
        invariant forall j :: 0 <= j < index ==> ranges[j].start <= page
      {
        if ranges[index].start > page {
          break;
        }
        index := index + 1;
      }
      AboveIs(Content().free, page + 1, index);
    }

    /** The four merge cases. */
    method GiveBackAt(index: nat, used: nat)
      requires Valid() && index < freeCount <= used < rangeCount
      modifies this, ranges
      ensures ranges == old(ranges) && Valid()
      ensures Content() == GivenBack(old(Content()), index, used - old(freeCount))
    {
      hide ShiftedUp, ShiftedDown, GivenBack, Parts;
      GiveBackCases(ranges[..], freeCount, rangeCount, index, used);
      var r := ranges[used];
      if index > 0 && r.start == ranges[index - 1].End() {
        r := Range(ranges[index - 1].start, ranges[index - 1].size + r.size);
        ranges[index - 1] := r;
        if r.End() == ranges[index].start {
          ranges[index] := Range(r.start, ranges[index].size + r.size);
          ShiftDown(index - 1, used - 1, 1);
          freeCount := freeCount - 1;
          ShiftDown(used - 1, rangeCount - 2, 2);
          rangeCount := rangeCount - 2;
        } else {
          ShiftDown(used, rangeCount - 1, 1);
          rangeCount := rangeCount - 1;
        }
      } else if r.End() == ranges[index].start {
        ranges[index] := Range(r.start, ranges[index].size + r.size);
        ShiftDown(used, rangeCount - 1, 1);
        rangeCount := rangeCount - 1;
      } else {
        ShiftUp(index, used);
        ranges[index] := r;
        freeCount := freeCount + 1;
      }
    }
  }

  /** The four cases of giving a range back, as updates of the free list. */
  lemma GiveBackIs(free: seq<Range>, j: nat, r: Range)
    requires j < |free|
    ensures var touchesPrev := j > 0 && free[j - 1].End() == r.start;
      var touchesNext := r.End() == free[j].start;
      GiveBack(free, j, r) ==
        if touchesPrev && touchesNext then
          free[..j - 1] + [Range(free[j - 1].start, free[j - 1].size + r.size + free[j].size)] + free[j + 1..]
        else if touchesPrev then free[j - 1 := Range(free[j - 1].start, free[j - 1].size + r.size)]
        else if touchesNext then free[j := Range(r.start, r.size + free[j].size)]
        else Insert(free, j, r)
  {
    hide Insert, Remove;
    if j > 0 && free[j - 1].End() == r.start {
      InsertRemove(free, j - 1, Range(free[j - 1].start, free[j - 1].size + r.size));
      RemoveTwice(free, j, Range(free[j - 1].start, free[j - 1].size + r.size + free[j].size));
    } else {
      InsertRemove(free, j, Range(r.start, r.size + free[j].size));
    }
  }

  /** One range in place of two neighbours. */
  lemma RemoveTwice(s: seq<Range>, j: nat, r: Range)
    requires 0 < j < |s|
    ensures Remove(s, j - 1)[j - 1] == s[j]
    ensures Insert(Remove(Remove(s, j - 1), j - 1), j - 1, r) == s[..j - 1] + [r] + s[j + 1..]
  {
    assert Remove(Remove(s, j - 1), j - 1) == s[..j - 1] + s[j + 1..];
  }

  /** What each merge case leaves in the array, and that it is the range given back. */
  lemma GiveBackCases(all: seq<Range>, f: nat, r: nat, i: nat, u: nat)
    requires i < f <= u < r <= |all|
    ensures var x := all[u];
      var goal := GivenBack(Parts(all, f, r), i, u - f);
      if i > 0 && x.start == all[i - 1].End() then
        var y := Range(all[i - 1].start, all[i - 1].size + x.size);
        var b := all[i - 1 := y];
        if y.End() == all[i].start then
          var c := b[i := Range(y.start, all[i].size + y.size)];
          Parts(ShiftedDown(ShiftedDown(c, i - 1, u - 1, 1), u - 1, r - 2, 2), f - 1, r - 2) == goal
        else
          Parts(ShiftedDown(b, u, r - 1, 1), f, r - 1) == goal
      else if x.End() == all[i].start then
        Parts(ShiftedDown(all[i := Range(x.start, all[i].size + x.size)], u, r - 1, 1), f, r - 1) == goal
      else
        Parts(ShiftedUp(all, i, u)[i := x], f + 1, r) == goal
  {
    hide ShiftedDown, ShiftedUp, GiveBack, Insert, Remove;
    var x := all[u];
    GiveBackIs(all[..f], i, x);
    if i > 0 && x.start == all[i - 1].End() {
      var y := Range(all[i - 1].start, all[i - 1].size + x.size);
      if y.End() == all[i].start {
        BothCase(all, f, r, i, u, y, Range(y.start, all[i].size + y.size));
      } else {
        MergeOneSplits(all[i - 1 := y], f, r, u);
        UpdateInFront(all, f, r, i - 1, y);
      }
    } else if x.End() == all[i].start {
      var y := Range(x.start, all[i].size + x.size);
      MergeOneSplits(all[i := y], f, r, u);
      UpdateInFront(all, f, r, i, y);
    } else {
      MergeNoneSplits(all, f, r, i, u, x);
    }
  }

  lemma UpdateInFront(all: seq<Range>, f: nat, r: nat, i: nat, y: Range)
    requires i < f <= r <= |all|
    ensures all[i := y][..f] == all[..f][i := y] && all[i := y][f..r] == all[f..r]
  {
  }

  lemma BothCase(all: seq<Range>, f: nat, r: nat, i: nat, u: nat, y: Range, z: Range)
    requires 0 < i < f <= u < r <= |all|
    ensures Parts(ShiftedDown(ShiftedDown(all[i - 1 := y][i := z], i - 1, u - 1, 1), u - 1, r - 2, 2), f - 1, r - 2)
         == Lists(all[..f][..i - 1] + [z] + all[..f][i + 1..], Remove(all[f..r], u - f))
  {
    var c := all[i - 1 := y][i := z];
    MergeBothSplits(c, f, r, i, u);
    assert c[f..r] == all[f..r];
    hide ShiftedDown;
    assert Remove(c[..f], i - 1) == all[..f][..i - 1] + [z] + all[..f][i + 1..];
  }

  /** The page the allocation starts at; 0 when nothing fits. */
  function Placed(l: Lists, n: nat): nat {
    var i := FirstFit(l.free, n);
    if i == |l.free| then 0 else l.free[i].start
  }

  // ------------------------------------------------------------------ what the shifting loops do to the two lists

  lemma PageOfAddress(page: nat)
    ensures (page * PAGE) / PAGE == page
  {
  }

  /** Two sequences that agree everywhere. */
  lemma Same(a: seq<Range>, b: seq<Range>)
    requires |a| == |b| && forall j :: 0 <= j < |a| ==> a[j] == b[j]
    ensures a == b
  {
  }

  /** Elements of a slice, one to either side of j. */
  lemma SliceAt(s: seq<Range>, lo: nat, hi: nat, j: nat)
    requires lo <= hi <= |s|
    ensures lo + j < hi ==> s[lo..hi][j] == s[lo + j]
    ensures lo + j + 1 < hi ==> s[lo..hi][j + 1] == s[lo + j + 1]
    ensures 0 < j && lo + j - 1 < hi ==> s[lo..hi][j - 1] == s[lo + j - 1]
  {
  }

  lemma InsertAt(s: seq<Range>, i: nat, r: Range, j: nat)
    requires i <= |s| && j <= |s|
    ensures Insert(s, i, r)[j] == if j < i then s[j] else if j == i then r else s[j - 1]
  {
  }

  lemma RemoveAt(s: seq<Range>, i: nat, j: nat)
    requires i < |s| && j < |s| - 1
    ensures Remove(s, i)[j] == if j < i then s[j] else s[j + 1]
  {
  }

  lemma TakePartSplits(all: seq<Range>, f: nat, r: nat, i: nat, u: nat, x: Range, y: Range)
    requires i < f <= u <= r && r + 1 < |all|
    ensures Parts(ShiftedUp(all, u, r)[u := x][i := y], f, r + 1)
         == Lists(all[..f][i := y], Insert(all[f..r], u - f, x))
  {
    var a := ShiftedUp(all, u, r)[u := x][i := y];
    assert a[..f] == all[..f][i := y];
    var p, q := a[f..r + 1], Insert(all[f..r], u - f, x);
    forall j | 0 <= j < |p| ensures p[j] == q[j] {
      InsertAt(all[f..r], u - f, x, j);
      SliceAt(all, f, r, j);
      SliceAt(a, f, r + 1, j);
    }
    hide Insert, ShiftedUp;
    Same(p, q);
  }

  lemma RemovedFromFree(all: seq<Range>, f: nat, i: nat, u: nat, v: Range, w: nat)
    requires i < f <= u + 1 && u < |all| && f - 1 <= w < |all|
    ensures ShiftedDown(all, i, u, 1)[w := v][..f - 1] == Remove(all[..f], i)
  {
    var p, q := ShiftedDown(all, i, u, 1)[w := v][..f - 1], Remove(all[..f], i);
    forall j | 0 <= j < |p| ensures p[j] == q[j] {
      RemoveAt(all[..f], i, j);
    }
    hide Remove, ShiftedDown;
    Same(p, q);
  }

  lemma TakeWholeSplits(all: seq<Range>, f: nat, r: nat, i: nat, u: nat, n: nat)
    requires i < f <= u <= r < |all| && n == all[i].size
    ensures Parts(ShiftedDown(all, i, u, 1)[u := Range(n, n)], f - 1, r)
         == TakenWholeByCode(Parts(all, f, r), i, u - f, all[r])
  {
    RemovedFromFree(all, f, i, u, Range(n, n), u);
    var a := ShiftedDown(all, i, u, 1)[u := Range(n, n)];
    var p, l := a[f - 1..r], all[f..r];
    var q := if u < r then Insert(l, u - f + 1, Range(n, n)) else l + [all[r]];
    forall j | 0 <= j < |p| ensures p[j] == q[j] {
      if u < r { InsertAt(l, u - f + 1, Range(n, n), j); }
      SliceAt(all, f, r, j);
      SliceAt(a, f - 1, r, j);
    }
    hide Insert, ShiftedDown, Remove;
    Same(p, q);
  }

  lemma TakeWholeRepairedSplits(all: seq<Range>, f: nat, r: nat, i: nat, u: nat)
    requires i < f <= u <= r < |all|
    ensures Parts(ShiftedDown(all, i, u - 1, 1)[u - 1 := all[i]], f - 1, r)
         == Lists(Remove(all[..f], i), Insert(all[f..r], u - f, all[i]))
  {
    RemovedFromFree(all, f, i, u - 1, all[i], u - 1);
    var a := ShiftedDown(all, i, u - 1, 1)[u - 1 := all[i]];
    var p, q := a[f - 1..r], Insert(all[f..r], u - f, all[i]);
    forall j | 0 <= j < |p| ensures p[j] == q[j] {
      InsertAt(all[f..r], u - f, all[i], j);
      SliceAt(all, f, r, j);
      SliceAt(a, f - 1, r, j);
    }
    hide Insert, ShiftedDown, Remove;
    Same(p, q);
  }

  lemma MergeBothSplits(all: seq<Range>, f: nat, r: nat, i: nat, u: nat)
    requires 0 < i < f <= u < r <= |all|
    ensures Parts(ShiftedDown(ShiftedDown(all, i - 1, u - 1, 1), u - 1, r - 2, 2), f - 1, r - 2)
         == Lists(Remove(all[..f], i - 1), Remove(all[f..r], u - f))
  {
    var b := ShiftedDown(all, i - 1, u - 1, 1);
    var a := ShiftedDown(b, u - 1, r - 2, 2);
    var p, q := a[..f - 1], Remove(all[..f], i - 1);
    forall j | 0 <= j < |p| ensures p[j] == q[j] {
      RemoveAt(all[..f], i - 1, j);
    }
    Same(p, q);
    var p', q' := a[f - 1..r - 2], Remove(all[f..r], u - f);
    forall j | 0 <= j < |p'| ensures p'[j] == q'[j] {
      RemoveAt(all[f..r], u - f, j);
      SliceAt(all, f, r, j);
      SliceAt(a, f - 1, r - 2, j);
    }
    hide Remove, ShiftedDown;
    Same(p', q');
  }

  lemma MergeOneSplits(all: seq<Range>, f: nat, r: nat, u: nat)
    requires f <= u < r <= |all|
    ensures Parts(ShiftedDown(all, u, r - 1, 1), f, r - 1) == Lists(all[..f], Remove(all[f..r], u - f))
  {
    var a := ShiftedDown(all, u, r - 1, 1);
    assert a[..f] == all[..f];
    var p, q := a[f..r - 1], Remove(all[f..r], u - f);
    forall j | 0 <= j < |p| ensures p[j] == q[j] {
      RemoveAt(all[f..r], u - f, j);
      SliceAt(all, f, r, j);
      SliceAt(a, f, r - 1, j);
    }
    hide Remove, ShiftedDown;
    Same(p, q);
  }

  lemma MergeNoneSplits(all: seq<Range>, f: nat, r: nat, i: nat, u: nat, x: Range)
    requires i < f <= u < r <= |all|
    ensures Parts(ShiftedUp(all, i, u)[i := x], f + 1, r) == Lists(Insert(all[..f], i, x), Remove(all[f..r], u - f))
  {
    var a := ShiftedUp(all, i, u)[i := x];
    var p, q := a[..f + 1], Insert(all[..f], i, x);
    forall j | 0 <= j < |p| ensures p[j] == q[j] {
      InsertAt(all[..f], i, x, j);
    }
    Same(p, q);
    var p', q' := a[f + 1..r], Remove(all[f..r], u - f);
    forall j | 0 <= j < |p'| ensures p'[j] == q'[j] {
      RemoveAt(all[f..r], u - f, j);
      SliceAt(all, f, r, j);
      SliceAt(a, f + 1, r, j);
    }
    hide Insert, Remove, ShiftedUp;
    Same(p', q');
  }

  /** Above is the one position with everything before it below p, and p or more at it. */
  lemma {:induction false} AboveIs(s: seq<Range>, p: nat, i: nat)
    requires i <= |s|
    ensures Above(s, p) == i <==> (forall j :: 0 <= j < i ==> s[j].start < p) && (i < |s| ==> s[i].start >= p)
  {
    if s != [] && s[0].start < p && i > 0 {
      AboveIs(s[1..], p, i - 1);
      assert forall j :: 1 <= j < i ==> s[j] == s[1..][j - 1];
    }
  }

  lemma {:induction false} FirstFitIs(s: seq<Range>, n: nat, i: nat)
    requires i <= |s|
    ensures FirstFit(s, n) == i <==> (forall j :: 0 <= j < i ==> s[j].size < n) && (i < |s| ==> s[i].size >= n)
  {
    if s != [] && s[0].size < n && i > 0 {
      FirstFitIs(s[1..], n, i - 1);
      assert forall j :: 1 <= j < i ==> s[j] == s[1..][j - 1];
    }
  }

  lemma {:induction false} TotalAtLeast(s: seq<Range>)
    requires Sized(s)
    ensures |s| <= Total(s)
  {
    if s != [] { TotalAtLeast(s[..|s| - 1]); }
  }

  /** There are never more ranges than managed pages. */
  lemma CountBounded(l: Lists)
    requires WellFormed(l)
    ensures |l.free| + |l.used| <= Managed(l)
  {
    TotalAtLeast(l.free);
    TotalAtLeast(l.used);
  }

  // ------------------------------------------------------------------ lists with one range in or out

  predicate In(r: Range, p: nat) { r.start <= p < r.End() }

  lemma InsertRemove(s: seq<Range>, i: nat, r: Range)
    requires i < |s|
    ensures s[i := r] == Insert(Remove(s, i), i, r)
    ensures Insert(Remove(s, i), i, s[i]) == s
  {
  }

  lemma CoversInsert(s: seq<Range>, i: nat, r: Range, p: nat)
    requires i <= |s|
    ensures Covers(Insert(s, i, r), p) <==> Covers(s, p) || In(r, p)
  {
    var t := Insert(s, i, r);
    assert t[i] == r;
    if Covers(s, p) {
      var k :| 0 <= k < |s| && s[k].start <= p < s[k].End();
      assert t[if k < i then k else k + 1] == s[k];
    }
    if Covers(t, p) {
      var k :| 0 <= k < |t| && t[k].start <= p < t[k].End();
      assert k != i ==> s[if k < i then k else k - 1] == t[k];
    }
  }

  lemma CoversUpdate(s: seq<Range>, i: nat, r: Range, p: nat)
    requires i < |s|
    ensures Covers(s, p) <==> Covers(Remove(s, i), p) || In(s[i], p)
    ensures Covers(s[i := r], p) <==> Covers(Remove(s, i), p) || In(r, p)
  {
    InsertRemove(s, i, r);
    CoversInsert(Remove(s, i), i, r, p);
    CoversInsert(Remove(s, i), i, s[i], p);
  }

  lemma {:induction false} TotalInsert(s: seq<Range>, i: nat, r: Range)
    requires i <= |s|
    ensures Total(Insert(s, i, r)) == Total(s) + r.size
    decreases |s|
  {
    var t := Insert(s, i, r);
    if i == |s| {
      assert t[..|t| - 1] == s;
    } else {
      assert t[..|t| - 1] == Insert(s[..|s| - 1], i, r);
      TotalInsert(s[..|s| - 1], i, r);
    }
  }

  lemma TotalUpdate(s: seq<Range>, i: nat, r: Range)
    requires i < |s|
    ensures Total(s) == Total(Remove(s, i)) + s[i].size
    ensures Total(s[i := r]) == Total(Remove(s, i)) + r.size
  {
    InsertRemove(s, i, r);
    TotalInsert(Remove(s, i), i, r);
    TotalInsert(Remove(s, i), i, s[i]);
  }

  ghost predicate Proper(r: Range) { 0 < r.start && 0 < r.size && r.End() <= ADDRESS_PAGES }

  /** A range that fits between two neighbours of a spaced list keeps it spaced. */
  lemma SpacedInsert(s: seq<Range>, i: nat, r: Range, gap: nat)
    requires Spaced(s, gap) && Sized(s) && i <= |s| && Proper(r)
    requires i > 0 ==> s[i - 1].End() + gap <= r.start
    requires i < |s| ==> r.End() + gap <= s[i].start
    ensures Spaced(Insert(s, i, r), gap) && Sized(Insert(s, i, r))
  {
    var t := Insert(s, i, r);
    forall a, b | 0 <= a < b < |t| ensures t[a].End() + gap <= t[b].start {
      var x, y := (if a < i then a else a - 1), (if b < i then b else b - 1);
      if a == i {
        assert t[b] == s[y];
        assert y == i || s[i].End() + gap <= s[y].start;
      } else if b == i {
        assert t[a] == s[x];
        assert x == i - 1 || s[x].End() + gap <= s[i - 1].start;
      } else {
        assert t[a] == s[x] && t[b] == s[y];
      }
    }
    SizedInsert(s, i, r);
  }

  lemma SizedInsert(s: seq<Range>, i: nat, r: Range)
    requires Sized(s) && i <= |s| && Proper(r)
    ensures Sized(Insert(s, i, r))
  {
  }

  lemma RemoveKeeps(s: seq<Range>, i: nat, gap: nat)
    requires Sized(s) && i < |s| && Spaced(s, gap)
    ensures Sized(Remove(s, i)) && Spaced(Remove(s, i), gap)
    ensures i > 0 ==> Remove(s, i)[i - 1] == s[i - 1]
    ensures i > 1 ==> Remove(s, i)[i - 2] == s[i - 2]
    ensures i + 1 < |s| ==> Remove(s, i)[i] == s[i + 1]
    ensures i + 2 < |s| ==> Remove(s, i)[i + 1] == s[i + 2]
  {
  }

  ghost predicate Clear(s: seq<Range>, r: Range) {
    forall i :: 0 <= i < |s| ==> s[i].End() <= r.start || r.End() <= s[i].start
  }

  lemma ApartInsert(s: seq<Range>, t: seq<Range>, i: nat, r: Range)
    requires Apart(s, t) && i <= |t| && Clear(s, r)
    ensures Apart(s, Insert(t, i, r))
  {
  }

  lemma ApartInsertFree(s: seq<Range>, t: seq<Range>, i: nat, r: Range)
    requires Apart(s, t) && i <= |s| && Clear(t, r)
    ensures Apart(Insert(s, i, r), t)
  {
  }

  lemma ApartRemove(s: seq<Range>, t: seq<Range>, i: nat)
    requires Apart(s, t)
    ensures i < |t| ==> Apart(s, Remove(t, i)) && Clear(s, t[i])
    ensures i < |s| ==> Apart(Remove(s, i), t) && Clear(t, s[i])
  {
  }

  lemma ClearOthers(s: seq<Range>, i: nat)
    requires Ascending(s) && i < |s|
    ensures Clear(Remove(s, i), s[i])
  {
  }

  // ------------------------------------------------------------------ allocating and freeing keep the lists well formed

  /** The free range is clear of the used ranges on both sides of its insertion point. */
  lemma FitsAbove(t: seq<Range>, r: Range, k: nat)
    requires Ascending(t) && Sized(t) && Clear(t, r) && Proper(r) && k == Above(t, r.start)
    ensures k > 0 ==> t[k - 1].End() <= r.start
    ensures k < |t| ==> r.End() <= t[k].start
  {
    AboveIs(t, r.start, k);
  }

  lemma AllocKeepsUsed(l: Lists, i: nat, n: nat)
    requires WellFormed(l) && i < |l.free| && l.free[i].size >= n > 0
    ensures Ascending(TakeFrom(l, i, n).used) && Sized(TakeFrom(l, i, n).used)
  {
    var f := l.free[i];
    ApartRemove(l.free, l.used, i);
    hide Spaced, Sized;
    var u := Above(l.used, f.start);
    FitsAbove(l.used, f, u);
    SpacedInsert(l.used, u, Range(f.start, n), 0);
  }

  lemma AllocKeepsFree(l: Lists, i: nat, n: nat)
    requires WellFormed(l) && i < |l.free| && l.free[i].size >= n > 0
    ensures Coalesced(TakeFrom(l, i, n).free) && Sized(TakeFrom(l, i, n).free)
  {
    hide Apart, Above, Insert;
    var f := l.free[i];
    if f.size == n {
      RemoveKeeps(l.free, i, 1);
    } else {
      SpacedReplace(l.free, i, Range(f.start + n, f.size - n));
    }
  }

  lemma SpacedReplace(s: seq<Range>, i: nat, r: Range)
    requires Coalesced(s) && Sized(s) && i < |s| && Proper(r) && s[i].start <= r.start && r.End() <= s[i].End()
    ensures Coalesced(s[i := r]) && Sized(s[i := r])
  {
  }

  lemma AllocKeepsApart(l: Lists, i: nat, n: nat)
    requires WellFormed(l) && i < |l.free| && l.free[i].size >= n > 0
    ensures var m := TakeFrom(l, i, n); Apart(m.free, m.used)
  {
    var f, gone := l.free[i], Remove(l.free, i);
    var r, rest := Range(f.start, n), Range(f.start + n, f.size - n);
    var u := Above(l.used, f.start);
    ApartRemove(l.free, l.used, i);
    ClearOthers(l.free, i);
    hide Spaced, Insert, Remove;
    assert Clear(gone, r) && Clear(l.used, rest);
    hide Clear, Apart;
    ApartInsert(gone, l.used, u, r);
    if f.size > n {
      InsertRemove(l.free, i, rest);
      ClearInsert(l.used, u, r, rest);
      ApartInsertFree(gone, Insert(l.used, u, r), i, rest);
    }
  }

  lemma ClearInsert(s: seq<Range>, i: nat, r: Range, q: Range)
    requires Clear(s, q) && i <= |s| && r.End() <= q.start
    ensures Clear(Insert(s, i, r), q)
  {
  }

  lemma AllocKeepsPages(l: Lists, i: nat, n: nat)
    requires i < |l.free| && l.free[i].size >= n
    ensures SamePages(l, TakeFrom(l, i, n)) && Managed(l) == Managed(TakeFrom(l, i, n))
  {
    var f := l.free[i];
    var r, rest := Range(f.start, n), Range(f.start + n, f.size - n);
    var u := Above(l.used, f.start);
    var m := TakeFrom(l, i, n);
    hide Covers, Insert, Remove;
    forall p: nat ensures (Covers(l.free, p) || Covers(l.used, p)) <==> (Covers(m.free, p) || Covers(m.used, p)) {
      CoversUpdate(l.free, i, rest, p);
      CoversInsert(l.used, u, r, p);
    }
    TotalUpdate(l.free, i, rest);
    TotalInsert(l.used, u, r);
  }

  lemma ClearJoin(t: seq<Range>, a: Range, b: Range)
    requires Sized(t) && Clear(t, a) && Clear(t, b) && a.End() == b.start && 0 < b.size
    ensures Clear(t, Range(a.start, a.size + b.size))
  {
  }

  /** A range that lies between its neighbours, at least gap pages from each. */
  ghost predicate Between(m: Joining, before: nat, after: nat) {
    && m.at <= |m.rest|
    && Coalesced(m.rest) && Sized(m.rest) && Proper(m.r)
    && (m.at > 0 ==> m.rest[m.at - 1].End() + before <= m.r.start)
    && (m.at < |m.rest| ==> m.r.End() + after <= m.rest[m.at].start)
  }

  lemma MergePrevBetween(m: Joining)
    requires Between(m, 0, 0)
    ensures Between(MergePrev(m), 1, 0)
  {
    if m.at > 0 && m.rest[m.at - 1].End() == m.r.start {
      assert m.at > 1 ==> m.rest[m.at - 2].End() + 1 <= m.rest[m.at - 1].start;
      RemoveKeeps(m.rest, m.at - 1, 1);
      hide Spaced, Remove;
    }
  }

  lemma MergeNextBetween(m: Joining)
    requires Between(m, 1, 0)
    ensures Between(MergeNext(m), 1, 1)
  {
    if m.at < |m.rest| && m.r.End() == m.rest[m.at].start {
      assert m.at + 1 < |m.rest| ==> m.rest[m.at].End() + 1 <= m.rest[m.at + 1].start;
      RemoveKeeps(m.rest, m.at, 1);
      hide Spaced, Remove;
    }
  }

  lemma GiveBackKeepsSpaced(free: seq<Range>, j: nat, r: Range)
    requires j < |free| && Between(Joining(free, j, r), 0, 0)
    ensures Coalesced(GiveBack(free, j, r)) && Sized(GiveBack(free, j, r))
  {
    hide Sized, Spaced, MergePrev, MergeNext, Insert;
    var m := Joining(free, j, r);
    MergePrevBetween(m);
    MergeNextBetween(MergePrev(m));
    var m' := MergeNext(MergePrev(m));
    SpacedInsert(m'.rest, m'.at, m'.r, 1);
  }

  /** Merging changes neither the pages covered, nor their number, nor what is clear of them. */
  lemma MergeKeepsCovers(m: Joining, p: nat)
    requires m.at <= |m.rest|
    ensures Covers(MergePrev(m).rest, p) || In(MergePrev(m).r, p) <==> Covers(m.rest, p) || In(m.r, p)
    ensures Covers(MergeNext(m).rest, p) || In(MergeNext(m).r, p) <==> Covers(m.rest, p) || In(m.r, p)
  {
    hide Covers, Remove;
    if m.at > 0 { CoversUpdate(m.rest, m.at - 1, m.r, p); }
    if m.at < |m.rest| { CoversUpdate(m.rest, m.at, m.r, p); }
  }

  lemma MergeKeepsTotal(m: Joining)
    requires m.at <= |m.rest|
    ensures Total(MergePrev(m).rest) + MergePrev(m).r.size == Total(m.rest) + m.r.size
    ensures Total(MergeNext(m).rest) + MergeNext(m).r.size == Total(m.rest) + m.r.size
  {
    hide Total, Remove;
    if m.at > 0 { TotalUpdate(m.rest, m.at - 1, m.r); }
    if m.at < |m.rest| { TotalUpdate(m.rest, m.at, m.r); }
  }

  lemma MergeKeepsApart(m: Joining, used: seq<Range>)
    requires m.at <= |m.rest| && Sized(m.rest) && Proper(m.r) && Sized(used) && Apart(m.rest, used) && Clear(used, m.r)
    ensures Apart(MergePrev(m).rest, used) && Clear(used, MergePrev(m).r)
    ensures Apart(MergeNext(m).rest, used) && Clear(used, MergeNext(m).r)
  {
    assert m.at < |m.rest| ==> m.rest[m.at].size > 0;
    hide Sized, Apart, Clear, Remove;
    if m.at > 0 && m.rest[m.at - 1].End() == m.r.start {
      ApartRemove(m.rest, used, m.at - 1);
      ClearJoin(used, m.rest[m.at - 1], m.r);
    }
    if m.at < |m.rest| && m.r.End() == m.rest[m.at].start {
      ApartRemove(m.rest, used, m.at);
      ClearJoin(used, m.r, m.rest[m.at]);
    }
  }

  lemma GiveBackCovers(free: seq<Range>, j: nat, r: Range, p: nat)
    requires j < |free|
    ensures Covers(GiveBack(free, j, r), p) <==> Covers(free, p) || In(r, p)
  {
    hide Covers, Insert, MergePrev, MergeNext, In;
    var m := Joining(free, j, r);
    MergeKeepsCovers(m, p);
    MergeKeepsCovers(MergePrev(m), p);
    var m' := MergeNext(MergePrev(m));
    CoversInsert(m'.rest, m'.at, m'.r, p);
  }

  lemma GiveBackTotal(free: seq<Range>, j: nat, r: Range)
    requires j < |free|
    ensures Total(GiveBack(free, j, r)) == Total(free) + r.size
  {
    hide Total, Insert, MergePrev, MergeNext;
    var m := Joining(free, j, r);
    MergeKeepsTotal(m);
    MergeKeepsTotal(MergePrev(m));
    var m' := MergeNext(MergePrev(m));
    TotalInsert(m'.rest, m'.at, m'.r);
  }

  lemma GiveBackApart(free: seq<Range>, used: seq<Range>, j: nat, r: Range)
    requires j < |free| && Between(Joining(free, j, r), 0, 0) && Sized(used) && Apart(free, used) && Clear(used, r)
    ensures Apart(GiveBack(free, j, r), used)
  {
    hide Sized, Spaced, Apart, Clear, Insert, MergePrev, MergeNext;
    var m := Joining(free, j, r);
    MergePrevBetween(m);
    MergeKeepsApart(m, used);
    MergeKeepsApart(MergePrev(m), used);
    var m' := MergeNext(MergePrev(m));
    ApartInsertFree(m'.rest, used, m'.at, m'.r);
  }

  lemma GivingBack(l: Lists, p: nat, j: nat, k: nat)
    requires WellFormed(l) && j == Above(l.free, p + 1) && k == Above(l.used, p)
    requires j < |l.free| && k < |l.used| && l.used[k].start == p
    ensures Between(Joining(l.free, j, l.used[k]), 0, 0)
    ensures Apart(l.free, Remove(l.used, k)) && Clear(Remove(l.used, k), l.used[k])
  {
    AboveIs(l.free, p + 1, j);
    ApartRemove(l.free, l.used, k);
    ClearOthers(l.used, k);
  }

  /** Free keeps the lists well formed and the managed pages the same. */
  lemma FreeKeeps(l: Lists, p: nat)
    requires WellFormed(l)
    ensures WellFormed(FreeLists(l, p)) && SamePages(l, FreeLists(l, p)) && Managed(FreeLists(l, p)) == Managed(l)
  {
    var j, k := Above(l.free, p + 1), Above(l.used, p);
    if j < |l.free| && k < |l.used| && l.used[k].start == p {
      var r, m := l.used[k], GivenBack(l, j, k);
      hide Spaced, Sized, Apart, Remove, GiveBack, Above, Total, Clear, Between, SamePages, Managed;
      GivingBack(l, p, j, k);
      RemoveKeeps(l.used, k, 0);
      GiveBackKeepsSpaced(l.free, j, r);
      GiveBackApart(l.free, m.used, j, r);
      GiveBackKeepsPages(l, j, k);
    }
  }

  lemma GiveBackKeepsPages(l: Lists, j: nat, k: nat)
    requires j < |l.free| && k < |l.used|
    ensures SamePages(l, GivenBack(l, j, k)) && Managed(GivenBack(l, j, k)) == Managed(l)
  {
    var r, m := l.used[k], GivenBack(l, j, k);
    hide Covers, Remove, GiveBack, Total;
    forall q: nat ensures (Covers(l.free, q) || Covers(l.used, q)) <==> (Covers(m.free, q) || Covers(m.used, q)) {
      GiveBackCovers(l.free, j, r, q);
      CoversUpdate(l.used, k, r, q);
    }
    GiveBackTotal(l.free, j, r);
    TotalUpdate(l.used, k, r);
  }

  /** Allocation as repaired keeps the lists well formed and the managed pages the same. */
  lemma AllocKeeps(l: Lists, n: nat)
    requires WellFormed(l) && n > 0
    ensures WellFormed(AllocLists(l, n)) && SamePages(l, AllocLists(l, n)) && Managed(AllocLists(l, n)) == Managed(l)
  {
    var i := FirstFit(l.free, n);
    hide TakeFrom, Spaced, Sized, Apart, Covers, FirstFit, Total;
    if i < |l.free| {
      AllocKeepsUsed(l, i, n);
      AllocKeepsFree(l, i, n);
      AllocKeepsApart(l, i, n);
      AllocKeepsPages(l, i, n);
    }
  }

  /** The pages an allocation hands out were free, and were in no live range. */
  lemma AllocatedPagesWereFree(l: Lists, n: nat, p: nat)
    requires WellFormed(l) && FirstFit(l.free, n) < |l.free|
    requires Placed(l, n) <= p < Placed(l, n) + n
    ensures Covers(l.free, p) && !Covers(l.used, p)
    ensures Covers(AllocLists(l, n).used, p)
  {
    var i := FirstFit(l.free, n);
    assert l.free[i].start <= p < l.free[i].End();
    var u := Above(l.used, l.free[i].start);
    CoversInsert(l.used, u, Range(l.free[i].start, n), p);
  }

  // ------------------------------------------------------------------ allocation in bytes

  /** The pages for a request hold it and less than a page more; a page is 4096 bytes. */
  lemma PagesHold(size: nat)
    ensures size <= PagesFor(size) * 4096 < size + 4096
  {
    assert size == size / PAGE * PAGE + size % PAGE;
  }

  /** The first range with room for so many bytes is at position i. */
  ghost predicate FirstRoom(free: seq<Range>, i: nat, size: nat) {
    i < |free| && size <= free[i].size * 4096 && forall j :: 0 <= j < i ==> free[j].size * 4096 < size
  }

  ghost predicate NoRoom(free: seq<Range>, size: nat) {
    forall j :: 0 <= j < |free| ==> free[j].size * 4096 < size
  }

  /** Some range starts at the address and holds so many bytes, and less than a page more. */
  ghost predicate Holds(used: seq<Range>, memory: nat, size: nat) {
    exists k :: 0 <= k < |used| && used[k].start * 4096 == memory && size <= used[k].size * 4096 < size + 4096
  }

  /** The first range with that many pages is the first with room for the bytes. */
  lemma RoomInPages(free: seq<Range>, size: nat)
    ensures var i := FirstFit(free, PagesFor(size));
      && (NoRoom(free, size) <==> i == |free|)
      && (forall j: nat :: FirstRoom(free, j, size) <==> j == i && i < |free|)
  {
    var i := FirstFit(free, PagesFor(size));
    PagesHold(size);
    FirstFitIs(free, PagesFor(size), i);
    hide FirstFit, PagesFor;
    if i < |free| { assert free[i].size * 4096 >= size; }
  }

  /** What is handed out starts where the first range with room starts; nothing happens when there is none. */
  ghost predicate StartsAtRoom(l: Lists, m: Lists, memory: nat, size: nat) {
    && (NoRoom(l.free, size) ==> memory == 0 && m == l)
    && (forall i: nat :: FirstRoom(l.free, i, size) ==> memory == l.free[i].start * 4096)
  }

  /** And a used range there holds the request, if the first range with room has so many bytes to spare. */
  ghost predicate HoldsRequest(l: Lists, m: Lists, memory: nat, size: nat, spare: nat) {
    forall i: nat :: FirstRoom(l.free, i, size) && size + spare <= l.free[i].size * 4096 ==> Holds(m.used, memory, size)
  }

  /** The repaired allocator always hands out what was asked for. */
  lemma AllocInBytes(l: Lists, size: nat)
    ensures var m, memory := AllocLists(l, PagesFor(size)), Placed(l, PagesFor(size)) * PAGE;
      StartsAtRoom(l, m, memory, size) && HoldsRequest(l, m, memory, size, 0)
  {
    var n := PagesFor(size);
    var i := FirstFit(l.free, n);
    RoomInPages(l.free, size);
    PagesHold(size);
    hide FirstFit, PagesFor, TakeFrom, Holds, FirstRoom, NoRoom;
    if i < |l.free| { TakenHolds(l, i, n, size); }
  }

  lemma TakenHolds(l: Lists, i: nat, n: nat, size: nat)
    requires i < |l.free| && l.free[i].size >= n && size <= n * 4096 < size + 4096
    ensures Holds(TakeFrom(l, i, n).used, l.free[i].start * 4096, size)
  {
    var f := l.free[i];
    var u := Above(l.used, f.start);
    InsertedAt(l.used, u, Range(f.start, n));
    hide Insert, Above;
    assert TakeFrom(l, i, n).used[u] == Range(f.start, n);
  }

  /** So does the code's, as long as the range is left with a page at least. */
  lemma AllocByCodeInBytes(l: Lists, size: nat, beyond: Range)
    ensures var m, memory := AllocByCode(l, PagesFor(size), beyond), Placed(l, PagesFor(size)) * PAGE;
      StartsAtRoom(l, m, memory, size) && HoldsRequest(l, m, memory, size, 4096)
  {
    var n := PagesFor(size);
    var i := FirstFit(l.free, n);
    RoomInPages(l.free, size);
    PagesHold(size);
    hide FirstFit, PagesFor, TakeFrom, TakenWholeByCode, Holds, FirstRoom, NoRoom;
    if i < |l.free| { TakenHolds(l, i, n, size); }
  }

  // ------------------------------------------------------------------ the free list is determined by the pages it covers

  lemma FirstStartCovered(s: seq<Range>, t: seq<Range>)
    requires Coalesced(s) && Sized(s) && s != [] && t != []
    requires Covers(s, t[0].start)
    ensures s[0].start <= t[0].start
  {
    var i :| 0 <= i < |s| && s[i].start <= t[0].start < s[i].End();
    assert i == 0 || s[0].End() + 1 <= s[i].start;
  }

  lemma FirstEndNotCovered(s: seq<Range>)
    requires Coalesced(s) && Sized(s) && s != []
    ensures !Covers(s, s[0].End())
  {
    forall i | 0 <= i < |s| ensures !(s[i].start <= s[0].End() < s[i].End()) {
      assert i == 0 || s[0].End() + 1 <= s[i].start;
    }
  }

  lemma CoversFirst(s: seq<Range>, p: nat)
    requires s != []
    ensures In(s[0], p) ==> Covers(s, p)
  {
  }

  lemma CoversSomething(s: seq<Range>)
    requires Sized(s)
    ensures s != [] ==> exists p: nat :: Covers(s, p)
  {
    if s != [] { CoversFirst(s, s[0].start); }
  }

  lemma CoversTail(s: seq<Range>, p: nat)
    requires Coalesced(s) && Sized(s) && s != []
    ensures Covers(s[1..], p) <==> Covers(s, p) && !In(s[0], p)
  {
    if Covers(s[1..], p) {
      var i :| 0 <= i < |s[1..]| && s[1..][i].start <= p < s[1..][i].End();
      assert s[i + 1] == s[1..][i];
      assert s[0].End() + 1 <= s[i + 1].start;
    }
    if Covers(s, p) && !In(s[0], p) {
      var i :| 0 <= i < |s| && s[i].start <= p < s[i].End();
      assert s[1..][i - 1] == s[i];
    }
  }

  /** Two coalesced lists that cover the same pages are the same list, entry for entry. */
  lemma {:induction false} Canonical(s: seq<Range>, t: seq<Range>)
    requires Coalesced(s) && Sized(s) && Coalesced(t) && Sized(t)
    requires forall p: nat :: Covers(s, p) <==> Covers(t, p)
    ensures s == t
    decreases |s|
  {
    if s == [] {
      CoversSomething(t);
    } else {
      CoversFirst(s, s[0].start);
      CoversSomething(s);
      CoversFirst(t, t[0].start);
      FirstStartCovered(s, t);
      FirstStartCovered(t, s);
      FirstEndNotCovered(s);
      FirstEndNotCovered(t);
      CoversFirst(t, s[0].End());
      CoversFirst(s, t[0].End());
      assert s[0] == t[0];
      forall p: nat ensures Covers(s[1..], p) <==> Covers(t[1..], p) {
        CoversTail(s, p);
        CoversTail(t, p);
      }
      TailKeeps(s);
      TailKeeps(t);
      hide Covers, Spaced, Sized;
      Canonical(s[1..], t[1..]);
      assert s == [s[0]] + s[1..] && t == [t[0]] + t[1..];
    }
  }

  lemma TailKeeps(s: seq<Range>)
    requires Coalesced(s) && Sized(s) && s != []
    ensures Coalesced(s[1..]) && Sized(s[1..])
  {
  }

  // ------------------------------------------------------------------ free undoes alloc

  /**
    Freeing what an allocation has just returned restores both lists, entry for entry, exactly when
    the allocation left part of its range free or another free range lies above it; with no free
    range above, the code cannot free it.
   */
  lemma FreeUndoesAlloc(l: Lists, n: nat)
    requires WellFormed(l) && n > 0 && FirstFit(l.free, n) < |l.free|
    ensures var i := FirstFit(l.free, n);
      FreeLists(AllocLists(l, n), Placed(l, n)) == l <==> l.free[i].size > n || i + 1 < |l.free|
  {
    var i := FirstFit(l.free, n);
    var f, m := l.free[i], TakeFrom(l, i, n);
    hide WellFormed, Above, FirstFit, GiveBack, Remove, Insert, TakeFrom, FreeLists;
    FreeAfterTake(l, i, n);
    assert AllocLists(l, n) == m;
    if f.size > n {
      PartRejoins(l, i, n);
      assert FreeLists(m, f.start) == l;
    } else if i + 1 < |l.free| {
      WholeRejoins(l, i);
      assert FreeLists(m, f.start) == l;
    } else {
      assert |m.free| != |l.free|;
    }
  }

  lemma FreeAfterTake(l: Lists, i: nat, n: nat)
    requires WellFormed(l) && n > 0 && i < |l.free| && l.free[i].size >= n
    ensures var f, m := l.free[i], TakeFrom(l, i, n);
      FreeLists(m, f.start) == if i < |m.free| then Lists(GiveBack(m.free, i, Range(f.start, n)), l.used) else m
    ensures |TakeFrom(l, i, n).free| == if l.free[i].size > n then |l.free| else |l.free| - 1
    ensures l.free[i].size == n ==> TakeFrom(l, i, n).free == Remove(l.free, i)
  {
    hide WellFormed, Above, GiveBack, Remove, Insert;
    AllocMarksUsed(l, i, n);
    AllocMarksFree(l, i, n);
  }

  /** Where Free finds the range just allocated. */
  lemma AllocMarksUsed(l: Lists, i: nat, n: nat)
    requires WellFormed(l) && i < |l.free| && l.free[i].size >= n
    ensures var f, used := l.free[i], TakeFrom(l, i, n).used;
      var u := Above(l.used, f.start);
      Above(used, f.start) == u < |used| && used[u] == Range(f.start, n) && Remove(used, u) == l.used
  {
    var f := l.free[i];
    var used, u := TakeFrom(l, i, n).used, Above(l.used, f.start);
    hide WellFormed, Remove;
    AboveIs(l.used, f.start, u);
    AboveIs(used, f.start, u);
    InsertedAt(l.used, u, Range(f.start, n));
  }

  lemma InsertedAt(s: seq<Range>, i: nat, r: Range)
    requires i <= |s|
    ensures Insert(s, i, r)[i] == r && Remove(Insert(s, i, r), i) == s
  {
  }

  /** Where Free finds the free range above it. */
  lemma AllocMarksFree(l: Lists, i: nat, n: nat)
    requires WellFormed(l) && n > 0 && i < |l.free| && l.free[i].size >= n
    ensures Above(TakeFrom(l, i, n).free, l.free[i].start + 1) == i
  {
    var free := TakeFrom(l, i, n).free;
    BelowIsBelow(l.free, i);
    hide WellFormed, Sized, Spaced, Apart, Insert;
    AboveIs(free, l.free[i].start + 1, i);
  }

  lemma BelowIsBelow(s: seq<Range>, i: nat)
    requires Coalesced(s) && Sized(s) && i < |s|
    ensures forall j :: 0 <= j < i ==> s[j].End() < s[i].start
    ensures i + 1 < |s| ==> s[i].End() < s[i + 1].start
  {
  }

  lemma PartRejoins(l: Lists, i: nat, n: nat)
    requires WellFormed(l) && n > 0 && i < |l.free| && l.free[i].size > n
    ensures GiveBack(TakeFrom(l, i, n).free, i, Range(l.free[i].start, n)) == l.free
  {
    var f, m := l.free[i], TakeFrom(l, i, n);
    BelowIsBelow(l.free, i);
    InsertRemove(m.free, i, f);
    hide Spaced, Sized, Apart, Above, Remove, Insert;
  }

  lemma WholeRejoins(l: Lists, i: nat)
    requires WellFormed(l) && i + 1 < |l.free|
    ensures GiveBack(Remove(l.free, i), i, l.free[i]) == l.free
  {
    var f, gone := l.free[i], Remove(l.free, i);
    BelowIsBelow(l.free, i);
    InsertRemove(l.free, i, f);
    assert gone[i] == l.free[i + 1] && (i > 0 ==> gone[i - 1] == l.free[i - 1]);
    hide Spaced, Sized, Apart, Above, Remove, Insert;
  }

  lemma StartIsAbove(l: Lists, p: nat, k: nat)
    requires WellFormed(l) && k < |l.used| && l.used[k].start == p
    ensures Above(l.used, p) == k
  {
    hide Apart, Above;
    assert forall j :: 0 <= j < k ==> l.used[j].start < p;
    AboveIs(l.used, p, k);
  }

  /** Free takes a range back exactly when a live range starts at that page and some free range starts above it. */
  lemma FreeActsIff(l: Lists, p: nat)
    requires WellFormed(l)
    ensures FreeLists(l, p) != l <==>
              && (exists k :: 0 <= k < |l.used| && l.used[k].start == p)
              && (exists j :: 0 <= j < |l.free| && l.free[j].start > p)
  {
    hide GiveBack, Apart, Remove, Above, Covers;
    AboveIs(l.free, p + 1, Above(l.free, p + 1));
    AboveIs(l.used, p, Above(l.used, p));
    if k :| 0 <= k < |l.used| && l.used[k].start == p { StartIsAbove(l, p, k); }
    hide WellFormed, Spaced, Sized;
  }

  // ------------------------------------------------------------------ when the code allocates as intended

  /**
    What a caller can check before the call: nothing fits; or the request is not empty and leaves
    part of the range it is cut from; or, an accident of a stale slot, the range found has exactly
    the pages asked for, no used range lies above it, and the slot beyond the list happens to hold
    that very range.
   */
  predicate AllocMeetsIntent(l: Lists, n: nat, beyond: Range) {
    var i := FirstFit(l.free, n);
    || i == |l.free|
    || (n > 0 && l.free[i].size > n)
    || (l.free[i].size == n && Above(l.used, l.free[i].start) == |l.used| && beyond == l.free[i])
  }

  /** An empty request breaks the lists: it leaves a used range of no pages. */
  lemma EmptyRequestBreaks(l: Lists, i: nat)
    requires i < |l.free|
    ensures !WellFormed(TakeFrom(l, i, 0))
  {
    var u := Above(l.used, l.free[i].start);
    InsertedAt(l.used, u, Range(l.free[i].start, 0));
    assert !Proper(TakeFrom(l, i, 0).used[u]);
  }

  /** With a used range above it, the range taken whole is lost. */
  lemma WholeWithUsedAboveBreaks(l: Lists, i: nat, beyond: Range)
    requires WellFormed(l) && i < |l.free| && Above(l.used, l.free[i].start) < |l.used|
    ensures var m := TakenWholeByCode(l, i, Above(l.used, l.free[i].start), beyond);
      !(WellFormed(m) && SamePages(l, m))
  {
    var f, k := l.free[i], Above(l.used, l.free[i].start);
    var m := TakenWholeByCode(l, i, k, beyond);
    AboveIs(l.used, f.start, k);
    CoversFirstOf(l.free, i);
    LostPage(l, i);
    CoversInsert(l.used, k + 1, Range(f.size, f.size), f.start);
    assert m.used[k] == l.used[k] && m.used[k + 1] == Range(f.size, f.size);
    hide Covers, Apart, Above;
  }

  lemma CoversFirstOf(s: seq<Range>, i: nat)
    requires i < |s| && s[i].size > 0
    ensures Covers(s, s[i].start)
  {
    assert s[i].start <= s[i].start < s[i].End();
  }

  /** Only the range itself covers its first page. */
  lemma LostPage(l: Lists, i: nat)
    requires WellFormed(l) && i < |l.free|
    ensures !Covers(Remove(l.free, i), l.free[i].start) && !Covers(l.used, l.free[i].start)
  {
    ClearOthers(l.free, i);
    ApartRemove(l.free, l.used, i);
  }

  /** With no used range above, the slot beyond the list takes the place of the range: right only if it holds it. */
  lemma WholeAtEndNeedsStaleSlot(l: Lists, i: nat, beyond: Range)
    requires WellFormed(l) && i < |l.free|
    ensures var m := Lists(Remove(l.free, i), l.used + [beyond]);
      WellFormed(m) && SamePages(l, m) ==> beyond == l.free[i]
  {
    var f, m := l.free[i], Lists(Remove(l.free, i), l.used + [beyond]);
    if WellFormed(m) && SamePages(l, m) {
      assert m.used == Insert(l.used, |l.used|, beyond);
      assert m.used[|l.used|] == beyond && Proper(beyond);
      ApartRemove(m.free, m.used, |l.used|);
      ClearOthers(m.used, |l.used|);
      assert Remove(m.used, |l.used|) == l.used;
      ApartRemove(l.free, l.used, i);
      ClearOthers(l.free, i);
      hide WellFormed, Spaced, Sized, Apart, Covers;
      forall p: nat ensures In(f, p) <==> In(beyond, p) {
        CoversUpdate(l.free, i, f, p);
        CoversInsert(l.used, |l.used|, beyond, p);
        NotCoveredWhenClear(Remove(l.free, i), f, p);
        NotCoveredWhenClear(l.used, f, p);
        NotCoveredWhenClear(Remove(l.free, i), beyond, p);
        NotCoveredWhenClear(l.used, beyond, p);
      }
      SamePagesSameRange(f, beyond);
    }
  }

  lemma NotCoveredWhenClear(s: seq<Range>, r: Range, p: nat)
    requires Clear(s, r)
    ensures In(r, p) ==> !Covers(s, p)
  {
  }

  lemma SamePagesSameRange(a: Range, b: Range)
    requires Proper(a) && Proper(b) && forall p: nat :: In(a, p) <==> In(b, p)
    ensures a == b
  {
    assert In(a, a.start) && In(a, a.End() - 1) && In(b, b.start) && In(b, b.End() - 1);
  }

  /**
    The code's allocation leaves well-formed lists of the same pages exactly in the cases a caller
    can check; in those with a request that is not empty it does what is intended.
   */
  lemma CodeAllocCorrectIff(l: Lists, n: nat, beyond: Range)
    requires WellFormed(l)
    ensures WellFormed(AllocByCode(l, n, beyond)) && SamePages(l, AllocByCode(l, n, beyond)) <==> AllocMeetsIntent(l, n, beyond)
    ensures AllocMeetsIntent(l, n, beyond) ==> AllocByCode(l, n, beyond) == AllocLists(l, n)
  {
    var i := FirstFit(l.free, n);
    hide SamePages, TakeFrom, Insert, Remove, Above, FirstFit;
    if i == |l.free| {
      assert SamePages(l, l) by { SamePagesReflexive(l); }
    } else if l.free[i].size > n {
      if n == 0 { EmptyRequestBreaks(l, i); } else { AllocKeeps(l, n); }
    } else {
      WholeCorrectIff(l, i, beyond);
      AllocKeeps(l, n);
    }
  }

  lemma SamePagesReflexive(l: Lists)
    ensures SamePages(l, l)
  {
  }

  lemma WholeCorrectIff(l: Lists, i: nat, beyond: Range)
    requires WellFormed(l) && i < |l.free| && 0 < l.free[i].size
    ensures var k := Above(l.used, l.free[i].start);
      var m := TakenWholeByCode(l, i, k, beyond);
      && (k == |l.used| && beyond == l.free[i] ==> m == TakeFrom(l, i, l.free[i].size))
      && (!(k == |l.used| && beyond == l.free[i]) ==> !(WellFormed(m) && SamePages(l, m)))
  {
    var k := Above(l.used, l.free[i].start);
    hide WellFormed, SamePages, Above;
    if k < |l.used| {
      WholeWithUsedAboveBreaks(l, i, beyond);
    } else {
      WholeAtEndNeedsStaleSlot(l, i, beyond);
      assert l.used + [beyond] == Insert(l.used, |l.used|, beyond);
    }
  }

  /** Two free ranges and a used one above them; asking for all of the first loses its four pages. */
  lemma ExactFitLosesPages()
    ensures var l := Lists([Range(1, 4), Range(10, 5)], [Range(20, 2)]);
      WellFormed(l) && forall beyond :: !(WellFormed(AllocByCode(l, 4, beyond)) && SamePages(l, AllocByCode(l, 4, beyond)))
  {
    var l := Lists([Range(1, 4), Range(10, 5)], [Range(20, 2)]);
    assert FirstFit(l.free, 4) == 0 && Above(l.used, 1) == 0;
    forall beyond ensures !(WellFormed(AllocByCode(l, 4, beyond)) && SamePages(l, AllocByCode(l, 4, beyond))) {
      CodeAllocCorrectIff(l, 4, beyond);
    }
  }

  // ------------------------------------------------------------------ whole runs

  datatype Request = AllocRequest(n: nat) | FreeRequest(page: nat)

  function Serve(l: Lists, r: Request): Lists {
    match r
    case AllocRequest(n) => AllocLists(l, n)
    case FreeRequest(p) => FreeLists(l, p)
  }

  function ServeAll(l: Lists, rs: seq<Request>): Lists
    decreases |rs|
  {
    if rs == [] then l else ServeAll(Serve(l, rs[0]), rs[1..])
  }

  predicate NoEmptyRequest(rs: seq<Request>) {
    forall r :: r in rs ==> r.AllocRequest? ==> r.n > 0
  }

  /** Over any run: well-formed lists, always the same pages, and never more ranges than pages. */
  lemma {:induction false} RunKeeps(l: Lists, rs: seq<Request>)
    requires WellFormed(l) && NoEmptyRequest(rs)
    ensures var m := ServeAll(l, rs);
      WellFormed(m) && SamePages(l, m) && |m.free| + |m.used| <= Managed(m) == Managed(l)
    decreases |rs|
  {
    if rs == [] {
      SamePagesReflexive(l);
      CountBounded(l);
    } else {
      assert rs[0] in rs && NoEmptyRequest(rs[1..]);
      hide WellFormed, SamePages, Managed, AllocLists, FreeLists;
      match rs[0] {
        case AllocRequest(n) => AllocKeeps(l, n);
        case FreeRequest(p) => FreeKeeps(l, p);
      }
      RunKeeps(Serve(l, rs[0]), rs[1..]);
      SamePagesTransitive(l, Serve(l, rs[0]), ServeAll(l, rs));
    }
  }

  lemma SamePagesTransitive(l: Lists, m: Lists, n: Lists)
    requires SamePages(l, m) && SamePages(m, n)
    ensures SamePages(l, n)
  {
    hide Covers;
  }

  /** Any run from lists with nothing in use that ends with nothing in use ends in the very same lists. */
  lemma AllFreedRestores(l: Lists, rs: seq<Request>)
    requires WellFormed(l) && l.used == [] && NoEmptyRequest(rs) && ServeAll(l, rs).used == []
    ensures ServeAll(l, rs) == l
  {
    var m := ServeAll(l, rs);
    RunKeeps(l, rs);
    forall p: nat ensures Covers(l.free, p) <==> Covers(m.free, p) {
      assert !Covers(l.used, p) && !Covers(m.used, p);
    }
    Canonical(l.free, m.free);
  }

  // ------------------------------------------------------------------ whole runs of the code as it is

  /** A call, with what lies beyond the list when it is made. */
  datatype Call = AllocCall(n: nat, beyond: Range) | FreeCall(page: nat)

  function ServeByCode(l: Lists, c: Call): Lists {
    match c
    case AllocCall(n, beyond) => AllocByCode(l, n, beyond)
    case FreeCall(p) => FreeLists(l, p)
  }

  function RunByCode(l: Lists, cs: seq<Call>): Lists
    decreases |cs|
  {
    if cs == [] then l else RunByCode(ServeByCode(l, cs[0]), cs[1..])
  }

  /** The same calls, as requests. */
  function Requests(cs: seq<Call>): (rs: seq<Request>)
    ensures |rs| == |cs|
  {
    if cs == [] then []
    else [match cs[0] case AllocCall(n, _) => AllocRequest(n) case FreeCall(p) => FreeRequest(p)] + Requests(cs[1..])
  }

  /** Every allocation of the run meets its intent in the lists it finds. */
  predicate RunMeetsIntent(l: Lists, cs: seq<Call>)
    decreases |cs|
  {
    cs != [] ==>
      (cs[0].AllocCall? ==> AllocMeetsIntent(l, cs[0].n, cs[0].beyond)) && RunMeetsIntent(ServeByCode(l, cs[0]), cs[1..])
  }

  /** After every call of the run the lists are well formed and have the same pages. */
  ghost predicate StaysWellFormed(l: Lists, cs: seq<Call>)
    decreases |cs|
  {
    cs != [] ==>
      var m := ServeByCode(l, cs[0]);
      WellFormed(m) && SamePages(l, m) && StaysWellFormed(m, cs[1..])
  }

  lemma CallIff(l: Lists, c: Call)
    requires WellFormed(l)
    ensures var m := ServeByCode(l, c);
      && (WellFormed(m) && SamePages(l, m) <==> (c.AllocCall? ==> AllocMeetsIntent(l, c.n, c.beyond)))
      && ((c.AllocCall? ==> AllocMeetsIntent(l, c.n, c.beyond)) ==>
          m == match c case AllocCall(n, _) => AllocLists(l, n) case FreeCall(p) => FreeLists(l, p))
  {
    hide WellFormed, SamePages, AllocByCode, AllocLists, FreeLists, AllocMeetsIntent;
    match c
    case AllocCall(n, beyond) => CodeAllocCorrectIff(l, n, beyond);
    case FreeCall(p) => FreeKeeps(l, p);
  }

  /**
    A run of the code's own calls keeps the lists well formed, of the same pages, at every step exactly
    when each allocation meets its intent; and then it is a run of the repaired ones.
   */
  lemma {:induction false} CodeRunIff(l: Lists, cs: seq<Call>)
    requires WellFormed(l)
    ensures StaysWellFormed(l, cs) <==> RunMeetsIntent(l, cs)
    ensures RunMeetsIntent(l, cs) ==> RunByCode(l, cs) == ServeAll(l, Requests(cs))
    decreases |cs|
  {
    if cs != [] {
      hide WellFormed, SamePages, AllocByCode, AllocLists, FreeLists, AllocMeetsIntent, ServeByCode;
      CallIff(l, cs[0]);
      var m, rs := ServeByCode(l, cs[0]), Requests(cs);
      assert rs[1..] == Requests(cs[1..]);
      if WellFormed(m) { CodeRunIff(m, cs[1..]); }
    }
  }

  lemma {:induction false} CodeRunKeeps(l: Lists, cs: seq<Call>)
    requires WellFormed(l) && RunMeetsIntent(l, cs)
    ensures var m := RunByCode(l, cs); WellFormed(m) && SamePages(l, m) && |m.free| + |m.used| <= Managed(m)
    decreases |cs|
  {
    if cs == [] {
      SamePagesReflexive(l);
      CountBounded(l);
    } else {
      hide WellFormed, SamePages, AllocMeetsIntent, ServeByCode, Managed;
      CallIff(l, cs[0]);
      var m := ServeByCode(l, cs[0]);
      CodeRunKeeps(m, cs[1..]);
      SamePagesTransitive(l, m, RunByCode(l, cs));
    }
  }

  /** Such a run that begins and ends with nothing in use ends in the very lists it began with. */
  lemma CodeRunRestores(l: Lists, cs: seq<Call>)
    requires WellFormed(l) && l.used == [] && RunMeetsIntent(l, cs) && RunByCode(l, cs).used == []
    ensures RunByCode(l, cs) == l
  {
    var m := RunByCode(l, cs);
    CodeRunKeeps(l, cs);
    hide RunByCode, RunMeetsIntent;
    forall p: nat ensures Covers(l.free, p) <==> Covers(m.free, p) {
      assert !Covers(l.used, p) && !Covers(m.used, p);
    }
    Canonical(l.free, m.free);
  }
}
