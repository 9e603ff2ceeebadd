/**
  Whole runs of the physical page allocator (kernel/mem/mngr.c) as its callers see them: how often a page
  has been handed out and freed.
 */
module PhysicalRuns {
  import opened PhysicalPages

  ghost function Once(rs: seq<Range>, p: nat): int { if InUse(rs, p) then 1 else 0 }

  /** What an operation adds to the count of a page: one when it is handed out, minus one when it is freed. */
  ghost function Change(rs: seq<Range>, op: Op, p: nat): int {
    match op
    case Alloc(_) => if p != 0 && Returned(rs) == p then 1 else 0
    case Free(page, _) => if page - page % 4096 == p && InUse(rs, p) then -1 else 0
  }

  /** How many more times a page has been handed out than freed. */
  ghost function Given(rs: seq<Range>, ops: seq<Op>, p: nat): int {
    if ops == [] then 0
    else Given(rs, ops[..|ops| - 1], p) + Change(Run(rs, ops[..|ops| - 1]), ops[|ops| - 1], p)
  }

  /** Every allocation of the run finds free pages in one range at most. */
  predicate OneSupplies(rs: seq<Range>, ops: seq<Op>) {
    ops != [] ==>
      OneSupplies(rs, ops[..|ops| - 1]) && (ops[|ops| - 1].Alloc? ==> OneSupplier(Run(rs, ops[..|ops| - 1])))
  }

  lemma NullNotInUse(rs: seq<Range>)
    requires GoodMemory(rs)
    ensures !InUse(rs, 0)
  {
    hide Overlap, UsedIn, Good;
    if InUse(rs, 0) {
      var j :| 0 <= j < |rs| && UsedIn(rs[j], 0);
      NotNull(rs[j], 0);
    }
  }

  lemma PopHeads(rs: seq<Range>, rest: nat)
    requires AllHeads(rs)
    ensures AllHeads(PopAll(rs, rest))
  {
    var q := PopAll(rs, rest);
    forall j, i | 0 <= j < |q| && 0 <= i < |q[j].table| ensures q[j].table[i].used ==> q[j].table[i].head {
      assert rs[j].table[i].used ==> rs[j].table[i].head;
    }
  }

  lemma AllocChanges(rs: seq<Range>, rest: nat, p: nat)
    requires GoodMemory(rs) && AllHeads(rs)
    ensures var q := PopAll(rs, rest);
      && GoodMemory(q) && AllHeads(q)
      && Once(rs, p) + Change(rs, Alloc(rest), p) <= Once(q, p)
      && (OneSupplier(rs) ==> Once(rs, p) + Change(rs, Alloc(rest), p) == Once(q, p))
  {
    PopAllKeeps(rs, rest);
    PopHeads(rs, rest);
    hide GoodMemory, AllHeads, InUse, PopAll, OneSupplier;
    NullNotInUse(PopAll(rs, rest));
    AllocGivesFreePage(rs, rest);
    AllocLosesNothingIff(rs, rest);
  }

  lemma FreeChanges(rs: seq<Range>, page: nat, beyond: seq<seq<PageInfo>>, p: nat)
    requires GoodMemory(rs) && AllHeads(rs) && !RunsOver(rs, page, beyond)
    ensures var q := FreePages(rs, page, beyond);
      GoodMemory(q) && AllHeads(q) && Once(rs, p) + Change(rs, Free(page, beyond), p) == Once(q, p)
  {
    var base := page - page % 4096;
    FreeKeepsIff(rs, page, beyond);
    FreeInside(rs, page, beyond);
    Rounded(rs, page);
    hide GoodMemory, AllHeads, InUse, FreePages, RunsOver;
    if InUse(rs, base) { SinglePageFreed(rs, base); } else { FreeingFreePage(rs, page, beyond); }
  }

  lemma Rounded(rs: seq<Range>, page: nat)
    ensures FreePages(rs, page, []) == FreePages(rs, page - page % 4096, []) && (page - page % 4096) % 4096 == 0
  {
    hide FreeFrom;
  }

  /**
    Over any run that stays inside the tables a page is never handed out twice without having been freed in
    between; and what is in use is exactly what has been handed out, as long as one range at a time supplies.
   */
  lemma {:induction false} NoPageGivenTwice(rs: seq<Range>, ops: seq<Op>, p: nat)
    requires GoodMemory(rs) && AllHeads(rs) && Inside(rs, ops)
    ensures GoodMemory(Run(rs, ops)) && AllHeads(Run(rs, ops))
    ensures Once(rs, p) + Given(rs, ops, p) <= Once(Run(rs, ops), p)
    ensures OneSupplies(rs, ops) ==> Once(rs, p) + Given(rs, ops, p) == Once(Run(rs, ops), p)
    decreases |ops|
  {
    hide GoodMemory, AllHeads, InUse, PopAll, FreePages, RunsOver, Once, Change, OneSupplier;
    if ops != [] {
      NoPageGivenTwice(rs, ops[..|ops| - 1], p);
      var b := Run(rs, ops[..|ops| - 1]);
      match ops[|ops| - 1]
      case Alloc(rest) => AllocChanges(b, rest, p);
      case Free(page, beyond) => FreeChanges(b, page, beyond, p);
    }
  }
}
