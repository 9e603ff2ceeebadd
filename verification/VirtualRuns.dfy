/**
  Whole runs of the virtual range allocator (kernel/mem/mngr.c) as its callers see them: which pages they
  hold.  The exact-fit branch is the repaired one.
 */
module VirtualRuns {
  import opened VirtualRanges

  ghost function Once(l: Lists, p: nat): int { if Covers(l.used, p) then 1 else 0 }

  /** Page p is one of those an allocation of n pages hands out. */
  predicate HandsOut(l: Lists, n: nat, p: nat) {
    FirstFit(l.free, n) < |l.free| && Placed(l, n) <= p < Placed(l, n) + n
  }

  /** Page p is in the range that begins at page q and is in use, and there is a free range above it. */
  ghost predicate GivesUp(l: Lists, q: nat, p: nat) {
    && (exists k :: 0 <= k < |l.used| && l.used[k].start == q && In(l.used[k], p))
    && (exists j :: 0 <= j < |l.free| && l.free[j].start > q)
  }

  ghost function Change(l: Lists, r: Request, p: nat): int {
    match r
    case AllocRequest(n) => if HandsOut(l, n, p) then 1 else 0
    case FreeRequest(q) => if GivesUp(l, q, p) then -1 else 0
  }

  /** How many more times page p has been handed out than given back. */
  ghost function Given(l: Lists, rs: seq<Request>, p: nat): int
    decreases |rs|
  {
    if rs == [] then 0 else Change(l, rs[0], p) + Given(Serve(l, rs[0]), rs[1..], p)
  }

  lemma AllocChanges(l: Lists, n: nat, p: nat)
    requires WellFormed(l) && n > 0
    ensures Once(AllocLists(l, n), p) == Once(l, p) + Change(l, AllocRequest(n), p)
  {
    var i := FirstFit(l.free, n);
    if i < |l.free| {
      if HandsOut(l, n, p) { AllocatedPagesWereFree(l, n, p); }
      var u := Above(l.used, l.free[i].start);
      CoversInsert(l.used, u, Range(l.free[i].start, n), p);
    }
    hide WellFormed, Above, Insert;
  }

  lemma FreeChanges(l: Lists, q: nat, p: nat)
    requires WellFormed(l)
    ensures Once(FreeLists(l, q), p) == Once(l, p) + Change(l, FreeRequest(q), p)
  {
    FreeActsIff(l, q);
    var k := Above(l.used, q);
    AboveIs(l.used, q, k);
    AboveIs(l.free, q + 1, Above(l.free, q + 1));
    if FreeLists(l, q) != l {
      ClearOthers(l.used, k);
      CoversUpdate(l.used, k, l.used[k], p);
      NotCoveredWhenClear(Remove(l.used, k), l.used[k], p);
      forall j | 0 <= j < |l.used| && l.used[j].start == q ensures j == k { StartIsAbove(l, q, j); }
    }
    hide WellFormed, Above, GiveBack, Remove, Covers;
  }

  /**
    Over any run a page is in use exactly when it has been handed out once more than given back: no page is
    ever handed out twice without having been given back in between.
   */
  lemma {:induction false} NoPageGivenTwice(l: Lists, rs: seq<Request>, p: nat)
    requires WellFormed(l) && NoEmptyRequest(rs)
    ensures Once(ServeAll(l, rs), p) == Once(l, p) + Given(l, rs, p)
    decreases |rs|
  {
    hide WellFormed, AllocLists, FreeLists, Once, Change;
    if rs != [] {
      assert rs[0] in rs && NoEmptyRequest(rs[1..]);
      match rs[0] {
        case AllocRequest(n) => AllocChanges(l, n, p); AllocKeeps(l, n);
        case FreeRequest(q) => FreeChanges(l, q, p); FreeKeeps(l, q);
      }
      NoPageGivenTwice(Serve(l, rs[0]), rs[1..], p);
    }
  }
}
