/** What mapping pages costs: a frame for each page, and one for each page table that is not there yet. */
module Budgets {
  import opened Machine
  import opened PageTable
  import opened Spaces

  /** The frames left, and the slots of a directory that have a page table. */
  datatype Budget = Budget(free: nat, tables: set<nat>)

  ghost function FreeFrames(total: nat, used: set<nat>): set<nat> { set f: nat | f < total && f !in used }

  ghost function Tables(phys: Phys, pd: nat): set<nat> { set i: nat | i < ENTRIES && At(phys, pd, i).Present() }

  ghost function Funds(total: nat, used: set<nat>, phys: Phys, pd: nat): Budget {
    Budget(|FreeFrames(total, used)|, Tables(phys, pd))
  }

  /** The slots that n pages from first on lie in. */
  function SlotsOf(first: nat, n: nat): set<nat> { set q: nat | first <= q < first + n :: q / ENTRIES }

  function Cost(b: Budget, first: nat, n: nat): nat { n + |SlotsOf(first, n) - b.tables| }

  predicate Affords(b: Budget, first: nat, n: nat) { Cost(b, first, n) <= b.free }

  function Spent(b: Budget, first: nat, n: nat): Budget
    requires Affords(b, first, n)
  {
    Budget(b.free - Cost(b, first, n), b.tables + SlotsOf(first, n))
  }

  lemma OneCost(b: Budget, page: nat)
    ensures SlotsOf(page, 1) == {page / ENTRIES} && Cost(b, page, 1) == if page / ENTRIES in b.tables then 1 else 2
  {
    assert SlotsOf(page, 1) == {page / ENTRIES} by { assert page / ENTRIES in SlotsOf(page, 1); }
    if page / ENTRIES in b.tables {
      assert SlotsOf(page, 1) - b.tables == {};
    } else {
      assert SlotsOf(page, 1) - b.tables == {page / ENTRIES};
    }
  }

  lemma NoCost(b: Budget, first: nat)
    ensures Cost(b, first, 0) == 0 && Affords(b, first, 0) && Spent(b, first, 0) == b
  {
    assert SlotsOf(first, 0) == {};
    assert SlotsOf(first, 0) - b.tables == {} && b.tables + SlotsOf(first, 0) == b.tables;
  }

  /** Page by page costs as much as all at once. */
  lemma CostSplits(b: Budget, first: nat, n: nat)
    requires 0 < n
    ensures SlotsOf(first, n) == SlotsOf(first, 1) + SlotsOf(first + 1, n - 1)
    ensures Cost(b, first, n) == Cost(b, first, 1) + Cost(Budget(0, b.tables + SlotsOf(first, 1)), first + 1, n - 1)
  {
    var s, one, rest := SlotsOf(first, n), SlotsOf(first, 1), SlotsOf(first + 1, n - 1);
    forall i | i in s ensures i in one + rest {
      var q: nat :| first <= q < first + n && i == q / ENTRIES;
      assert q == first ==> i in one;
      assert q != first ==> i in rest;
    }
    forall i | i in one ensures i in s {}
    forall i | i in rest ensures i in s {}
    assert s == one + rest;
    var x, y := one - b.tables, rest - (b.tables + one);
    assert s - b.tables == x + y && x !! y;
    assert |x + y| == |x| + |y|;
  }

  /** With i of n pages mapped, the rest is as affordable as all of it was, and ends in the same tables. */
  ghost predicate OnTrack(b0: Budget, first: nat, n: nat, b: Budget, i: nat) {
    && i <= n && b.free - Cost(b, first + i, n - i) == b0.free - Cost(b0, first, n)
    && b.tables + SlotsOf(first + i, n - i) == b0.tables + SlotsOf(first, n)
  }

  lemma TrackStarts(b: Budget, first: nat, n: nat)
    ensures OnTrack(b, first, n, b, 0)
  {
  }

  lemma TrackStep(b0: Budget, first: nat, n: nat, b: Budget, i: nat)
    requires OnTrack(b0, first, n, b, i) && i < n && Affords(b, first + i, 1)
    ensures OnTrack(b0, first, n, Spent(b, first + i, 1), i + 1)
  {
    hide SlotsOf;
    CostSplits(b, first + i, n - i);
  }

  lemma TrackFails(b0: Budget, first: nat, n: nat, b: Budget, i: nat)
    requires OnTrack(b0, first, n, b, i) && i < n && !Affords(b, first + i, 1)
    ensures !Affords(b0, first, n)
  {
    hide SlotsOf;
    CostSplits(b, first + i, n - i);
  }

  lemma TrackEnds(b0: Budget, first: nat, n: nat, b: Budget)
    requires OnTrack(b0, first, n, b, n)
    ensures Affords(b0, first, n) && b == Spent(b0, first, n)
  {
    NoCost(b, first + n);
    assert b.tables + SlotsOf(first + n, 0) == b.tables;
  }

  lemma OneFewer(total: nat, used: set<nat>, f: nat)
    requires f < total && f !in used
    ensures |FreeFrames(total, used)| == |FreeFrames(total, used + {f})| + 1
  {
    assert FreeFrames(total, used) == FreeFrames(total, used + {f}) + {f};
  }

  lemma NoneLeft(total: nat, used: set<nat>)
    ensures |FreeFrames(total, used)| == 0 <==> forall f: nat | f < total :: f in used
  {
    assert forall f: nat | f < total :: f in used || f in FreeFrames(total, used);
    if forall f: nat | f < total :: f in used { assert FreeFrames(total, used) == {}; }
  }

  /** Writing bytes to a frame that is no structure of the space changes no slot. */
  lemma TablesKept(phys: Phys, pd: nat, phys': Phys)
    requires forall i: nat | i < ENTRIES :: At(phys', pd, i) == At(phys, pd, i)
    ensures Tables(phys', pd) == Tables(phys, pd)
  {
  }

  /** Mapping a page gives its slot a table. */
  lemma TablesMapped(phys: Phys, pd: nat, page: nat, frame: FrameNo, flags: Flags, pt: FrameNo)
    requires Space(phys, pd) && page < FRAMES && PtOk(phys, pd, page, pt)
    ensures Tables(MapIn(phys, pd, page, frame, flags, pt), pd) == Tables(phys, pd) + {page / ENTRIES}
  {
    hide MapIn, At;
    TableNotPd(phys, pd, page, pt);
    forall i: nat | i < ENTRIES
      ensures i in Tables(MapIn(phys, pd, page, frame, flags, pt), pd) <==> i in Tables(phys, pd) + {page / ENTRIES}
    {
      MapAt(phys, pd, page, frame, flags, pt, pd, i);
    }
  }
}
