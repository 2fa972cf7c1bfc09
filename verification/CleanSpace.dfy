/** What the loaders do to a clean address space: it stays clean outside the kernel's own slots, and new frames are all
    it gains. */
module CleanSpace {
  import opened Machine
  import opened PageTable
  import opened Spaces
  import opened UserSpace

  /** The page lies in a slot that holds the kernel's own entry. */
  predicate OnKernelSlot(phys: Phys, kernel: nat, pd: nat, page: nat) { KernelSlot(phys, kernel, pd, page / ENTRIES) }

  /** None of n pages from first on lies in such a slot. */
  ghost predicate SlotsFree(phys: Phys, kernel: nat, pd: nat, first: nat, n: nat) {
    forall q: nat | first <= q < first + n :: !OnKernelSlot(phys, kernel, pd, q)
  }

  /** What a step over free slots leaves: a clean space with the same kernel, and nothing owned that
      was in use before. */
  ghost predicate Tidied(kernel: nat, pd: nat, phys0: Phys, used0: set<nat>, phys: Phys, used: set<nat>) {
    && Clean(phys, used, kernel, pd)
    && (forall f :: IsKernel(phys, kernel, f) == IsKernel(phys0, kernel, f))
    && (forall q: nat :: OnKernelSlot(phys, kernel, pd, q) ==> OnKernelSlot(phys0, kernel, pd, q))
    && (forall f :: IsOwned(phys, kernel, pd, f) && f in used0 ==> IsOwned(phys0, kernel, pd, f))
  }

  /** A step over n pages keeps a clean space clean when none of them lies in a slot of the kernel's. */
  ghost predicate CleanStep(kernel: nat, pd: nat, phys0: Phys, used0: set<nat>, phys: Phys, used: set<nat>, first: nat,
      n: nat) {
    var step := Clean(phys0, used0, kernel, pd) && SlotsFree(phys0, kernel, pd, first, n) ==>
          Tidied(kernel, pd, phys0, used0, phys, used);
    step
  }

  lemma CleanStays(kernel: nat, pd: nat, phys: Phys, used: set<nat>, used': set<nat>, first: nat, n: nat)
    requires used <= used'
    ensures CleanStep(kernel, pd, phys, used, phys, used', first, n)
  {
    hide Clean, IsOwned, IsKernel, OnKernelSlot;
    if Clean(phys, used, kernel, pd) { CleanMore(phys, used, kernel, pd, used'); }
  }

  lemma TidiedThen(kernel: nat, pd: nat, a: Phys, ua: set<nat>, b: Phys, ub: set<nat>, c: Phys, uc: set<nat>)
    requires Tidied(kernel, pd, a, ua, b, ub) && Tidied(kernel, pd, b, ub, c, uc) && ua <= ub
    ensures Tidied(kernel, pd, a, ua, c, uc)
  {
    hide Clean, IsOwned, IsKernel, OnKernelSlot;
  }

  /** A step followed by one over some of the same pages. */
  lemma CleanThen(kernel: nat, pd: nat, a: Phys, ua: set<nat>, b: Phys, ub: set<nat>, c: Phys, uc: set<nat>, first: nat,
      n: nat, lo: nat, m: nat)
    requires CleanStep(kernel, pd, a, ua, b, ub, first, n) && CleanStep(kernel, pd, b, ub, c, uc, lo, m)
    requires ua <= ub && first <= lo && lo + m <= first + n
    ensures CleanStep(kernel, pd, a, ua, c, uc, first, n)
  {
    hide Clean, IsOwned, IsKernel, OnKernelSlot;
  }

  /** A write into a frame that is no structure of the space or the kernel. */
  lemma WriteClean(kernel: nat, pd: nat, phys: Phys, used: set<nat>, f: FrameNo, bytes: Bytes4K)
    requires Clean(phys, used, kernel, pd) && Unused(phys, pd, f) && !IsKernel(phys, kernel, f)
    ensures Tidied(kernel, pd, phys, used, phys[f := Data(bytes)], used)
  {
    hide Exclusive;
    var phys' := phys[f := Data(bytes)];
    forall i: nat ensures At(phys', pd, i) == At(phys, pd, i) && At(phys', kernel, i) == At(phys, kernel, i) {}
    forall i: nat, j: nat | i < ENTRIES && At(phys, pd, i).Present()
        ensures At(phys', At(phys, pd, i).frame, j) == At(phys, At(phys, pd, i).frame, j) {}
    SameEntries(kernel, pd, phys, used, phys');
  }

  /** Nothing but entries matters to a clean space. */
  lemma SameEntries(kernel: nat, pd: nat, phys: Phys, used: set<nat>, phys': Phys)
    requires Clean(phys, used, kernel, pd) && Space(phys', pd) && Space(phys', kernel)
    requires forall i: nat :: At(phys', pd, i) == At(phys, pd, i) && At(phys', kernel, i) == At(phys, kernel, i)
    requires forall i: nat, j: nat | i < ENTRIES
        && At(phys, pd, i).Present() :: At(phys', At(phys, pd, i).frame, j) == At(phys, At(phys, pd, i).frame, j)
    ensures Tidied(kernel, pd, phys, used, phys', used)
  {
    hide At, TableAt, Space;
    forall i: nat, j: nat | i < ENTRIES && j < ENTRIES
        ensures UserOnly(At(phys', pd, i), At(phys', At(phys', pd, i).frame, j)) {
      assert UserOnly(At(phys, pd, i), At(phys, At(phys, pd, i).frame, j));
    }
    forall i: nat | i < ENTRIES ensures SlotClean(phys', kernel, pd, i) { assert SlotClean(phys, kernel, pd, i); }
    SameOwned(kernel, pd, phys, phys');
    SameOwned(kernel, pd, phys', phys);
  }

  lemma SameOwned(kernel: nat, pd: nat, phys: Phys, phys': Phys)
    requires forall i: nat :: At(phys', pd, i) == At(phys, pd, i) && At(phys', kernel, i) == At(phys, kernel, i)
    requires forall i: nat, j: nat | i < ENTRIES
        && At(phys, pd, i).Present() :: At(phys', At(phys, pd, i).frame, j) == At(phys, At(phys, pd, i).frame, j)
    ensures forall i: nat, j: nat ::
          UserPage(phys', kernel, pd, i, j) ==>
            UserPage(phys, kernel, pd, i, j) && PageFrame(phys', pd, i, j) == PageFrame(phys, pd, i, j)
    ensures forall i: nat :: Private(phys', kernel, pd, i) ==> Private(phys, kernel, pd, i)
    ensures forall i: nat ::
          TableFrame(phys', pd, i) == TableFrame(phys, pd, i)
          && TableFrame(phys', kernel, i) == TableFrame(phys, kernel, i)
    ensures forall f :: IsOwned(phys', kernel, pd, f) ==> IsOwned(phys, kernel, pd, f)
    ensures forall f :: IsKernel(phys', kernel, f) ==> IsKernel(phys, kernel, f)
  {
    hide At;
    forall f | IsOwned(phys', kernel, pd, f) ensures IsOwned(phys, kernel, pd, f) {
      if f != pd {
        if i: nat :| Private(phys', kernel, pd, i) && f == TableFrame(phys', pd, i) {
          assert Private(phys, kernel, pd, i) && f == TableFrame(phys, pd, i);
        } else {
          var i: nat, j: nat :| UserPage(phys', kernel, pd, i, j) && f == PageFrame(phys', pd, i, j);
          assert UserPage(phys, kernel, pd, i, j) && f == PageFrame(phys, pd, i, j);
        }
      }
    }
    forall f | IsKernel(phys', kernel, f) ensures IsKernel(phys, kernel, f) {
      if f != kernel {
        var i: nat :| i < ENTRIES && At(phys', kernel, i).Present() && f == TableFrame(phys', kernel, i);
        assert At(phys, kernel, i).Present() && f == TableFrame(phys, kernel, i);
      }
    }
  }

  /** The loaders' map call, before the page is cleared. */
  lemma MapTidied(kernel: nat, pd: nat, phys: Phys, used: set<nat>, page: nat, f: FrameNo, pt: FrameNo)
    requires Clean(phys, used, kernel, pd) && FreshFrames(phys, used, pd, page, f, pt)
        && !OnKernelSlot(phys, kernel, pd, page)
    ensures Space(phys, pd) && PtOk(phys, pd, page, pt)
    ensures Tidied(kernel, pd, phys, used, MapIn(phys, pd, page, f, USER_RW, pt), Used1(phys, used, pd, page, f, pt))
  {
    hide Clean, MapIn, FreshPage, IsKernel, IsOwned, Private, Space;
    var used1 := used + {f as nat};
    CleanMore(phys, used, kernel, pd, used1);
    NewIsFresh(phys, used, kernel, pd, f);
    assert UserMap(phys, used1, kernel, pd, page, f, USER_RW, pt);
    MapClean(phys, used1, kernel, pd, page, f, USER_RW, pt, Used1(phys, used, pd, page, f, pt));
    CleanSpaces(phys, used, kernel, pd);
    MapKernelSame(phys, used1, kernel, pd, page, f, USER_RW, pt);
    var phys' := MapIn(phys, pd, page, f, USER_RW, pt);
    forall q: nat | OnKernelSlot(phys', kernel, pd, q) ensures OnKernelSlot(phys, kernel, pd, q) {
      NoNewSlot(kernel, pd, phys, used1, page, f, pt, q / ENTRIES);
    }
    forall g | IsOwned(phys', kernel, pd, g) && g in used ensures IsOwned(phys, kernel, pd, g) {
      MapOwned(phys, used1, kernel, pd, page, f, USER_RW, pt, g);
    }
  }

  lemma NoNewSlot(kernel: nat, pd: nat, phys: Phys, used: set<nat>, page: nat, f: FrameNo, pt: FrameNo, i: nat)
    requires Clean(phys, used, kernel, pd) && UserMap(phys, used, kernel, pd, page, f, USER_RW, pt)
        && PtOk(phys, pd, page, pt)
    requires KernelSlot(MapIn(phys, pd, page, f, USER_RW, pt), kernel, pd, i)
    ensures KernelSlot(phys, kernel, pd, i)
  {
    hide Clean, MapIn, FreshPage, IsKernel, At;
    CleanSpaces(phys, used, kernel, pd);
    MapKernelSame(phys, used, kernel, pd, page, f, USER_RW, pt);
    TableNotPd(phys, pd, page, pt);
    MapAt(phys, pd, page, f, USER_RW, pt, pd, i);
  }

  lemma MapCleanStep(kernel: nat, pd: nat, phys: Phys, used: set<nat>, page: nat, f: FrameNo, pt: FrameNo)
    requires Usable(phys, used, pd) && FreshFrames(phys, used, pd, page, f, pt)
    ensures Space(phys, pd) && PtOk(phys, pd, page, pt)
    ensures CleanStep(kernel, pd, phys, used, MapIn(phys, pd, page, f, USER_RW, pt), Used1(phys, used, pd, page, f, pt),
        page, 1)
  {
    hide Clean, MapIn, Tidied, Space, OnKernelSlot, At;
    FreshPt(phys, used, pd, page, f, pt);
    if Clean(phys, used, kernel, pd) && SlotsFree(phys, kernel, pd, page, 1) {
      assert !OnKernelSlot(phys, kernel, pd, page);
      MapTidied(kernel, pd, phys, used, page, f, pt);
    }
  }

  /** A write into a frame that was free when the step began. */
  lemma WriteStep(kernel: nat, pd: nat, phys0: Phys, used0: set<nat>, phys: Phys, used: set<nat>, first: nat, n: nat,
      f: FrameNo, bytes: Bytes4K)
    requires CleanStep(kernel, pd, phys0, used0, phys, used, first, n) && f !in used0 && used0 <= used
        && Unused(phys, pd, f)
    ensures CleanStep(kernel, pd, phys0, used0, phys[f := Data(bytes)], used, first, n)
  {
    hide Clean, IsOwned, OnKernelSlot, Unused, IsKernel;
    if Clean(phys0, used0, kernel, pd) && SlotsFree(phys0, kernel, pd, first, n) {
      CleanSpaces(phys0, used0, kernel, pd);
      NotKernels(phys0, used0, kernel, pd, f);
      WriteClean(kernel, pd, phys, used, f, bytes);
    }
  }

  /** One of the loaders' pages, cleared. */
  lemma AddCleanStep(kernel: nat, pd: nat, phys: Phys, used: set<nat>, page: nat, f: FrameNo, pt: FrameNo)
    requires Usable(phys, used, pd) && FreshFrames(phys, used, pd, page, f, pt)
    ensures Space(phys, pd) && PtOk(phys, pd, page, pt)
    ensures CleanStep(kernel, pd, phys, used, AddPage(phys, pd, page, f, pt), Used1(phys, used, pd, page, f, pt), page,
        1)
  {
    hide MapIn, CleanStep, Space, Unused, At;
    FreshPt(phys, used, pd, page, f, pt);
    MapCleanStep(kernel, pd, phys, used, page, f, pt);
    WriteStep(kernel, pd, phys, used, MapIn(phys, pd, page, f, USER_RW, pt), Used1(phys, used, pd, page, f, pt), page,
        1, f, Zeros(4096));
  }
}
