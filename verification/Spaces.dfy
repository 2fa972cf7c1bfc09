/** Who owns which frame: what destroying an address space gives back, and why none of it is the kernel's. */
module Spaces {
  import opened Machine
  import opened PageTable

  /** The directory and all its tables are frames in use. */
  ghost predicate Backed(phys: Phys, used: set<nat>, pd: nat) {
    pd in used && forall i: nat | i < ENTRIES && At(phys, pd, i).Present() :: At(phys, pd, i).frame in used
  }

  /** Frame 0 belongs to the kernel image: bytes, in use, and no structure of the space. */
  ghost predicate Low(phys: Phys, used: set<nat>, pd: nat) { 0 in used && phys[0].Data? && Unused(phys, pd, 0) }

  /** Pages a program can reach are frames in use, and none is frame 0. */
  ghost predicate PagesUsed(phys: Phys, used: set<nat>, pd: nat) {
    forall q: nat | q < FRAMES && Translate(phys, pd, q).Mapped? && Translate(phys, pd, q).user ::
      Translate(phys, pd, q).frame in used && Translate(phys, pd, q).frame != 0
  }

  lemma FreshUnused(phys: Phys, used: set<nat>, pd: nat, f: nat)
    requires Backed(phys, used, pd) && f !in used && f < FRAMES
    ensures Unused(phys, pd, f)
  {
  }

  /** The slots destroy looks into: present, for the user, and not simply the kernel's entry. */
  predicate Private(phys: Phys, kernel: nat, pd: nat, i: nat) {
    i < ENTRIES && At(phys, pd, i).Present() && At(phys, pd, i).User() && At(phys, pd, i) != At(phys, kernel, i)
  }

  /** A user page of a private slot. */
  ghost predicate UserPage(phys: Phys, kernel: nat, pd: nat, i: nat, j: nat) {
    && Private(phys, kernel, pd, i) && j < ENTRIES
    && At(phys, At(phys, pd, i).frame, j).Present() && At(phys, At(phys, pd, i).frame, j).User()
  }

  ghost function TableFrame(phys: Phys, pd: nat, i: nat): nat { At(phys, pd, i).frame }

  ghost function PageFrame(phys: Phys, pd: nat, i: nat, j: nat): nat { At(phys, At(phys, pd, i).frame, j).frame }

  ghost predicate IsOwned(phys: Phys, kernel: nat, pd: nat, f: nat) {
    || f == pd
    || (exists i: nat :: Private(phys, kernel, pd, i) && f == TableFrame(phys, pd, i))
    || (exists i: nat, j: nat :: UserPage(phys, kernel, pd, i, j) && f == PageFrame(phys, pd, i, j))
  }

  /** The kernel's directory and its tables. */
  ghost predicate IsKernel(phys: Phys, kernel: nat, f: nat) {
    f == kernel || exists i: nat :: i < ENTRIES && At(phys, kernel, i).Present() && f == TableFrame(phys, kernel, i)
  }

  /** The frames of a private slot, in the order destroy frees them: its user pages, then its table. */
  ghost function SlotFrames(phys: Phys, kernel: nat, pd: nat, i: nat): seq<nat> {
    if Private(phys, kernel, pd, i) then PagesUpTo(phys, kernel, pd, i, ENTRIES) + [TableFrame(phys, pd, i)] else []
  }

  ghost function PagesUpTo(phys: Phys, kernel: nat, pd: nat, i: nat, n: nat): seq<nat> {
    if n == 0 then []
    else PagesUpTo(phys, kernel, pd, i, n - 1) + if UserPage(phys, kernel, pd, i, n - 1)
        then [PageFrame(phys, pd, i, n - 1)] else []
  }

  ghost function SlotsUpTo(phys: Phys, kernel: nat, pd: nat, n: nat): seq<nat> {
    if n == 0 then [] else SlotsUpTo(phys, kernel, pd, n - 1) + SlotFrames(phys, kernel, pd, n - 1)
  }

  /** Everything destroy frees, in order. */
  ghost function FreeList(phys: Phys, kernel: nat, pd: nat): seq<nat> {
    SlotsUpTo(phys, kernel, pd, ENTRIES) + [pd]
  }

  lemma {:induction false} PagesHold(phys: Phys, kernel: nat, pd: nat, i: nat, n: nat, f: nat)
    requires n <= ENTRIES
    ensures f in PagesUpTo(phys, kernel, pd, i, n) <==>
          exists j: nat :: j < n && UserPage(phys, kernel, pd, i, j) && f == PageFrame(phys, pd, i, j)
  {
    hide UserPage, PageFrame;
    if n > 0 { PagesHold(phys, kernel, pd, i, n - 1, f); }
  }

  ghost predicate InSlot(phys: Phys, kernel: nat, pd: nat, i: nat, f: nat) {
    || (Private(phys, kernel, pd, i) && f == TableFrame(phys, pd, i))
    || exists j: nat :: UserPage(phys, kernel, pd, i, j) && f == PageFrame(phys, pd, i, j)
  }

  lemma SlotHolds(phys: Phys, kernel: nat, pd: nat, i: nat, f: nat)
    ensures f in SlotFrames(phys, kernel, pd, i) <==> InSlot(phys, kernel, pd, i, f)
  {
    hide TableFrame, PageFrame, At;
    if Private(phys, kernel, pd, i) { PagesHold(phys, kernel, pd, i, ENTRIES, f); }
  }

  lemma {:induction false} SlotsHold(phys: Phys, kernel: nat, pd: nat, n: nat, f: nat)
    requires n <= ENTRIES
    ensures f in SlotsUpTo(phys, kernel, pd, n) <==> exists i: nat :: i < n && InSlot(phys, kernel, pd, i, f)
  {
    hide InSlot, SlotFrames;
    if n > 0 {
      SlotsHold(phys, kernel, pd, n - 1, f);
      SlotHolds(phys, kernel, pd, n - 1, f);
    }
  }

  /** What destroy frees is the directory, the private tables, and their user pages, and nothing else. */
  lemma FreeListIsOwned(phys: Phys, kernel: nat, pd: nat, f: nat)
    ensures f in FreeList(phys, kernel, pd) <==> IsOwned(phys, kernel, pd, f)
  {
    hide SlotsUpTo, TableFrame, PageFrame, At;
    SlotsHold(phys, kernel, pd, ENTRIES, f);
    if IsOwned(phys, kernel, pd, f) && f != pd {
      if i: nat :| Private(phys, kernel, pd, i) && f == TableFrame(phys, pd, i) {
        assert InSlot(phys, kernel, pd, i, f);
      } else {
        var i: nat, j: nat :| UserPage(phys, kernel, pd, i, j) && f == PageFrame(phys, pd, i, j);
        assert InSlot(phys, kernel, pd, i, f);
      }
    }
  }

  ghost predicate HasTable(phys: Phys, pd: nat, k: nat) { k < ENTRIES && At(phys, pd, k).Present() }

  lemma PrivateHasTable(phys: Phys, kernel: nat, pd: nat, k: nat)
    requires Private(phys, kernel, pd, k)
    ensures HasTable(phys, pd, k)
  {
  }

  /** Every user page has a frame of its own, which is no table and not the directory. */
  ghost predicate Exclusive(phys: Phys, kernel: nat, pd: nat) {
    && (forall i: nat, j: nat | UserPage(phys, kernel, pd, i, j) :: PageFrame(phys, pd, i, j) != pd)
    && (forall i: nat, j: nat, k: nat | UserPage(phys, kernel, pd, i, j) && HasTable(phys, pd, k) ::
          PageFrame(phys, pd, i, j) != TableFrame(phys, pd, k))
    && (forall i: nat, j: nat, k: nat, l: nat | UserPage(phys, kernel, pd, i, j) && UserPage(phys, kernel, pd, k, l)
        && (i, j) != (k, l) ::
          PageFrame(phys, pd, i, j) != PageFrame(phys, pd, k, l))
  }

  ghost predicate Once(s: seq<nat>) { forall a, b :: 0 <= a < b < |s| ==> s[a] != s[b] }

  lemma OnceAppend(a: seq<nat>, b: seq<nat>)
    requires Once(a) && Once(b) && forall x :: x in a ==> x !in b
    ensures Once(a + b)
  {
    var s := a + b;
    forall i, j | 0 <= i < j < |s| ensures s[i] != s[j] {
      if i < |a| <= j { assert a[i] in a && b[j - |a|] in b; }
    }
  }

  lemma {:induction false} PagesOnce(phys: Phys, kernel: nat, pd: nat, i: nat, n: nat)
    requires Exclusive(phys, kernel, pd) && n <= ENTRIES
    ensures Once(PagesUpTo(phys, kernel, pd, i, n))
  {
    hide UserPage, PageFrame, TableFrame, Private;
    if n > 0 {
      PagesOnce(phys, kernel, pd, i, n - 1);
      if UserPage(phys, kernel, pd, i, n - 1) {
        PagesHold(phys, kernel, pd, i, n - 1, PageFrame(phys, pd, i, n - 1));
        OnceAppend(PagesUpTo(phys, kernel, pd, i, n - 1), [PageFrame(phys, pd, i, n - 1)]);
      }
    }
  }

  lemma SlotOnce(phys: Phys, kernel: nat, pd: nat, i: nat)
    requires Exclusive(phys, kernel, pd)
    ensures Once(SlotFrames(phys, kernel, pd, i))
  {
    hide UserPage, PageFrame, TableFrame, Private, PagesUpTo;
    if Private(phys, kernel, pd, i) {
      PrivateHasTable(phys, kernel, pd, i);
      PagesOnce(phys, kernel, pd, i, ENTRIES);
      PagesHold(phys, kernel, pd, i, ENTRIES, TableFrame(phys, pd, i));
      OnceAppend(PagesUpTo(phys, kernel, pd, i, ENTRIES), [TableFrame(phys, pd, i)]);
    }
  }

  /** Private slots have different tables. */
  lemma TablesApart(phys: Phys, kernel: nat, pd: nat, i: nat, k: nat)
    requires Space(phys, pd) && Private(phys, kernel, pd, i) && Private(phys, kernel, pd, k) && i != k
    ensures TableFrame(phys, pd, i) != TableFrame(phys, pd, k) && TableFrame(phys, pd, i) != pd
  {
  }

  lemma SlotsApart(phys: Phys, kernel: nat, pd: nat, i: nat, k: nat, f: nat)
    requires Space(phys, pd) && Exclusive(phys, kernel, pd) && i != k && InSlot(phys, kernel, pd, i, f)
    ensures !InSlot(phys, kernel, pd, k, f)
  {
    hide PageFrame, TableFrame, At, Space;
    if Private(phys, kernel, pd, i) && Private(phys, kernel, pd, k) { TablesApart(phys, kernel, pd, i, k); }
  }

  lemma {:induction false} SlotsOnce(phys: Phys, kernel: nat, pd: nat, n: nat)
    requires Space(phys, pd) && Exclusive(phys, kernel, pd) && n <= ENTRIES
    ensures Once(SlotsUpTo(phys, kernel, pd, n))
  {
    hide InSlot, SlotFrames, Space, Exclusive, Once;
    if n == 0 {
      NothingOnce();
    } else {
      SlotsOnce(phys, kernel, pd, n - 1);
      SlotOnce(phys, kernel, pd, n - 1);
      var done, slot := SlotsUpTo(phys, kernel, pd, n - 1), SlotFrames(phys, kernel, pd, n - 1);
      forall f | f in done ensures f !in slot {
        SlotsHold(phys, kernel, pd, n - 1, f);
        var i: nat :| i < n - 1 && InSlot(phys, kernel, pd, i, f);
        SlotHolds(phys, kernel, pd, n - 1, f);
        SlotsApart(phys, kernel, pd, i, n - 1, f);
      }
      OnceAppend(done, slot);
    }
  }

  lemma NothingOnce()
    ensures Once([])
  {
  }

  /** Destroy frees no frame twice. */
  lemma FreeListOnce(phys: Phys, kernel: nat, pd: nat)
    requires Space(phys, pd) && Exclusive(phys, kernel, pd)
    ensures Once(FreeList(phys, kernel, pd))
  {
    hide SlotsUpTo, PageFrame;
    SlotsOnce(phys, kernel, pd, ENTRIES);
    forall f | f in SlotsUpTo(phys, kernel, pd, ENTRIES) ensures f != pd {
      SlotsHold(phys, kernel, pd, ENTRIES, f);
      var i: nat :| i < ENTRIES && InSlot(phys, kernel, pd, i, f);
    }
    OnceAppend(SlotsUpTo(phys, kernel, pd, ENTRIES), [pd]);
  }

  /** A slot holds the kernel's entry, or for the user a table that is not one of the kernel's. */
  ghost predicate SlotClean(phys: Phys, kernel: nat, pd: nat, i: nat) {
    At(phys, pd, i).Present() && At(phys, pd, i) != At(phys, kernel, i) ==>
      At(phys, pd, i).User() && !IsKernel(phys, kernel, TableFrame(phys, pd, i))
  }

  /** The slot holds the kernel's own entry, which user code cannot use. */
  predicate KernelSlot(phys: Phys, kernel: nat, pd: nat, i: nat) {
    At(phys, pd, i).Present() && !At(phys, pd, i).User() && At(phys, pd, i) == At(phys, kernel, i)
  }

  /** What every address space made by create and filled with fresh user pages looks like. */
  ghost predicate Clean(phys: Phys, used: set<nat>, kernel: nat, pd: nat) {
    && Space(phys, kernel) && Space(phys, pd) && Backed(phys, used, kernel) && Backed(phys, used, pd)
        && !IsKernel(phys, kernel, pd)
    && UserClosed(phys, pd) && !IsKernel(phys, kernel, 0)
    && (forall i: nat | i < ENTRIES :: SlotClean(phys, kernel, pd, i))
    && (forall i: nat, j: nat | UserPage(phys, kernel, pd, i, j) ::
          PageFrame(phys, pd, i, j) in used && !IsKernel(phys, kernel, PageFrame(phys, pd, i, j)))
    && Exclusive(phys, kernel, pd)
  }

  /** Destroying such a space frees each of its frames once, all of them in use, none of them the kernel's. */
  lemma DestroySafe(phys: Phys, used: set<nat>, kernel: nat, pd: nat)
    requires Clean(phys, used, kernel, pd)
    ensures Once(FreeList(phys, kernel, pd))
    ensures forall f :: f in FreeList(phys, kernel, pd) ==> f in used && !IsKernel(phys, kernel, f)
  {
    hide FreeList, Space, At, TableFrame, PageFrame, Exclusive, IsKernel, Once;
    FreeListOnce(phys, kernel, pd);
    forall f | f in FreeList(phys, kernel, pd) ensures f in used && !IsKernel(phys, kernel, f) {
      FreeListIsOwned(phys, kernel, pd, f);
      if f != pd {
        if i: nat :| Private(phys, kernel, pd, i) && f == TableFrame(phys, pd, i) {
          assert SlotClean(phys, kernel, pd, i);
          TableUsed(phys, used, pd, i);
        }
      }
    }
  }

  lemma TableUsed(phys: Phys, used: set<nat>, pd: nat, i: nat)
    requires Backed(phys, used, pd) && i < ENTRIES && At(phys, pd, i).Present()
    ensures TableFrame(phys, pd, i) in used
  {
  }

  /** A new directory that holds the kernel's present entries and nothing else. */
  ghost predicate CopyOf(phys: Phys, kernel: nat, phys': Phys, pd: nat) {
    && pd < FRAMES && TableAt(phys', pd) && phys' == phys[pd := phys'[pd]]
    && forall i: nat | i < ENTRIES ::
          At(phys', pd, i) == if At(phys, kernel, i).Present() then At(phys, kernel, i) else ABSENT
  }

  lemma CreateClean(phys: Phys, used: set<nat>, kernel: nat, phys': Phys, pd: nat)
    requires Space(phys, kernel) && UserClosed(phys, kernel) && Backed(phys, used, kernel)
        && CopyOf(phys, kernel, phys', pd) && pd !in used && !IsKernel(phys, kernel, 0)
    ensures Clean(phys', used + {pd}, kernel, pd)
    ensures forall page: nat | page < FRAMES :: Translate(phys', pd, page) == Translate(phys, kernel, page)
  {
    forall g: nat, i: nat | g != pd ensures At(phys', g, i) == At(phys, g, i)
        && TableAt(phys', g) == TableAt(phys, g) {}
    forall i: nat | i < ENTRIES ensures SlotClean(phys', kernel, pd, i) && !Private(phys', kernel, pd, i) {}
    assert Space(phys', kernel) && Space(phys', pd);
    forall i: nat, j: nat | i < ENTRIES && j < ENTRIES
        ensures UserOnly(At(phys', pd, i), At(phys', At(phys', pd, i).frame, j)) {
      assert UserOnly(At(phys, kernel, i), At(phys, At(phys, kernel, i).frame, j));
    }
  }

  /** A frame taken from the allocator for a page: no structure and no page of the space, and not the kernel's. */
  ghost predicate FreshPage(phys: Phys, kernel: nat, pd: nat, f: nat) {
    && Unused(phys, pd, f) && !IsKernel(phys, kernel, f)
    && forall i: nat, j: nat | UserPage(phys, kernel, pd, i, j) :: PageFrame(phys, pd, i, j) != f
  }

  /** A frame not in use is such a page. */
  lemma NewIsFresh(phys: Phys, used: set<nat>, kernel: nat, pd: nat, f: nat)
    requires Clean(phys, used, kernel, pd) && f !in used && f < FRAMES
    ensures FreshPage(phys, kernel, pd, f)
  {
    hide Space, UserClosed, SlotClean, Exclusive, At;
  }

  lemma CleanMore(phys: Phys, used: set<nat>, kernel: nat, pd: nat, used': set<nat>)
    requires Clean(phys, used, kernel, pd) && used <= used'
    ensures Clean(phys, used', kernel, pd)
  {
    hide Space, UserClosed, SlotClean, Exclusive, At, IsKernel, UserPage, PageFrame;
  }

  /** The map call the loaders make: a fresh page for the user, with a fresh table where the slot needs one. */
  ghost predicate UserCall(phys: Phys, used: set<nat>, kernel: nat, pd: nat, page: nat, frame: FrameNo, flags: Flags,
      pt: FrameNo) {
    && page < FRAMES && flags.present && flags.user && frame in used
    && (At(phys, pd, page / ENTRIES).Present() || pt !in used) && FreshPage(phys, kernel, pd, frame)
  }

  /** Such a call in a slot that is not the kernel's own. */
  ghost predicate UserMap(phys: Phys, used: set<nat>, kernel: nat, pd: nat, page: nat, frame: FrameNo, flags: Flags,
      pt: FrameNo) {
    UserCall(phys, used, kernel, pd, page, frame, flags, pt) && !KernelSlot(phys, kernel, pd, page / ENTRIES)
  }

  /** Whatever table the call writes to, it is not the kernel's directory. */
  lemma TableNotKernel(phys: Phys, used: set<nat>, kernel: nat, pd: nat, page: nat, pt: FrameNo)
    requires Clean(phys, used, kernel, pd) && page < FRAMES && (At(phys, pd, page / ENTRIES).Present() || pt !in used)
    ensures TableFor(phys, pd, page, pt) != kernel
  {
    hide At, TableAt, Exclusive, UserClosed, UserPage, PageFrame;
    assert SlotClean(phys, kernel, pd, page / ENTRIES);
  }

  lemma MapKernelSame(phys: Phys, used: set<nat>, kernel: nat, pd: nat, page: nat, frame: FrameNo, flags: Flags,
      pt: FrameNo)
    requires Clean(phys, used, kernel, pd) && UserCall(phys, used, kernel, pd, page, frame, flags, pt)
    ensures PtOk(phys, pd, page, pt)
    ensures var phys' := MapIn(phys, pd, page, frame, flags, pt);
            && (forall i: nat :: At(phys', kernel, i) == At(phys, kernel, i)) && Space(phys', kernel)
            && forall f :: IsKernel(phys', kernel, f) == IsKernel(phys, kernel, f)
  {
    hide MapIn, At, TableAt, Exclusive, UserClosed, SlotClean;
    if !At(phys, pd, page / ENTRIES).Present() { FreshUnused(phys, used, pd, pt); }
    TableNotKernel(phys, used, kernel, pd, page, pt);
    var phys' := MapIn(phys, pd, page, frame, flags, pt);
    forall i: nat ensures At(phys', kernel, i) ==
        At(phys, kernel, i) { MapAt(phys, pd, page, frame, flags, pt, kernel, i); }
    forall g: nat ensures TableAt(phys, g) ==> TableAt(phys', g) { MapAt(phys, pd, page, frame, flags, pt, g, 0); }
  }

  /** Afterwards the space's user pages are those it had, except that the page mapped has the new frame. */
  lemma MapUserPage(phys: Phys, used: set<nat>, kernel: nat, pd: nat, page: nat, frame: FrameNo, flags: Flags,
      pt: FrameNo, i: nat, j: nat)
    requires Clean(phys, used, kernel, pd) && UserMap(phys, used, kernel, pd, page, frame, flags, pt)
    requires PtOk(phys, pd, page, pt) && UserPage(MapIn(phys, pd, page, frame, flags, pt), kernel, pd, i, j)
    ensures var phys' := MapIn(phys, pd, page, frame, flags, pt);
            if i == page / ENTRIES && j == page % ENTRIES then PageFrame(phys', pd, i, j) == frame
            else UserPage(phys, kernel, pd, i, j) && PageFrame(phys', pd, i, j) == PageFrame(phys, pd, i, j)
  {
    hide MapIn, At, TableAt, Exclusive, IsKernel;
    MapKernelSame(phys, used, kernel, pd, page, frame, flags, pt);
    TableNotPd(phys, pd, page, pt);
    var phys' := MapIn(phys, pd, page, frame, flags, pt);
    MapAt(phys, pd, page, frame, flags, pt, pd, i);
    MapAt(phys, pd, page, frame, flags, pt, At(phys', pd, i).frame, j);
    assert UserOnly(At(phys, pd, i), At(phys, At(phys, pd, i).frame, j));
  }

  /** Private slots stay private, and the slot mapped into has the table it was given. */
  lemma MapPrivate(phys: Phys, used: set<nat>, kernel: nat, pd: nat, page: nat, frame: FrameNo, flags: Flags,
      pt: FrameNo, i: nat)
    requires Clean(phys, used, kernel, pd) && UserMap(phys, used, kernel, pd, page, frame, flags, pt)
    requires PtOk(phys, pd, page, pt) && Private(MapIn(phys, pd, page, frame, flags, pt), kernel, pd, i)
    ensures var phys' := MapIn(phys, pd, page, frame, flags, pt);
            if i == page / ENTRIES then TableFrame(phys', pd, i) == TableFor(phys, pd, page, pt)
            else Private(phys, kernel, pd, i) && TableFrame(phys', pd, i) == TableFrame(phys, pd, i)
  {
    hide MapIn, At, TableAt, Exclusive, IsKernel;
    MapKernelSame(phys, used, kernel, pd, page, frame, flags, pt);
    MapAt(phys, pd, page, frame, flags, pt, pd, i);
  }

  lemma MapTables(phys: Phys, used: set<nat>, kernel: nat, pd: nat, page: nat, frame: FrameNo, flags: Flags,
      pt: FrameNo, k: nat)
    requires Clean(phys, used, kernel, pd) && UserMap(phys, used, kernel, pd, page, frame, flags, pt)
    requires PtOk(phys, pd, page, pt) && HasTable(MapIn(phys, pd, page, frame, flags, pt), pd, k)
    ensures var phys' := MapIn(phys, pd, page, frame, flags, pt);
            || (k == page / ENTRIES && !HasTable(phys, pd, k) && TableFrame(phys', pd, k) == pt)
            || (HasTable(phys, pd, k) && TableFrame(phys', pd, k) == TableFrame(phys, pd, k))
  {
    hide MapIn, TableAt, Exclusive, IsKernel;
    MapAt(phys, pd, page, frame, flags, pt, pd, k);
  }

  lemma MapExclusive(phys: Phys, used: set<nat>, kernel: nat, pd: nat, page: nat, frame: FrameNo, flags: Flags,
      pt: FrameNo)
    requires Clean(phys, used, kernel, pd) && UserMap(phys, used, kernel, pd, page, frame, flags, pt)
        && PtOk(phys, pd, page, pt)
    ensures Exclusive(MapIn(phys, pd, page, frame, flags, pt), kernel, pd)
  {
    hide MapIn, At, TableAt, IsKernel, UserPage, PageFrame, TableFrame, Space, Backed, UserClosed, SlotClean;
    var phys' := MapIn(phys, pd, page, frame, flags, pt);
    FrameApart(phys, pd, frame);
    forall i: nat, j: nat | UserPage(phys', kernel, pd, i, j) ensures PageFrame(phys', pd, i, j) != pd {
      MapUserPage(phys, used, kernel, pd, page, frame, flags, pt, i, j);
    }
    forall i: nat, j: nat, k: nat | UserPage(phys', kernel, pd, i, j) && HasTable(phys', pd, k)
      ensures PageFrame(phys', pd, i, j) != TableFrame(phys', pd, k)
    {
      MapUserPage(phys, used, kernel, pd, page, frame, flags, pt, i, j);
      MapTables(phys, used, kernel, pd, page, frame, flags, pt, k);
    }
    forall i: nat, j: nat, k: nat, l: nat | UserPage(phys', kernel, pd, i, j) && UserPage(phys', kernel, pd, k, l)
        && (i, j) != (k, l)
      ensures PageFrame(phys', pd, i, j) != PageFrame(phys', pd, k, l)
    {
      MapUserPage(phys, used, kernel, pd, page, frame, flags, pt, i, j);
      MapUserPage(phys, used, kernel, pd, page, frame, flags, pt, k, l);
    }
  }

  lemma FrameApart(phys: Phys, pd: nat, f: nat)
    requires Unused(phys, pd, f)
    ensures f != pd && forall k: nat | HasTable(phys, pd, k) :: TableFrame(phys, pd, k) != f
  {
  }

  /** Mapping fresh user pages keeps a space clean. */
  lemma MapClean(phys: Phys, used: set<nat>, kernel: nat, pd: nat, page: nat, frame: FrameNo, flags: Flags, pt: FrameNo,
      used': set<nat>)
    requires Clean(phys, used, kernel, pd) && UserMap(phys, used, kernel, pd, page, frame, flags, pt)
    requires used <= used' && (HasTable(phys, pd, page / ENTRIES) || pt in used')
    ensures PtOk(phys, pd, page, pt) && Clean(MapIn(phys, pd, page, frame, flags, pt), used', kernel, pd)
  {
    hide MapIn, At, TableAt, IsKernel, UserPage, PageFrame, TableFrame, HasTable, Space, UserClosed, Exclusive, Private;
    if !At(phys, pd, page / ENTRIES).Present() { FreshUnused(phys, used, pd, pt); }
    var phys' := MapIn(phys, pd, page, frame, flags, pt);
    MapKernelSame(phys, used, kernel, pd, page, frame, flags, pt);
    MapKeepsSpace(phys, pd, page, frame, flags, pt);
    MapKeepsClosed(phys, pd, page, frame, flags, pt);
    MapExclusive(phys, used, kernel, pd, page, frame, flags, pt);
    MapBacked(phys, used, kernel, pd, page, frame, flags, pt, used');
    forall i: nat | i < ENTRIES ensures SlotClean(phys', kernel, pd,
        i) { MapSlotClean(phys, used, kernel, pd, page, frame, flags, pt, i); }
    forall i: nat, j: nat | UserPage(phys', kernel, pd, i, j)
      ensures PageFrame(phys', pd, i, j) in used' && !IsKernel(phys', kernel, PageFrame(phys', pd, i, j))
    {
      MapUserPage(phys, used, kernel, pd, page, frame, flags, pt, i, j);
    }
  }

  lemma MapSlotClean(phys: Phys, used: set<nat>, kernel: nat, pd: nat, page: nat, frame: FrameNo, flags: Flags,
      pt: FrameNo, i: nat)
    requires Clean(phys, used, kernel, pd) && UserMap(phys, used, kernel, pd, page, frame, flags, pt)
        && PtOk(phys, pd, page, pt) && i < ENTRIES
    ensures SlotClean(MapIn(phys, pd, page, frame, flags, pt), kernel, pd, i)
  {
    hide MapIn, At, TableAt, IsKernel, UserPage, PageFrame, Space, UserClosed, Exclusive, FreshPage;
    assert SlotClean(phys, kernel, pd, i);
    MapKernelSame(phys, used, kernel, pd, page, frame, flags, pt);
    TableNotPd(phys, pd, page, pt);
    MapAt(phys, pd, page, frame, flags, pt, pd, i);
    var pde := At(phys, pd, page / ENTRIES);
    if !pde.Present() {
      NotKernels(phys, used, kernel, pd, pt);
    } else if pde.User() {
      assert MappedPde(pde, pt, flags) == pde;
    }
  }

  lemma NotKernels(phys: Phys, used: set<nat>, kernel: nat, pd: nat, f: nat)
    requires Backed(phys, used, kernel) && f !in used
    ensures !IsKernel(phys, kernel, f)
  {
  }

  lemma MapBacked(phys: Phys, used: set<nat>, kernel: nat, pd: nat, page: nat, frame: FrameNo, flags: Flags,
      pt: FrameNo, used': set<nat>)
    requires Clean(phys, used, kernel, pd) && UserMap(phys, used, kernel, pd, page, frame, flags, pt)
        && PtOk(phys, pd, page, pt)
    requires used <= used' && (HasTable(phys, pd, page / ENTRIES) || pt in used')
    ensures var phys' := MapIn(phys, pd, page, frame, flags, pt);
          Backed(phys', used', pd) && Backed(phys', used', kernel)
  {
    hide MapIn, TableAt, IsKernel, UserPage, PageFrame, Space, UserClosed, Exclusive, Private, At;
    var phys' := MapIn(phys, pd, page, frame, flags, pt);
    MapKernelSame(phys, used, kernel, pd, page, frame, flags, pt);
    forall i: nat | i < ENTRIES && At(phys', pd, i).Present() ensures At(phys', pd, i).frame in used' {
      MapTables(phys, used, kernel, pd, page, frame, flags, pt, i);
    }
  }

  /** A user page mapped into the kernel's own slot makes the kernel's table one that destroy frees. */
  lemma SharedSlotBreaks(phys: Phys, used: set<nat>, kernel: nat, pd: nat, page: nat, frame: FrameNo, flags: Flags,
      pt: FrameNo)
    requires Clean(phys, used, kernel, pd) && UserCall(phys, used, kernel, pd, page, frame, flags, pt)
        && KernelSlot(phys, kernel, pd, page / ENTRIES)
    ensures PtOk(phys, pd, page, pt)
    ensures var phys', t := MapIn(phys, pd, page, frame, flags, pt), TableFrame(phys, kernel, page / ENTRIES);
            t in FreeList(phys', kernel, pd) && IsKernel(phys', kernel, t)
  {
    hide MapIn, TableAt, FreeList, Clean;
    var i := page / ENTRIES;
    MapKernelSame(phys, used, kernel, pd, page, frame, flags, pt);
    CleanSpaces(phys, used, kernel, pd);
    var phys', t := MapIn(phys, pd, page, frame, flags, pt), TableFrame(phys, kernel, i);
    MapAt(phys, pd, page, frame, flags, pt, pd, i);
    assert Private(phys', kernel, pd, i) && t == TableFrame(phys', pd, i);
    FreeListIsOwned(phys', kernel, pd, t);
  }

  lemma CleanSpaces(phys: Phys, used: set<nat>, kernel: nat, pd: nat)
    requires Clean(phys, used, kernel, pd)
    ensures Space(phys, kernel) && Space(phys, pd) && Backed(phys, used, kernel) && Backed(phys, used, pd)
        && UserClosed(phys, pd) && !IsKernel(phys, kernel, 0)
  {
  }

  /** Mapping a fresh user page keeps a space clean exactly when the slot does not hold the kernel's own entry. */
  lemma MapExact(phys: Phys, used: set<nat>, kernel: nat, pd: nat, page: nat, frame: FrameNo, flags: Flags, pt: FrameNo,
      used': set<nat>)
    requires Clean(phys, used, kernel, pd) && UserCall(phys, used, kernel, pd, page, frame, flags, pt)
    requires used <= used' && (HasTable(phys, pd, page / ENTRIES) || pt in used')
    ensures Space(phys, pd) && PtOk(phys, pd, page, pt)
    ensures Clean(MapIn(phys, pd, page, frame, flags, pt), used', kernel, pd) <==>
          !KernelSlot(phys, kernel, pd, page / ENTRIES)
  {
    hide Clean, MapIn, FreeList, IsKernel, UserCall;
    CleanSpaces(phys, used, kernel, pd);
    if KernelSlot(phys, kernel, pd, page / ENTRIES) {
      SharedSlotBreaks(phys, used, kernel, pd, page, frame, flags, pt);
      if Clean(MapIn(phys, pd, page, frame, flags, pt), used', kernel, pd) {
        DestroySafe(MapIn(phys, pd, page, frame, flags, pt), used', kernel, pd);
      }
    } else {
      MapClean(phys, used, kernel, pd, page, frame, flags, pt, used');
    }
  }

  /** Where the slot had a table that becomes private, it was private before. */
  lemma MapSlot(phys: Phys, used: set<nat>, kernel: nat, pd: nat, page: nat, frame: FrameNo, flags: Flags, pt: FrameNo)
    requires Clean(phys, used, kernel, pd) && UserMap(phys, used, kernel, pd, page, frame, flags, pt)
        && PtOk(phys, pd, page, pt)
    requires Private(MapIn(phys, pd, page, frame, flags, pt), kernel, pd, page / ENTRIES)
    ensures var i := page / ENTRIES;
            At(phys, pd, i).Present() ==>
                  Private(phys, kernel, pd, i) && TableFrame(phys, pd, i) == TableFor(phys, pd, page, pt)
  {
    hide MapIn, At, TableAt, IsKernel, UserPage, PageFrame, Space, UserClosed, Exclusive, FreshPage;
    var i := page / ENTRIES;
    assert SlotClean(phys, kernel, pd, i);
    MapKernelSame(phys, used, kernel, pd, page, frame, flags, pt);
    MapAt(phys, pd, page, frame, flags, pt, pd, i);
    var pde := At(phys, pd, i);
    if pde.Present() && pde.User() { assert MappedPde(pde, pt, flags) == pde; }
  }

  /** A frame newly owned is the page's or the new table's. */
  lemma MapOwned(phys: Phys, used: set<nat>, kernel: nat, pd: nat, page: nat, frame: FrameNo, flags: Flags, pt: FrameNo,
      f: nat)
    requires Clean(phys, used, kernel, pd) && UserMap(phys, used, kernel, pd, page, frame, flags, pt)
        && PtOk(phys, pd, page, pt)
    requires IsOwned(MapIn(phys, pd, page, frame, flags, pt), kernel, pd, f)
    ensures IsOwned(phys, kernel, pd, f) || f == frame || (f == pt && !At(phys, pd, page / ENTRIES).Present())
  {
    hide MapIn, At, TableAt, IsKernel, UserPage, PageFrame, TableFrame, Space, UserClosed, Exclusive, Private,
        FreshPage;
    var phys' := MapIn(phys, pd, page, frame, flags, pt);
    if f != pd {
      if i: nat :| Private(phys', kernel, pd, i) && f == TableFrame(phys', pd, i) {
        MapPrivate(phys, used, kernel, pd, page, frame, flags, pt, i);
        if i == page / ENTRIES { MapSlot(phys, used, kernel, pd, page, frame, flags, pt); }
      } else {
        var i: nat, j: nat :| UserPage(phys', kernel, pd, i, j) && f == PageFrame(phys', pd, i, j);
        MapUserPage(phys, used, kernel, pd, page, frame, flags, pt, i, j);
      }
    }
  }
}
