/** paging_map_page, paging_user_range_valid, and making and destroying address spaces. */
module Paging {
  import opened Machine
  import opened PageTable
  import opened Spaces
  import opened Pmm
  import opened Budgets

  /** A user access the entries grant. */
  predicate UserMay(m: Mapping, write: bool) { m.Mapped? && m.user && (write ==> m.write) }

  /** Every byte of the range is mapped with the requested user rights. */
  ghost predicate RangeOk(phys: Phys, pd: nat, address: nat, length: nat, write: bool) {
    && address + length <= U32
    && forall a: nat | address <= a < address + length :: UserMay(Translate(phys, pd, a / PageTable.PAGE), write)
  }

  /** The pages of the range, one check each. */
  ghost predicate PagesOk(phys: Phys, pd: nat, lo: nat, hi: nat, write: bool) {
    forall p: nat | lo <= p < hi :: UserMay(Translate(phys, pd, p), write)
  }

  lemma RangeIsPages(phys: Phys, pd: nat, address: nat, length: nat, write: bool)
    requires 0 < length && address + length <= U32
    ensures RangeOk(phys, pd, address, length, write) <==>
      PagesOk(phys, pd, address / PageTable.PAGE, (address + length - 1) / PageTable.PAGE + 1, write)
  {
    hide Translate, UserMay;
    var lo, hi := address / PageTable.PAGE, (address + length - 1) / PageTable.PAGE;
    if RangeOk(phys, pd, address, length, write) {
      forall p: nat | lo <= p < hi + 1 ensures UserMay(Translate(phys, pd, p), write) {
        var a := if p == lo then address else p * PageTable.PAGE;
        assert address <= a < address + length && a / PageTable.PAGE == p;
      }
    }
    if PagesOk(phys, pd, lo, hi + 1, write) {
      forall a: nat | address <= a < address + length ensures UserMay(Translate(phys, pd, a / PageTable.PAGE), write) {
        assert lo <= a / PageTable.PAGE < hi + 1;
      }
    }
  }

  /** Physical memory, the frame allocator over it, and the kernel's directory. Where granted, nothing else that the
      loaders ask for is refused: kernel heap memory, temporary mappings, and the opening of files. */
  class Memory {
    const pmm: FrameAllocator
    const kernel: nat
    const granted: bool
    var phys: Phys

    /** Frame 0 is never handed out. */
    ghost predicate Ready()
      reads pmm, pmm.bitmap
    {
      pmm.Valid() && pmm.total <= FRAMES && 0 in pmm.UsedFrames()
    }

    ghost predicate Valid()
      reads this, pmm, pmm.bitmap
    {
      && Ready()
      && Space(phys, kernel) && UserClosed(phys, kernel) && Backed(phys, pmm.UsedFrames(), kernel)
      && Low(phys, pmm.UsedFrames(), kernel) && PagesUsed(phys, pmm.UsedFrames(), kernel)
    }

    constructor (pmm: FrameAllocator, kernel: nat, phys: Phys, granted: bool)
      requires pmm.Valid() && pmm.total <= FRAMES && 0 in pmm.UsedFrames()
      requires Space(phys, kernel) && UserClosed(phys, kernel) && Backed(phys, pmm.UsedFrames(), kernel)
      requires Low(phys, pmm.UsedFrames(), kernel) && PagesUsed(phys, pmm.UsedFrames(), kernel)
      ensures Valid() && this.pmm == pmm && this.kernel == kernel && this.phys == phys
          && this.granted == granted
    {
      this.pmm := pmm;
      this.kernel := kernel;
      this.granted := granted;
      this.phys := phys;
    }

    /** A request for something other than a frame. */
    method Grant() returns (ok: bool)
      ensures granted ==> ok
    {
      ok := *;
      if granted { ok := true; }
    }

    /** The frames not in use. */
    ghost function Free(): nat
      reads pmm, pmm.bitmap
    {
      |FreeFrames(pmm.total, pmm.UsedFrames())|
    }

    /** The frames left and the tables a directory has. */
    ghost function Purse(pd: nat): Budget
      reads this, pmm, pmm.bitmap
    {
      Funds(pmm.total, pmm.UsedFrames(), phys, pd)
    }

    /** pmm_alloc_frame, as a frame number; 0 exactly when no frame is free. */
    method AllocFrame() returns (f: FrameNo)
      requires Ready()
      modifies pmm`count, pmm.bitmap
      ensures Ready()
      ensures f == 0 ==> pmm.UsedFrames() == old(pmm.UsedFrames())
      ensures f != 0 ==>
            f < pmm.total && f !in old(pmm.UsedFrames()) && pmm.UsedFrames() == old(pmm.UsedFrames()) + {f}
      ensures f == 0 <==> old(Free()) == 0
    {
      hide Space, UserClosed, Backed, FreeFrames;
      NoneLeft(pmm.total, pmm.UsedFrames());
      var addr := pmm.Alloc();
      f := addr / FRAME;
    }

    /** paging_user_range_valid: exact, up to the last byte of the address space. */
    method UserRangeValid(pd: nat, address: u32, length: u32, write: bool) returns (ok: bool)
      requires pd != 0 ==> Space(phys, pd)
      ensures ok <==> pd != 0 && RangeOk(phys, pd, address, length, write)
    {
      hide Translate, Space, RangeOk;
      var end := address + length;
      TooLong(phys, pd, address, length, write);
      if pd == 0 || end > U32 { return false; }
      if length == 0 { return true; }
      RangeIsPages(phys, pd, address, length, write);
      var page, last := address / PageTable.PAGE, (end - 1) / PageTable.PAGE;
      ghost var lo := page;
      while true
        invariant lo <= page <= last && PagesOk(phys, pd, lo, page, write)
        decreases last - page
      {
        var m := Walk(pd, page);
        if !UserMay(m, write) {
          assert !PagesOk(phys, pd, lo, last + 1, write);
          return false;
        }
        if page == last { break; }
        page := page + 1;
      }
      ok := true;
    }

    /** The two loads of a page walk. */
    method Walk(pd: nat, page: nat) returns (m: Mapping)
      requires Space(phys, pd) && page < FRAMES
      ensures m == Translate(phys, pd, page)
    {
      var pde := phys[pd].entries[page / ENTRIES];
      assert pde == At(phys, pd, page / ENTRIES);
      if !pde.Present() { return Unmapped; }
      var pte := phys[pde.frame].entries[page % ENTRIES];
      m := Combine(pde, pte);
    }

    /** The directory and tables a caller may pass: backed by frames in use. */
    ghost predicate Mappable(pd: nat)
      reads this, pmm, pmm.bitmap
    {
      Space(phys, pd) && Backed(phys, pmm.UsedFrames(), pd)
    }

    /**
     paging_map_page. On success the memory is MapIn of the old one; on failure nothing changed. A new
     table's frame pt was free.
     */
    method MapPage(pd: nat, virt: u32, paddr: u32, flags: Flags) returns (ok: bool, ghost pt: FrameNo)
      requires Ready() && (pd != 0 ==> Mappable(pd))
      modifies this`phys, pmm`count, pmm.bitmap
      ensures Ready()
      ensures !ok ==> phys == old(phys) && pmm.UsedFrames() == old(pmm.UsedFrames())
      ensures pd == 0 || virt % PageTable.PAGE != 0 || paddr % PageTable.PAGE != 0 ==> !ok
      ensures pd != 0 && virt % PageTable.PAGE == 0 && paddr % PageTable.PAGE == 0 ==>
            (ok <==> At(old(phys), pd, virt / PageTable.PAGE / ENTRIES).Present() || old(Free()) != 0)
      ensures ok ==>
        && pd != 0 && PtOk(old(phys), pd, virt / PageTable.PAGE, pt)
        && (At(old(phys), pd, virt / PageTable.PAGE / ENTRIES).Present()
            || (pt < pmm.total && pt !in old(pmm.UsedFrames())))
        && phys == MapIn(old(phys), pd, virt / PageTable.PAGE, paddr / PageTable.PAGE, flags, pt)
        && pmm.UsedFrames() == old(pmm.UsedFrames()) + if At(old(phys), pd, virt / PageTable.PAGE / ENTRIES).Present()
            then {} else {pt}
    {
      hide UserClosed, FreeFrames;
      ok, pt := false, 0;
      if pd == 0 || virt % PageTable.PAGE != 0 || paddr % PageTable.PAGE != 0 { return; }
      var page := virt / PageTable.PAGE;
      var pdIndex, ptIndex := page / ENTRIES, page % ENTRIES;
      var pde := phys[pd].entries[pdIndex];
      assert pde == At(phys, pd, pdIndex);
      var t := pde.frame;
      if !pde.Present() {
        t := AllocFrame();
        if t == 0 { return; }
        pt := t;
        FreshUnused(phys, old(pmm.UsedFrames()), pd, t);
        phys := phys[t := EmptyTable()];
        phys := SetEntry(phys, pd, pdIndex, Entry(t, Flags(true, true, flags.user, false, false)));
      } else {
        phys := SetEntry(phys, pd, pdIndex, pde.(flags := pde.flags.(user := pde.User() || flags.user)));
      }
      phys := SetEntry(phys, t, ptIndex, Entry(paddr / PageTable.PAGE, flags));
      ok := true;
    }

    /** paging_create_address_space: a directory with the kernel's present entries; 0 exactly when no frame is free. */
    method CreateAddressSpace() returns (pd: FrameNo)
      requires Valid()
      modifies this`phys, pmm`count, pmm.bitmap
      ensures Valid()
      ensures pd == 0 ==> phys == old(phys) && pmm.UsedFrames() == old(pmm.UsedFrames())
      ensures pd == 0 <==> old(Free()) == 0
      ensures pd != 0 ==> Purse(pd) == Budget(old(Free()) - 1, Tables(old(phys), kernel))
      ensures pd != 0 ==>
        && pd !in old(pmm.UsedFrames()) && pmm.UsedFrames() == old(pmm.UsedFrames()) + {pd as nat}
        && CopyOf(old(phys), kernel, phys, pd) && Clean(phys, pmm.UsedFrames(), kernel, pd)
        && Low(phys, pmm.UsedFrames(), pd) && PagesUsed(phys, pmm.UsedFrames(), pd)
    {
      hide Space, UserClosed, Clean, Backed, Low, PagesUsed, Translate, Tables, FreeFrames;
      pd := AllocFrame();
      if pd == 0 { return; }
      OneFewer(pmm.total, old(pmm.UsedFrames()), pd);
      var entries := CopyEntries();
      CreatedKernel(phys, old(pmm.UsedFrames()), kernel, entries, pd);
      LowKernel(phys, old(pmm.UsedFrames()), kernel);
      CreatedLow(phys, old(pmm.UsedFrames()), kernel, phys[pd := Table(entries)], pd);
      CreateClean(phys, old(pmm.UsedFrames()), kernel, phys[pd := Table(entries)], pd);
      CopiedTables(phys, kernel, phys[pd := Table(entries)], pd);
      phys := phys[pd := Table(entries)];
    }

    /** The copy loop. */
    method CopyEntries() returns (entries: Entries)
      requires Space(phys, kernel)
      ensures forall i: nat | i < ENTRIES ::
            entries[i] == if At(phys, kernel, i).Present() then At(phys, kernel, i) else ABSENT
    {
      entries := EmptyTable().entries;
      var i := 0;
      while i < ENTRIES
        invariant 0 <= i <= ENTRIES
        invariant forall k: nat | k < i ::
              entries[k] == if At(phys, kernel, k).Present() then At(phys, kernel, k) else ABSENT
        invariant forall k: nat | i <= k < ENTRIES :: entries[k] == ABSENT
      {
        if At(phys, kernel, i).Present() { entries := entries[i := At(phys, kernel, i)]; }
        i := i + 1;
      }
    }

    /** pmm_free_frame on a frame number, its result ignored. */
    method FreeFrame(f: nat)
      requires pmm.Valid() && f < 32 * pmm.bitmap.Length
      modifies pmm`count, pmm.bitmap
      ensures pmm.Valid() && pmm.UsedFrames() == old(pmm.UsedFrames()) - {f}
    {
      hide Used;
      var _ := pmm.Free(f * FRAME);
    }

    /** One more frame behind those freed already. */
    method FreeNext(f: nat, ghost before: seq<nat>, ghost used: set<nat>) returns (ghost freed: seq<nat>)
      requires pmm.Valid() && f < 32 * pmm.bitmap.Length && pmm.UsedFrames() == used - Members(before)
      modifies pmm`count, pmm.bitmap
      ensures freed == before + [f] && pmm.Valid() && pmm.UsedFrames() == used - Members(freed)
    {
      hide Used, Members;
      FreeFrame(f);
      MembersMore(before, f);
      freed := before + [f];
    }

    /** The frames destroy passes to the allocator lie in its bitmap. */
    ghost predicate FreeListInRange(pd: nat)
      reads this, pmm
    {
      forall f :: f in FreeList(phys, kernel, pd) ==> f < 32 * pmm.bitmap.Length
    }

    /** The pages of one private slot, freed in order behind those freed before. */
    method FreePages(pd: nat, i: nat, ghost before: seq<nat>, ghost used: set<nat>) returns (ghost freed: seq<nat>)
      requires pmm.Valid() && Private(phys, kernel, pd, i) && FreeListInRange(pd)
          && pmm.UsedFrames() == used - Members(before)
      modifies pmm`count, pmm.bitmap
      ensures freed == before + PagesUpTo(phys, kernel, pd, i, ENTRIES)
      ensures pmm.Valid() && pmm.UsedFrames() == used - Members(freed)
    {
      hide Used, FreeList, PagesUpTo, Members, FrameAllocator.Valid, Private, At;
      var t := At(phys, pd, i).frame;
      var j := 0;
      freed := before;
      PagesNone(phys, kernel, pd, i);
      while j < ENTRIES
        invariant 0 <= j <= ENTRIES && pmm.Valid()
        invariant freed == before + PagesUpTo(phys, kernel, pd, i, j) && pmm.UsedFrames() == used - Members(freed)
      {
        var pte := At(phys, t, j);
        PagesAdded(phys, kernel, pd, i, j);
        if pte.Present() && pte.User() {
          FreeListIsOwned(phys, kernel, pd, pte.frame);
          freed := FreeNext(pte.frame, freed, used);
        }
        j := j + 1;
      }
    }

    /**
     paging_destroy_address_space: exactly the frames of FreeList go back to the allocator. In a clean
     space each of them is in use and counted off once, and none is the kernel's.
     */
    method DestroyAddressSpace(pd: nat) returns (ghost freed: seq<nat>)
      requires pmm.Valid() && (pd != 0 && pd != kernel ==> FreeListInRange(pd))
      modifies pmm`count, pmm.bitmap
      ensures pmm.Valid()
      ensures freed == if pd == 0 || pd == kernel then [] else FreeList(phys, kernel, pd)
      ensures pmm.UsedFrames() == old(pmm.UsedFrames()) - Members(freed)
      ensures pd != 0 && pd != kernel && Clean(phys, old(pmm.UsedFrames()), kernel, pd) ==>
        && pmm.count == old(pmm.count) - |freed| && Once(freed)
        && forall f :: f in freed ==> f in old(pmm.UsedFrames()) && !IsKernel(phys, kernel, f)
    {
      hide Used, FreeList, Clean, IsKernel, Once, SlotsUpTo, PagesUpTo, Members, At, IsOwned;
      freed := [];
      if pd == 0 || pd == kernel {
        NoMembers(pmm.UsedFrames());
        return;
      }
      ghost var used := pmm.UsedFrames();
      NoMembers(used);
      SlotsNone(phys, kernel, pd);
      var i := 0;
      while i < ENTRIES
        invariant 0 <= i <= ENTRIES && pmm.Valid()
        invariant freed == SlotsUpTo(phys, kernel, pd, i) && pmm.UsedFrames() == used - Members(freed)
      {
        SlotAdded(phys, kernel, pd, i);
        if Private(phys, kernel, pd, i) {
          var t := At(phys, pd, i).frame;
          freed := FreePages(pd, i, freed, used);
          FreeListIsOwned(phys, kernel, pd, t);
          freed := FreeNext(t, freed, used);
        }
        i := i + 1;
      }
      FreeListIsOwned(phys, kernel, pd, pd);
      DirectoryOwned(phys, kernel, pd);
      freed := FreeNext(pd, freed, used);
      FreeListIs(phys, kernel, pd);
      if Clean(phys, used, kernel, pd) {
        DestroySafe(phys, used, kernel, pd);
        RemovedOnce(used, freed);
      }
    }
  }

  lemma CopiedTables(phys: Phys, kernel: nat, phys': Phys, pd: nat)
    requires CopyOf(phys, kernel, phys', pd)
    ensures Tables(phys', pd) == Tables(phys, kernel)
  {
  }

  lemma NoMembers(s: set<nat>)
    ensures s - Members([]) == s
  {
  }

  lemma PagesNone(phys: Phys, kernel: nat, pd: nat, i: nat)
    ensures PagesUpTo(phys, kernel, pd, i, 0) == []
  {
  }

  lemma SlotsNone(phys: Phys, kernel: nat, pd: nat)
    ensures SlotsUpTo(phys, kernel, pd, 0) == []
  {
  }

  lemma DirectoryOwned(phys: Phys, kernel: nat, pd: nat)
    ensures IsOwned(phys, kernel, pd, pd)
  {
  }

  /** The next page of a private slot, if it is a user page. */
  lemma PagesAdded(phys: Phys, kernel: nat, pd: nat, i: nat, j: nat)
    requires Private(phys, kernel, pd, i) && j < ENTRIES
    ensures var pte := At(phys, At(phys, pd, i).frame, j);
            && PagesUpTo(phys, kernel, pd, i, j + 1) == PagesUpTo(phys, kernel, pd, i, j) + (if pte.Present()
                && pte.User() then [pte.frame as nat] else [])
            && (pte.Present() && pte.User() ==> IsOwned(phys, kernel, pd, pte.frame))
  {
    hide At;
    var pte := At(phys, At(phys, pd, i).frame, j);
    if pte.Present() && pte.User() { assert UserPage(phys, kernel, pd, i, j)
        && pte.frame == PageFrame(phys, pd, i, j); }
  }

  ghost function Members(s: seq<nat>): set<nat> { set x | x in s }

  lemma MembersMore(s: seq<nat>, f: nat)
    ensures Members(s + [f]) == Members(s) + {f}
  {
  }

  lemma SlotAdded(phys: Phys, kernel: nat, pd: nat, i: nat)
    ensures SlotsUpTo(phys, kernel, pd, i + 1) == SlotsUpTo(phys, kernel, pd, i) +
      if Private(phys, kernel, pd, i) then PagesUpTo(phys, kernel, pd, i, ENTRIES) + [At(phys, pd, i).frame as nat]
          else []
    ensures Private(phys, kernel, pd, i) ==> IsOwned(phys, kernel, pd, At(phys, pd, i).frame)
  {
    hide PagesUpTo;
    assert Private(phys, kernel, pd, i) ==>
          SlotFrames(phys, kernel, pd, i) == PagesUpTo(phys, kernel, pd, i, ENTRIES) + [TableFrame(phys, pd, i)];
  }

  lemma FreeListIs(phys: Phys, kernel: nat, pd: nat)
    ensures FreeList(phys, kernel, pd) == SlotsUpTo(phys, kernel, pd, ENTRIES) + [pd]
  {
  }

  /** Taking distinct members out of a set takes out as many. */
  lemma {:induction false} RemovedOnce(s: set<nat>, out: seq<nat>)
    requires Once(out) && forall f :: f in out ==> f in s
    ensures |s - Members(out)| == |s| - |out|
  {
    if out == [] {
      assert s - Members(out) == s;
    } else {
      var n := |out| - 1;
      var rest, last := out[..n], out[n];
      assert out == rest + [last];
      RemovedOnce(s, rest);
      MembersMore(rest, last);
      assert last in s - Members(rest);
      assert s - Members(out) == (s - Members(rest)) - {last};
    }
  }

  lemma CreatedKernel(phys: Phys, used: set<nat>, kernel: nat, entries: Entries, pd: FrameNo)
    requires Space(phys, kernel) && UserClosed(phys, kernel) && Backed(phys, used, kernel) && pd !in used
    ensures var phys' := phys[pd := Table(entries)];
            Space(phys', kernel) && UserClosed(phys', kernel) && Backed(phys', used + {pd as nat}, kernel)
  {
    var phys' := phys[pd := Table(entries)];
    forall g: nat, i: nat | g != pd ensures At(phys', g, i) == At(phys, g, i) {}
    forall i: nat, j: nat | i < ENTRIES && j < ENTRIES
        ensures UserOnly(At(phys', kernel, i), At(phys', At(phys', kernel, i).frame, j)) {
      assert UserOnly(At(phys, kernel, i), At(phys, At(phys, kernel, i).frame, j));
    }
  }

  lemma LowKernel(phys: Phys, used: set<nat>, kernel: nat)
    requires Low(phys, used, kernel)
    ensures !IsKernel(phys, kernel, 0)
  {
  }

  lemma CreatedLow(phys: Phys, used: set<nat>, kernel: nat, phys': Phys, pd: nat)
    requires Space(phys, kernel) && UserClosed(phys, kernel) && Backed(phys, used, kernel)
        && CopyOf(phys, kernel, phys', pd) && pd !in used
    requires Low(phys, used, kernel) && PagesUsed(phys, used, kernel)
    ensures Low(phys', used + {pd}, kernel) && PagesUsed(phys', used + {pd}, kernel)
    ensures Low(phys', used + {pd}, pd) && PagesUsed(phys', used + {pd}, pd)
  {
    LowKernel(phys, used, kernel);
    CreateClean(phys, used, kernel, phys', pd);
    forall g: nat, i: nat | g != pd ensures At(phys', g, i) == At(phys, g, i) {}
    forall page: nat | page < FRAMES ensures Translate(phys', kernel, page) == Translate(phys, kernel, page) {}
  }

  lemma TooLong(phys: Phys, pd: nat, address: nat, length: nat, write: bool)
    ensures address + length > U32 ==> !RangeOk(phys, pd, address, length, write)
    ensures length == 0 && address <= U32 ==> RangeOk(phys, pd, address, length, write)
  {
  }
}
