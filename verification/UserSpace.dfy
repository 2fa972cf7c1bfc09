/** The bytes a user program sees through its page tables, and how fresh pages and writes change them. */
module UserSpace {
  import opened Machine
  import opened PageTable
  import opened Spaces

  /** The byte at a virtual address, if a page of bytes is mapped there for the user. */
  datatype View = NoByte | Byte(b: byte)

  ghost function Seen(phys: Phys, m: Mapping, o: nat): View {
    if m.Mapped? && m.user && m.frame < FRAMES && phys[m.frame].Data?
        && o < PAGE then Byte(phys[m.frame].bytes[o]) else NoByte
  }

  ghost function UserByte(phys: Phys, pd: nat, a: nat): View {
    Seen(phys, Translate(phys, pd, a / PAGE), a % PAGE)
  }

  /** A space the loaders may add to. */
  ghost predicate Usable(phys: Phys, used: set<nat>, pd: nat) {
    var usable := Space(phys, pd) && UserClosed(phys, pd) && Backed(phys, used, pd) && Low(phys, used, pd)
        && PagesUsed(phys, used, pd);
    usable
  }

  lemma UsableMore(phys: Phys, used: set<nat>, pd: nat, used': set<nat>)
    requires Usable(phys, used, pd) && used <= used'
    ensures Usable(phys, used', pd) && Space(phys, pd) && Backed(phys, used', pd)
  {
    hide Space, UserClosed, Translate, Unused;
  }

  /** Filling a frame that is no structure of the space changes no entry. */
  lemma DataWritten(phys: Phys, pd: nat, f: FrameNo, bytes: Bytes4K)
    requires Space(phys, pd) && Unused(phys, pd, f)
    ensures var phys' := phys[f := Data(bytes)];
            && Space(phys', pd) && (UserClosed(phys, pd) ==> UserClosed(phys', pd))
            && (forall used :: Backed(phys, used, pd) ==> Backed(phys', used, pd))
            && forall q: nat | q < FRAMES :: Translate(phys', pd, q) == Translate(phys, pd, q)
  {
    var phys' := phys[f := Data(bytes)];
    forall i: nat ensures At(phys', pd, i) == At(phys, pd, i) {}
    forall i: nat, j: nat | i < ENTRIES && At(phys, pd, i).Present()
        ensures At(phys', At(phys, pd, i).frame, j) == At(phys, At(phys, pd, i).frame, j) {}
    if UserClosed(phys, pd) {
      forall i: nat, j: nat | i < ENTRIES && j < ENTRIES
          ensures UserOnly(At(phys', pd, i), At(phys', At(phys', pd, i).frame, j)) {
        assert UserOnly(At(phys, pd, i), At(phys, At(phys, pd, i).frame, j));
      }
    }
  }

  const USER_RW := Flags(true, true, true, false, false)

  /** A fresh zeroed page mapped for the user. */
  ghost function AddPage(phys: Phys, pd: nat, page: nat, f: FrameNo, pt: FrameNo): Phys
    requires Space(phys, pd) && page < FRAMES && PtOk(phys, pd, page, pt)
  {
    MapIn(phys, pd, page, f, USER_RW, pt)[f := Data(Zeros(4096))]
  }

  /** A frame and, where the slot needs one, a table frame that were both free. */
  ghost predicate FreshFrames(phys: Phys, used: set<nat>, pd: nat, page: nat, f: FrameNo, pt: FrameNo) {
    page < FRAMES && f !in used && (At(phys, pd, page / ENTRIES).Present() || (pt !in used && pt != f))
  }

  ghost function Used1(phys: Phys, used: set<nat>, pd: nat, page: nat, f: FrameNo, pt: FrameNo): set<nat> {
    used + {f as nat} + if At(phys, pd, page / ENTRIES).Present() then {} else {pt as nat}
  }

  lemma FreshPt(phys: Phys, used: set<nat>, pd: nat, page: nat, f: FrameNo, pt: FrameNo)
    requires Usable(phys, used, pd) && FreshFrames(phys, used, pd, page, f, pt)
    ensures Space(phys, pd) && PtOk(phys, pd, page, pt) && Unused(phys, pd, f)
    ensures Unused(MapIn(phys, pd, page, f, USER_RW, pt), pd, f)
  {
    hide MapIn, At, TableAt;
    if !At(phys, pd, page / ENTRIES).Present() { FreshUnused(phys, used, pd, pt); }
    FreshUnused(phys, used, pd, f);
    var phys' := MapIn(phys, pd, page, f, USER_RW, pt);
    forall i: nat | i < ENTRIES && At(phys', pd, i).Present() ensures At(phys', pd, i).frame != f {
      MapAt(phys, pd, page, f, USER_RW, pt, pd, i);
    }
  }

  /** The new page shows zeros; every other page shows what it showed; frames of bytes in use keep them. */
  lemma AddPageStep(phys: Phys, used: set<nat>, pd: nat, page: nat, f: FrameNo, pt: FrameNo)
    requires Usable(phys, used, pd) && FreshFrames(phys, used, pd, page, f, pt)
    ensures Space(phys, pd) && PtOk(phys, pd, page, pt)
    ensures var phys' := AddPage(phys, pd, page, f, pt);
            && Usable(phys', Used1(phys, used, pd, page, f, pt), pd)
            && (forall q: nat | q < FRAMES && q != page :: Translate(phys', pd, q) == Translate(phys, pd, q))
            && Translate(phys', pd, page).Mapped? && Translate(phys', pd, page).frame == f
                && Translate(phys', pd, page).user
            && phys'[f] == Data(Zeros(4096))
  {
    hide MapIn, At, TableAt, Space, UserClosed, Unused, Translate, Low;
    FreshPt(phys, used, pd, page, f, pt);
    var phys1 := MapIn(phys, pd, page, f, USER_RW, pt);
    MapKeepsSpace(phys, pd, page, f, USER_RW, pt);
    MapKeepsClosed(phys, pd, page, f, USER_RW, pt);
    MapTranslates(phys, pd, page, f, USER_RW, pt);
    forall q: nat | q < FRAMES && q != page ensures Translate(phys1, pd, q) == Translate(phys, pd, q) {
      MapOthersKept(phys, pd, page, f, USER_RW, pt, q);
    }
    AddBacked(phys, used, pd, page, f, pt);
    MapLow(phys, used, pd, page, f, pt);
    DataWritten(phys1, pd, f, Zeros(4096));
    WriteLow(phys1, Used1(phys, used, pd, page, f, pt), pd, f, Zeros(4096));
  }

  lemma MapLow(phys: Phys, used: set<nat>, pd: nat, page: nat, f: FrameNo, pt: FrameNo)
    requires Usable(phys, used, pd) && FreshFrames(phys, used, pd, page, f, pt) && PtOk(phys, pd, page, pt)
    ensures Space(phys, pd) && f != 0
    ensures Low(MapIn(phys, pd, page, f, USER_RW, pt), Used1(phys, used, pd, page, f, pt), pd)
  {
    hide At, TableAt, UserClosed, PagesUsed, MapIn;
    var phys' := MapIn(phys, pd, page, f, USER_RW, pt);
    MapLeaves(phys, pd, page, f, USER_RW, pt, 0);
    forall i: nat | i < ENTRIES && At(phys', pd, i).Present() ensures At(phys', pd, i).frame != 0 {
      MapAt(phys, pd, page, f, USER_RW, pt, pd, i);
    }
  }

  /** Frames that are no structure of the space keep what they hold. */
  lemma MapLeaves(phys: Phys, pd: nat, page: nat, frame: FrameNo, flags: Flags, pt: FrameNo, g: FrameNo)
    requires Space(phys, pd) && page < FRAMES && PtOk(phys, pd, page, pt) && Unused(phys, pd, g)
        && (At(phys, pd, page / ENTRIES).Present() || pt != g)
    ensures MapIn(phys, pd, page, frame, flags, pt)[g] == phys[g]
  {
  }

  lemma WriteLow(phys: Phys, used: set<nat>, pd: nat, f: FrameNo, bytes: Bytes4K)
    requires Low(phys, used, pd) && Space(phys, pd) && Unused(phys, pd, f)
    ensures Low(phys[f := Data(bytes)], used, pd)
  {
    var phys' := phys[f := Data(bytes)];
    forall i: nat ensures At(phys', pd, i) == At(phys, pd, i) {}
  }

  lemma AddBacked(phys: Phys, used: set<nat>, pd: nat, page: nat, f: FrameNo, pt: FrameNo)
    requires Usable(phys, used, pd) && FreshFrames(phys, used, pd, page, f, pt) && PtOk(phys, pd, page, pt)
    ensures Space(phys, pd)
    ensures Backed(MapIn(phys, pd, page, f, USER_RW, pt), Used1(phys, used, pd, page, f, pt), pd)
  {
    hide MapIn, At, TableAt;
    var phys' := MapIn(phys, pd, page, f, USER_RW, pt);
    forall i: nat | i < ENTRIES && At(phys', pd, i).Present()
        ensures At(phys', pd, i).frame in Used1(phys, used, pd, page, f, pt) {
      MapAt(phys, pd, page, f, USER_RW, pt, pd, i);
    }
  }

  /** Pages of bytes in use keep them. */
  ghost predicate DataKept(phys: Phys, used: set<nat>, phys': Phys) {
    forall g: nat | g < FRAMES && g in used && phys[g].Data? :: phys'[g] == phys[g]
  }

  lemma AddPageKeeps(phys: Phys, used: set<nat>, pd: nat, page: nat, f: FrameNo, pt: FrameNo)
    requires Usable(phys, used, pd) && FreshFrames(phys, used, pd, page, f, pt) && Space(phys, pd)
        && PtOk(phys, pd, page, pt)
    ensures DataKept(phys, used, AddPage(phys, pd, page, f, pt))
  {
  }
}
