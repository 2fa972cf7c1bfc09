/** Two-level page tables over physical frames: translation, rights, and what storing one entry changes. */
module PageTable {
  import opened Machine

  const PAGE: nat := 4096
  const ENTRIES: nat := 1024
  const FRAMES: nat := 0x10_0000

  /** The flag bits the kernel sets: PAGE_PRESENT, PAGE_RW, PAGE_USER, PAGE_PWT, PAGE_PCD. */
  datatype Flags = Flags(present: bool, rw: bool, user: bool, pwt: bool, pcd: bool)

  type FrameNo = n: nat | n < FRAMES

  /** A directory or table entry: frame number and flag bits. */
  datatype Entry = Entry(frame: FrameNo, flags: Flags) {
    predicate Present() { flags.present }
    predicate User() { flags.user }
    predicate Writable() { flags.rw }
  }

  const ABSENT := Entry(0, Flags(false, false, false, false, false))

  type Entries = s: seq<Entry> | |s| == 1024 witness seq(1024, _ => ABSENT)
  type Bytes4K = s: seq<byte> | |s| == 4096 witness seq(4096, _ => 0)

  /** A frame is used either as a table or directory, or as a page of bytes. */
  datatype Frame = Table(entries: Entries) | Data(bytes: Bytes4K)

  type Phys = s: seq<Frame> | |s| == FRAMES witness seq(FRAMES, _ => Data(seq(4096, _ => 0)))

  /** A cleared frame, as a table. */
  function EmptyTable(): Frame { Table(seq(1024, _ => ABSENT)) }

  /** What the processor makes of a page number. */
  datatype Mapping = Unmapped | Mapped(frame: nat, user: bool, write: bool)

  predicate TableAt(phys: Phys, f: nat) { f < FRAMES && phys[f].Table? }

  /** The i-th entry of the table or directory in frame f. */
  function At(phys: Phys, f: nat, i: nat): Entry {
    if TableAt(phys, f) && i < ENTRIES then phys[f].entries[i] else ABSENT
  }

  /** The rights of a page are those both levels grant. */
  function Combine(pde: Entry, pte: Entry): Mapping {
    if !pde.Present() || !pte.Present() then Unmapped
    else Mapped(pte.frame, pde.User() && pte.User(), pde.Writable() && pte.Writable())
  }

  /** 32-bit paging, section 4.3 of the Intel manual, volume 3A. */
  ghost function Translate(phys: Phys, pd: nat, page: nat): Mapping {
    var pde := At(phys, pd, page / ENTRIES);
    Combine(pde, At(phys, pde.frame, page % ENTRIES))
  }

  /** A directory whose present entries name tables, one each, none of them the directory. */
  ghost predicate Space(phys: Phys, pd: nat) {
    && TableAt(phys, pd)
    && (forall i: nat | i < ENTRIES && At(phys, pd, i).Present() ::
          TableAt(phys, At(phys, pd, i).frame) && At(phys, pd, i).frame != pd)
    && (forall i: nat, j: nat | i < ENTRIES && j < ENTRIES && i != j && At(phys, pd, i).Present()
        && At(phys, pd, j).Present() ::
          At(phys, pd, i).frame != At(phys, pd, j).frame)
  }

  /** A user page is reached through a user directory entry only. */
  ghost predicate UserClosed(phys: Phys, pd: nat) {
    forall i: nat, j: nat | i < ENTRIES && j < ENTRIES ::
      UserOnly(At(phys, pd, i), At(phys, At(phys, pd, i).frame, j))
  }

  predicate UserOnly(pde: Entry, pte: Entry) { pde.Present() && pte.Present() && pte.User() ==> pde.User() }

  function SetEntry(phys: Phys, f: nat, i: nat, e: Entry): Phys
    requires f < FRAMES && phys[f].Table? && i < ENTRIES
  {
    phys[f := Table(phys[f].entries[i := e])]
  }

  lemma SetEntryAt(phys: Phys, f: nat, i: nat, e: Entry, g: nat, j: nat)
    requires TableAt(phys, f) && i < ENTRIES
    ensures At(SetEntry(phys, f, i, e), g, j) == if g == f && j == i then e else At(phys, g, j)
    ensures TableAt(SetEntry(phys, f, i, e), g) == TableAt(phys, g)
  {
  }

  /** The directory entry paging_map_page leaves for the slot of the page, given the table's frame. */
  function MappedPde(pde: Entry, pt: FrameNo, flags: Flags): Entry {
    if !pde.Present() then Entry(pt, Flags(true, true, flags.user, false, false))
    else pde.(flags := pde.flags.(user := pde.User() || flags.user))
  }

  /** A frame that is no part of the space's directory and tables. */
  ghost predicate Unused(phys: Phys, pd: nat, f: nat) {
    f < FRAMES && f != pd && forall i: nat | i < ENTRIES && At(phys, pd, i).Present() :: At(phys, pd, i).frame != f
  }

  /** pt may serve as a new table, if the slot needs one. */
  ghost predicate PtOk(phys: Phys, pd: nat, page: nat, pt: FrameNo) {
    At(phys, pd, page / ENTRIES).Present() || Unused(phys, pd, pt)
  }

  /** The table the page's entry goes to: the slot's own, or a new one. */
  ghost function TableFor(phys: Phys, pd: nat, page: nat, pt: FrameNo): nat {
    if At(phys, pd, page / ENTRIES).Present() then At(phys, pd, page / ENTRIES).frame else pt
  }

  /** The stores of paging_map_page; pt is the frame of a new table, used when the slot has none. */
  ghost function MapIn(phys: Phys, pd: nat, page: nat, frame: FrameNo, flags: Flags, pt: FrameNo): Phys
    requires Space(phys, pd) && page < FRAMES && PtOk(phys, pd, page, pt)
  {
    var pde := At(phys, pd, page / ENTRIES);
    var phys1: Phys := if pde.Present() then phys else phys[pt := EmptyTable()];
    var phys2 := SetEntry(phys1, pd, page / ENTRIES, MappedPde(pde, pt, flags));
    SetEntry(phys2, TableFor(phys, pd, page, pt), page % ENTRIES, Entry(frame, flags))
  }

  /** Every entry of every table afterwards. */
  lemma MapAt(phys: Phys, pd: nat, page: nat, frame: FrameNo, flags: Flags, pt: FrameNo, g: nat, j: nat)
    requires Space(phys, pd) && page < FRAMES && PtOk(phys, pd, page, pt)
    ensures var pde, phys' := At(phys, pd, page / ENTRIES), MapIn(phys, pd, page, frame, flags, pt);
            && At(phys', g, j) == (if g == pd && j == page / ENTRIES then MappedPde(pde, pt, flags)
                                   else if g == TableFor(phys, pd, page, pt)
                                       && j == page % ENTRIES then Entry(frame, flags)
                                   else if g == pt && !pde.Present() then ABSENT
                                   else At(phys, g, j))
            && (TableAt(phys', g) <==> TableAt(phys, g) || (g == pt && !pde.Present()))
  {
    var pde := At(phys, pd, page / ENTRIES);
    var phys1: Phys := if pde.Present() then phys else phys[pt := EmptyTable()];
    var phys2 := SetEntry(phys1, pd, page / ENTRIES, MappedPde(pde, pt, flags));
    SetEntryAt(phys1, pd, page / ENTRIES, MappedPde(pde, pt, flags), g, j);
    SetEntryAt(phys2, TableFor(phys, pd, page, pt), page % ENTRIES, Entry(frame, flags), g, j);
  }

  lemma MapKeepsSpace(phys: Phys, pd: nat, page: nat, frame: FrameNo, flags: Flags, pt: FrameNo)
    requires Space(phys, pd) && page < FRAMES && PtOk(phys, pd, page, pt)
    ensures Space(MapIn(phys, pd, page, frame, flags, pt), pd)
  {
    hide MapIn, At, TableAt;
    var phys' := MapIn(phys, pd, page, frame, flags, pt);
    forall i: nat
      ensures At(phys', pd, i) == if i == page / ENTRIES then MappedPde(At(phys, pd, i), pt, flags) else At(phys, pd, i)
    {
      MapAt(phys, pd, page, frame, flags, pt, pd, i);
    }
    forall g: nat ensures TableAt(phys, g) ==> TableAt(phys', g) { MapAt(phys, pd, page, frame, flags, pt, g, 0); }
    MapAt(phys, pd, page, frame, flags, pt, pt, 0);
  }

  /** The page itself: the frame, with the flags asked for as far as the directory entry grants writing. */
  lemma MapTranslates(phys: Phys, pd: nat, page: nat, frame: FrameNo, flags: Flags, pt: FrameNo)
    requires Space(phys, pd) && page < FRAMES && PtOk(phys, pd, page, pt)
    ensures var pde := At(phys, pd, page / ENTRIES);
            Translate(MapIn(phys, pd, page, frame, flags, pt), pd, page) ==
            if flags.present then Mapped(frame, flags.user, flags.rw && (pde.Present() ==> pde.Writable()))
                else Unmapped
  {
    hide MapIn, At, TableAt;
    MapAt(phys, pd, page, frame, flags, pt, pd, page / ENTRIES);
    MapAt(phys, pd, page, frame, flags, pt, TableFor(phys, pd, page, pt), page % ENTRIES);
    TableNotPd(phys, pd, page, pt);
  }

  lemma TableNotPd(phys: Phys, pd: nat, page: nat, pt: FrameNo)
    requires Space(phys, pd) && page < FRAMES && PtOk(phys, pd, page, pt)
    ensures TableFor(phys, pd, page, pt) != pd
    ensures forall i: nat | i < ENTRIES && i != page / ENTRIES && At(phys, pd, i).Present() ::
      At(phys, pd, i).frame != TableFor(phys, pd, page, pt)
  {
    hide At, TableAt;
  }

  /** The page gains user access because its directory entry does. */
  ghost predicate GainsUser(phys: Phys, pd: nat, page: nat, flags: Flags, q: nat) {
    var pde := At(phys, pd, page / ENTRIES);
    var pte := At(phys, pde.frame, q % ENTRIES);
    q / ENTRIES == page / ENTRIES && flags.user && pde.Present() && !pde.User() && pte.Present() && pte.User()
  }

  /** Another page keeps its translation and rights exactly when it does not gain user access that way. */
  lemma MapOthersExact(phys: Phys, pd: nat, page: nat, frame: FrameNo, flags: Flags, pt: FrameNo, q: nat)
    requires Space(phys, pd) && page < FRAMES && q < FRAMES && q != page && PtOk(phys, pd, page, pt)
    ensures Translate(MapIn(phys, pd, page, frame, flags, pt), pd, q) == Translate(phys, pd, q) <==>
          !GainsUser(phys, pd, page, flags, q)
  {
    hide MapIn, At, TableAt;
    TableNotPd(phys, pd, page, pt);
    var pde := At(phys, pd, q / ENTRIES);
    MapAt(phys, pd, page, frame, flags, pt, pd, q / ENTRIES);
    MapAt(phys, pd, page, frame, flags, pt, pde.frame, q % ENTRIES);
    if q / ENTRIES == page / ENTRIES {
      assert q % ENTRIES != page % ENTRIES;
      MapAt(phys, pd, page, frame, flags, pt, pt, q % ENTRIES);
    }
  }

  /** Where user pages are reached through user entries only, mapping one page changes no other. */
  lemma MapOthersKept(phys: Phys, pd: nat, page: nat, frame: FrameNo, flags: Flags, pt: FrameNo, q: nat)
    requires Space(phys, pd) && UserClosed(phys, pd) && page < FRAMES && q < FRAMES && q != page
        && PtOk(phys, pd, page, pt)
    ensures Translate(MapIn(phys, pd, page, frame, flags, pt), pd, q) == Translate(phys, pd, q)
  {
    hide MapIn, At, TableAt;
    MapOthersExact(phys, pd, page, frame, flags, pt, q);
    assert UserOnly(At(phys, pd, page / ENTRIES), At(phys, At(phys, pd, page / ENTRIES).frame, q % ENTRIES));
  }

  lemma MapKeepsClosed(phys: Phys, pd: nat, page: nat, frame: FrameNo, flags: Flags, pt: FrameNo)
    requires Space(phys, pd) && UserClosed(phys, pd) && page < FRAMES && PtOk(phys, pd, page, pt)
    ensures UserClosed(MapIn(phys, pd, page, frame, flags, pt), pd)
  {
    hide MapIn, At, TableAt, Unused;
    var phys' := MapIn(phys, pd, page, frame, flags, pt);
    TableNotPd(phys, pd, page, pt);
    forall i: nat, j: nat | i < ENTRIES && j < ENTRIES
        ensures UserOnly(At(phys', pd, i), At(phys', At(phys', pd, i).frame, j)) {
      MapAt(phys, pd, page, frame, flags, pt, pd, i);
      assert UserOnly(At(phys, pd, i), At(phys, At(phys, pd, i).frame, j));
      if At(phys', pd, i).Present() { MapAt(phys, pd, page, frame, flags, pt, At(phys', pd, i).frame, j); }
    }
  }

  /** Another address space is untouched when the table written to is not one of its tables. */
  lemma MapElsewhere(phys: Phys, pd: nat, page: nat, frame: FrameNo, flags: Flags, pt: FrameNo, other: nat, q: nat)
    requires Space(phys, pd) && page < FRAMES && PtOk(phys, pd, page, pt) && Space(phys, other) && other != pd
        && q < FRAMES
    requires Unused(phys, other, TableFor(phys, pd, page, pt))
    requires forall i: nat | i < ENTRIES && At(phys, other, i).Present() :: At(phys, other, i).frame != pd
    ensures Translate(MapIn(phys, pd, page, frame, flags, pt), other, q) == Translate(phys, other, q)
  {
    hide MapIn, At, TableAt;
    var pde := At(phys, other, q / ENTRIES);
    MapAt(phys, pd, page, frame, flags, pt, other, q / ENTRIES);
    MapAt(phys, pd, page, frame, flags, pt, pde.frame, q % ENTRIES);
  }
}
