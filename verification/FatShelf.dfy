/**
 A directory and its files as one abstract value: the names, the order they are listed in, and what each
 name stands for. The effects of create, unlink and a change of one file on it.
 */
module FatShelf {
  import opened Machine
  import opened FatLayout
  import opened FatChain
  import opened FatContent
  import opened FatVolume
  import opened FatFile
  import opened FatStep
  import opened FatWrite
  import opened FatName
  import opened FatSlots
  import opened FatSearch
  import opened FatFolder
  import opened FatIter
  import opened FatFree
  import opened FatEntry
  import opened FatDir
  import opened FatUnlink
  import opened FatOwn

  datatype DirState = DirState(v: View, dir: Folder)

  /** The names with their entries, the entries in the order readdir gives them, and what each real name holds. */
  datatype Shelf = Shelf(names: map<Label, Slot>, order: seq<Slot>, items: map<Label, Item>)

  ghost function SlotsOf(sb: Super, first: u32, s: DirState): seq<Slot>
    requires IsFolder(sb, s.v, first, s.dir)
  {
    Slots(GeoOf(sb), sb.rootEntries, s.v, s.dir)
  }

  /**
   The directory's invariant: it is a directory of the volume, end markers come last, no name is listed twice,
   and every entry but "." and ".." owns a chain apart from the directory's and from all others.
   */
  ghost predicate Sane(sb: Super, first: u32, s: DirState) {
    && IsFolder(sb, s.v, first, s.dir) && DirOk(SlotsOf(sb, first, s))
    && var m := Dir(SlotsOf(sb, first, s)); Owned(GeoOf(sb), s.v, s.dir, m, OwnOf(GeoOf(sb), s.v, m))
  }

  ghost function ShelfOf(sb: Super, first: u32, s: DirState): Shelf
    requires Sane(sb, first, s)
  {
    var slots := SlotsOf(sb, first, s);
    Shelf(Dir(slots), Listing(slots), Items(GeoOf(sb), s.v, s.dir, Dir(slots), OwnOf(GeoOf(sb), s.v, Dir(slots))))
  }

  /** The order lists every name exactly once. */
  ghost predicate Orderly(sh: Shelf) {
    && |sh.order| == |sh.names|
    && (forall j: nat :: j < |sh.order| ==> Key(sh.order[j]) in sh.names && sh.names[Key(sh.order[j])] == sh.order[j])
    && (forall i: nat, j: nat :: i < j < |sh.order| ==> Key(sh.order[i]) != Key(sh.order[j]))
  }

  lemma ShelfOrderly(sb: Super, first: u32, s: DirState)
    requires Sane(sb, first, s)
    ensures Orderly(ShelfOf(sb, first, s))
  {
    hide Key, Listing, Dir, IsFolder, Owned, Slots;
    var slots := SlotsOf(sb, first, s);
    ListingCounts(slots);
    forall j: nat | j < |Listing(slots)| ensures Key(Listing(slots)[j]) in Dir(slots)
        && Dir(slots)[Key(Listing(slots)[j])] == Listing(slots)[j] {
      ListedInDir(slots, j);
    }
  }

  /** Whatever chains witness it, a directory whose entries own their chains is sane, and holds the items of those
      chains. */
  lemma SaneBy(sb: Super, first: u32, s: DirState, m: map<Label, Slot>, own: map<Label, seq<nat>>)
    requires IsFolder(sb, s.v, first, s.dir) && DirOk(SlotsOf(sb, first, s)) && m == Dir(SlotsOf(sb, first, s))
    requires Owned(GeoOf(sb), s.v, s.dir, m, own)
    ensures Sane(sb, first, s) && ShelfOf(sb, first, s).items == Items(GeoOf(sb), s.v, s.dir, m, own)
  {
    hide IsFolder, DirOk, Dir, Listing, Owned, Items, OwnOf, Slots;
    OwnedIsOwn(GeoOf(sb), s.v, s.dir, m, own);
  }

  /** The chain behind a name, [] for a name that is not there. */
  ghost function ChainAt(sb: Super, first: u32, s: DirState, name: seq<byte>): seq<nat> {
    if IsFolder(sb, s.v, first, s.dir) && UpAll(name) in Dir(SlotsOf(sb, first, s)) then
      ChainFrom(GeoOf(sb), s.v.table, FirstOf(Dir(SlotsOf(sb, first, s))[UpAll(name)]))
    else []
  }

  lemma SameFirst(g: Geo, entries: nat, v: View, dir: Folder, v': View, dir': Folder)
    requires Roomed(g, entries, v, dir, v', dir')
    ensures FirstCluster(dir') == FirstCluster(dir)
  {
  }

  /** A create that fails leaves names, order and items alone. */
  lemma MakeFailed(sb: Super, first: u32, s: DirState, name: seq<byte>, isDir: bool, r: Errno, mid: View, s': DirState,
      lba: nat, o: nat, c: u32)
    requires Sane(sb, first, s) && Created(sb, s.v, first, s.dir, name, isDir, r, mid, s'.v, s'.dir, lba, o, c)
        && r != Success
    ensures Sane(sb, first, s') && ShelfOf(sb, first, s') == ShelfOf(sb, first, s)
    ensures r == AlreadyExists ==> UpAll(name) in ShelfOf(sb, first, s).names
  {
    hide Dir, DirOk, Slots, FolderOk, UpAll, Idle, Roomed, Added, Fits83, Listing, Owned, Items, OwnOf;
    var g, e := GeoOf(sb), sb.rootEntries;
    var m := Dir(SlotsOf(sb, first, s));
    var own := OwnOf(g, s.v, m);
    SameFirst(g, e, s.v, s.dir, mid, s'.dir);
    OwnedRoom(g, e, s.v, s.dir, mid, s'.dir, m, own);
    OwnedIdle(g, mid, s'.v, s'.dir, m, own);
    SaneBy(sb, first, s', m, own);
  }

  /** The new entry's chain: the one cluster of a new directory, or none. */
  lemma NewEntryOk(g: Geo, entries: nat, v: View, dir: Folder, i: nat, spot: Spot, isDir: bool, c: nat, buf: seq<byte>,
      s: Slot, v': View)
    requires Entered(g, entries, v, dir, i, spot, isDir, c, buf, s, v') && FirstOf(s) == c && SizeOf(s) == 0
        && IsDirectory(s) == isDir
    requires isDir ==> v.table[c] == 0
    requires !isDir ==> c == 0
    ensures HomeIn(dir, At(spot)) && EntryOk(g, v', dir, s, NewFile(isDir, c).chain)
    ensures ItemOf(g, v', dir, s, NewFile(isDir, c).chain) == if isDir then SubDir(Chop(buf)) else Data([])
  {
    hide FirstOf, SizeOf, Slots, SlotAt, Chop, Bytes;
    SlotHome(g, entries, v', dir, i, spot);
    if isDir {
      FolderApart(g, entries, v, dir, c);
      assert ChainSlots(g, v'.data, [c][1..]) == [];
      assert [c][0] == c;
    }
  }

  lemma EnteredStep(g: Geo, entries: nat, v: View, dir: Folder, i: nat, spot: Spot, isDir: bool, c: nat, buf: seq<byte>,
      s: Slot, v': View)
    requires Entered(g, entries, v, dir, i, spot, isDir, c, buf, s, v')
    ensures FileStep(g, v, EMPTY, v', NewFile(isDir, c), At(spot)) && FolderOk(g, entries, v, dir)
        && FolderOk(g, entries, v', dir)
    ensures i < |Slots(g, entries, v, dir)| && Slots(g, entries, v', dir) == Slots(g, entries, v, dir)[i := s]
  {
    hide FileStep, Slots, FolderOk;
  }

  lemma RealName(name: seq<byte>)
    requires Fits83(name)
    ensures NotDot(UpAll(name))
  {
    hide Base;
    assert Base(name)[0] == name[0] && Legal(Base(name)[0]);
    LegalKept(name[0]);
    assert UpAll(name)[0] == Up(name[0]);
  }

  /** The entries' chains after a create: the old ones, and the new entry's. */
  lemma MakeOwned(sb: Super, first: u32, s: DirState, name: seq<byte>, isDir: bool, mid: View, s': DirState, lba: nat,
      o: nat, c: u32,
                  m: map<Label, Slot>, own: map<Label, seq<nat>>)
    requires Owned(GeoOf(sb), s.v, s.dir, m, own) && Roomed(GeoOf(sb), sb.rootEntries, s.v, s.dir, mid, s'.dir)
    requires Fits83(name) && UpAll(name) !in m
    requires exists slots: seq<Slot>, slots': seq<Slot> ::
          Added(sb, first, name, isDir, mid, s'.dir, lba, o, c, s'.v, slots, slots')
    ensures 2 * SLOT <= sb.ClusterSize()
    ensures var e0, own' := NewSlot(Packed(name), Attr(isDir), c), own[UpAll(name) := NewFile(isDir, c).chain];
            && Owned(GeoOf(sb), s'.v, s'.dir, m[UpAll(name) := e0], own')
            && Items(GeoOf(sb), s'.v, s'.dir, m[UpAll(name) := e0], own') ==
                Items(GeoOf(sb), s.v, s.dir, m, own)[UpAll(name) :=
                 if isDir then SubDir(Chop(DotCluster(c, first, sb.ClusterSize()))) else Data([])]
  {
    hide Slots, UpAll, Entered, Packed, NewSlot, Shown, SizeOf, FirstOf, HoldsEntries, Key, SpotOf, DotCluster, Dir,
        DirOk, StoredKey,
      FirstFree, Roomed, Fits83, IsDirectory, Owned, Items, ItemOf, EntryOk, FileStep, FolderOk, NotDot, HomeIn, Chop;
    var g, e, k := GeoOf(sb), sb.rootEntries, UpAll(name);
    var slots: seq<Slot>, slots': seq<Slot> :| Added(sb, first, name, isDir, mid, s'.dir, lba, o, c, s'.v, slots,
        slots');
    var e0, buf := NewSlot(Packed(name), Attr(isDir), c), DotCluster(c, first, sb.ClusterSize());
    var i, spot := FirstFree(Slots(g, e, mid, s'.dir)), SpotOf(sb, lba, o);
    RealName(name);
    OwnedRoom(g, e, s.v, s.dir, mid, s'.dir, m, own);
    EnteredStep(g, e, mid, s'.dir, i, spot, isDir, c, buf, e0, s'.v);
    NewEntryOk(g, e, mid, s'.dir, i, spot, isDir, c, buf, e0, s'.v);
    OwnedStep(g, mid, s'.dir, m, own, k, EMPTY, s'.v, NewFile(isDir, c), At(spot));
    assert m - {k} == m;
    assert Items(g, mid, s'.dir, m, own) - {k} ==
        Items(g, mid, s'.dir, m, own) by { NoItem(g, mid, s'.dir, m, own, k); }
    OwnedAdd(g, s'.v, s'.dir, m, own, k, e0, NewFile(isDir, c).chain);
  }

  lemma NoItem(g: Geo, v: View, dir: Folder, m: map<Label, Slot>, own: map<Label, seq<nat>>, k: Label)
    requires Owned(g, v, dir, m, own) && k !in m
    ensures k !in Items(g, v, dir, m, own) && Items(g, v, dir, m, own) - {k} == Items(g, v, dir, m, own)
  {
  }

  /** One entry more, somewhere in the order. */
  ghost predicate Inserted(a: seq<Slot>, s: Slot, b: seq<Slot>) {
    exists k: nat :: k <= |a| && b == a[..k] + [s] + a[k..]
  }

  ghost predicate Dropped(a: seq<Slot>, s: Slot, b: seq<Slot>) {
    exists k: nat :: k < |a| && a[k] == s && b == a[..k] + a[k + 1..]
  }

  ghost predicate Replaced(a: seq<Slot>, s: Slot, s': Slot, b: seq<Slot>) {
    exists k: nat :: k < |a| && a[k] == s && b == a[k := s']
  }

  lemma MakeOrder(sb: Super, first: u32, name: seq<byte>, isDir: bool, s: DirState, mid: View, s': DirState, lba: nat,
      o: nat, c: u32)
    requires IsFolder(sb, s.v, first, s.dir) && DirOk(SlotsOf(sb, first, s)) && IsFolder(sb, s'.v, first, s'.dir)
    requires Roomed(GeoOf(sb), sb.rootEntries, s.v, s.dir, mid, s'.dir)
    requires Added(sb, first, name, isDir, mid, s'.dir, lba, o, c, s'.v, SlotsOf(sb, first, s), SlotsOf(sb, first, s'))
    ensures Fits83(name) && Inserted(Listing(SlotsOf(sb, first, s)), NewSlot(Packed(name), Attr(isDir), c),
        Listing(SlotsOf(sb, first, s')))
  {
    hide Slots, UpAll, Entered, Packed, NewSlot, Shown, SizeOf, FirstOf, HoldsEntries, Key, SpotOf, DotCluster, Dir,
        StoredKey,
      FirstFree, Roomed, Fits83, IsDirectory, FileStep, FolderOk, Listing, Unique;
    var g, e := GeoOf(sb), sb.rootEntries;
    var e0, buf := NewSlot(Packed(name), Attr(isDir), c), DotCluster(c, first, sb.ClusterSize());
    RoomedSame(g, e, s.v, s.dir, mid, s'.dir);
    var a := Slots(g, e, mid, s'.dir);
    EnteredStep(g, e, mid, s'.dir, FirstFree(a), SpotOf(sb, lba, o), isDir, c, buf, e0, s'.v);
    var k := CreateListing(a, FirstFree(a), e0);
  }

  /** A successful create: one name more, listed somewhere, an empty file or a directory with its two dots. */
  lemma MakeDone(sb: Super, first: u32, s: DirState, name: seq<byte>, isDir: bool, mid: View, s': DirState, lba: nat,
      o: nat, c: u32)
    requires Sane(sb, first, s) && Created(sb, s.v, first, s.dir, name, isDir, Success, mid, s'.v, s'.dir, lba, o, c)
    requires Fits83(name) ==> name[|name| - 1] != DOT
    ensures Sane(sb, first, s') && Fits83(name) && UpAll(name) !in ShelfOf(sb, first, s).names
        && 2 * SLOT <= sb.ClusterSize()
    ensures var e0, a, b := NewSlot(Packed(name), Attr(isDir), c), ShelfOf(sb, first, s), ShelfOf(sb, first, s');
            && b.names == a.names[UpAll(name) := e0] && Inserted(a.order, e0, b.order)
            && b.items == a.items[UpAll(name) := if isDir then SubDir(Chop(DotCluster(c, first, sb.ClusterSize())))
                else Data([])]
            && IsDirectory(e0) == isDir && SizeOf(e0) == 0 && FirstOf(e0) == c
  {
    hide Dir, DirOk, Slots, FolderOk, UpAll, Entered, Packed, NewSlot, Shown, SizeOf, FirstOf, HoldsEntries, Key,
        SpotOf, DotCluster,
      Listing, FirstFree, Roomed, Fits83, IsDirectory, Owned, Items, OwnOf, Chop, Inserted, StoredKey;
    var g := GeoOf(sb);
    var m := Dir(SlotsOf(sb, first, s));
    if Fits83(name) { StoredKeyIs(name); }
    SameFirst(g, sb.rootEntries, s.v, s.dir, mid, s'.dir);
    MakeOrder(sb, first, name, isDir, s, mid, s', lba, o, c);
    MakeOwned(sb, first, s, name, isDir, mid, s', lba, o, c, m, OwnOf(g, s.v, m));
    SaneBy(sb, first, s', m[UpAll(name) := NewSlot(Packed(name), Attr(isDir), c)],
        OwnOf(g, s.v, m)[UpAll(name) := NewFile(isDir, c).chain]);
  }

  /** A sane directory may unlink any name but its dots. */
  lemma SaneUnlinkable(sb: Super, first: u32, s: DirState, name: seq<byte>)
    requires Sane(sb, first, s) && NotDot(UpAll(name))
    ensures var chain := ChainAt(sb, first, s, name);
          Unlinkable(sb, s.v, first, s.dir, name, chain, Sub(chain)) && Clear(s.dir, chain)
    ensures var m, chain := ShelfOf(sb, first, s).names, ChainAt(sb, first, s, name);
            UpAll(name) in m ==>
              && EntryOk(GeoOf(sb), s.v, s.dir, m[UpAll(name)], chain) && OwnOf(GeoOf(sb), s.v, m)[UpAll(name)] == chain
              && ShelfOf(sb, first, s).items[UpAll(name)] == ItemOf(GeoOf(sb), s.v, s.dir, m[UpAll(name)], chain)
  {
    hide Dir, DirOk, Slots, UpAll, FirstOf, SizeOf, ChainFrom, IsDirectory, IsChain, Bytes, Listing, NotDot;
    var m := Dir(SlotsOf(sb, first, s));
    if UpAll(name) in m { DirectoryEntry(sb, s.v, s.dir, m[UpAll(name)], ChainAt(sb, first, s, name)); }
  }

  lemma DirectoryEntry(sb: Super, v: View, dir: Folder, s: Slot, chain: seq<nat>)
    requires EntryOk(GeoOf(sb), v, dir, s, chain)
    ensures IsDirectory(s) ==> IsFolder(sb, v, FirstOf(s), Sub(chain))
  {
    hide FirstOf, SizeOf, Bytes;
  }

  /** After the entry at place i is marked: the chains of the others, and the order. */
  lemma RemoveOwned(g: Geo, e: nat, v: View, dir: Folder, k: Label, i: nat, spot: Spot, chain: seq<nat>, v': View,
                    m: map<Label, Slot>, own: map<Label, seq<nat>>)
    requires FolderOk(g, e, v, dir) && k in Dir(Slots(g, e, v, dir)) && RemovedAt(g, e, v, dir, k, i, spot, chain, v')
    requires Owned(g, v, dir, m, own) && NotDot(k) && k in m && own[k] == chain
    ensures Owned(g, v', dir, m - {k}, own) && Items(g, v', dir, m - {k}, own) == Items(g, v, dir, m, own) - {k}
    ensures FolderOk(g, e, v', dir) && Dropped(Listing(Slots(g, e, v, dir)), Dir(Slots(g, e, v, dir))[k],
        Listing(Slots(g, e, v', dir)))
  {
    hide Slots, FolderOk, SlotAt, FileStep, Items, EntryOk, FirstOf, Listing, Dir, Visible;
    SlotHome(g, e, v, dir, i, spot);
    var s := Slots(g, e, v, dir)[i];
    OwnedStep(g, v, dir, m, own, k, File(FirstOf(s), 0, chain), v', EMPTY, At(spot));
    var j := UnlinkListing(Slots(g, e, v, dir), i);
  }

  /** A successful unlink: one name fewer, and what it stood for; a directory goes only when it is empty. */
  lemma RemoveDone(sb: Super, first: u32, s: DirState, name: seq<byte>, s': DirState)
    requires Sane(sb, first, s) && NotDot(UpAll(name)) && s'.dir == s.dir
    requires var chain := ChainAt(sb, first, s, name);
        Unlinked(sb, s.v, first, s.dir, name, chain, Sub(chain), Success, s'.v)
    ensures Sane(sb, first, s') && UpAll(name) in ShelfOf(sb, first, s).names
        && UpAll(name) in ShelfOf(sb, first, s).items
    ensures var k, a, b := UpAll(name), ShelfOf(sb, first, s), ShelfOf(sb, first, s');
            && b.names == a.names - {k} && b.items == a.items - {k} && Dropped(a.order, a.names[k], b.order)
            && (a.items[k].SubDir? ==> OnlyDots(a.items[k].slots))
  {
    hide Dir, DirOk, Slots, UpAll, FirstOf, SizeOf, ChainFrom, ChainAt, IsDirectory, IsChain, Listing, NotDot, Owned,
        Items, OwnOf,
      Dropped, RemovedAt, EntryOk, Unlinkable, FolderOk, OnlyDots, Marked;
    var g, e, k, chain := GeoOf(sb), sb.rootEntries, UpAll(name), ChainAt(sb, first, s, name);
    var m := Dir(SlotsOf(sb, first, s));
    SaneUnlinkable(sb, first, s, name);
    var i: nat, spot: Spot :| RemovedAt(g, e, s.v, s.dir, k, i, spot, chain, s'.v);
    RemoveOwned(g, e, s.v, s.dir, k, i, spot, chain, s'.v, m, OwnOf(g, s.v, m));
    SaneBy(sb, first, s', m - {k}, OwnOf(g, s.v, m));
    ItemKind(sb, s.v, s.dir, m[k], chain);
    ItemIn(g, s.v, s.dir, m, OwnOf(g, s.v, m), k);
  }

  lemma ItemIn(g: Geo, v: View, dir: Folder, m: map<Label, Slot>, own: map<Label, seq<nat>>, k: Label)
    requires Owned(g, v, dir, m, own) && k in m && NotDot(k)
    ensures k in Items(g, v, dir, m, own)
  {
  }

  lemma ItemKind(sb: Super, v: View, dir: Folder, s: Slot, chain: seq<nat>)
    requires EntryOk(GeoOf(sb), v, dir, s, chain)
    ensures ItemOf(GeoOf(sb), v, dir, s, chain).SubDir? <==> IsDirectory(s)
    ensures IsDirectory(s) ==>
      && FolderOk(GeoOf(sb), sb.rootEntries, v, Sub(chain))
      && (IsEmpty(sb, v, Sub(chain)) <==> OnlyDots(ItemOf(GeoOf(sb), v, dir, s, chain).slots))
  {
    hide FirstOf, SizeOf, Bytes, ChainSlots, OnlyDots;
    DirectoryEntry(sb, v, dir, s, chain);
  }

  /** An unlink that fails changes nothing, and says why. */
  lemma RemoveFailed(sb: Super, first: u32, s: DirState, name: seq<byte>, r: Errno, s': DirState)
    requires Sane(sb, first, s) && NotDot(UpAll(name)) && s'.dir == s.dir && r != Success
    requires var chain := ChainAt(sb, first, s, name); Unlinked(sb, s.v, first, s.dir, name, chain, Sub(chain), r, s'.v)
    ensures s' == s
    ensures r == NotFound ==> UpAll(name) !in ShelfOf(sb, first, s).names
    ensures r == DirectoryNotEmpty ==>
          var k, a := UpAll(name), ShelfOf(sb, first, s);
            k in a.names && k in a.items && a.items[k].SubDir? && !OnlyDots(a.items[k].slots)
    ensures r in {NotFound, DirectoryNotEmpty, OutOfMemory}
  {
    hide Dir, DirOk, Slots, UpAll, FirstOf, SizeOf, ChainFrom, ChainAt, IsDirectory, IsChain, Listing, NotDot, Owned,
        Items, OwnOf,
      EntryOk, Unlinkable, FolderOk, OnlyDots, Marked;
    var g, k, chain := GeoOf(sb), UpAll(name), ChainAt(sb, first, s, name);
    var m := Dir(SlotsOf(sb, first, s));
    SaneUnlinkable(sb, first, s, name);
    if k in m {
      ItemKind(sb, s.v, s.dir, m[k], chain);
      ItemIn(g, s.v, s.dir, m, OwnOf(g, s.v, m), k);
    }
  }

  /** The file a lookup's node describes, with the chain the table has for it. */
  ghost function FileAt(sb: Super, v: View, slot: Slot): File {
    File(FirstOf(slot), SizeOf(slot), ChainFrom(GeoOf(sb), v.table, FirstOf(slot)))
  }

  /** Slot i of the directory is the entry of the file k, at the spot. */
  ghost predicate FileIn(sb: Super, first: u32, s: DirState, k: Label, slot: Slot, i: nat, spot: Spot) {
    && Sane(sb, first, s) && NotDot(k) && Visible(SlotsOf(sb, first, s), i) && SlotsOf(sb, first, s)[i] == slot
        && Key(slot) == k
    && k in ShelfOf(sb, first, s).names && ShelfOf(sb, first, s).names[k] == slot && !IsDirectory(slot)
    && SlotAt(GeoOf(sb), sb.rootEntries, s.v, s.dir, i, spot)
  }

  lemma FoundFile(sb: Super, first: u32, s: DirState, name: seq<byte>, h: Found) returns (i: nat)
    requires Sane(sb, first, s) && LookedUp(sb, s.v, first, s.dir, name, Success, h) && !IsDirectory(h.slot)
    ensures HoldsEntries(sb, h.lba) && FileIn(sb, first, s, UpAll(name), h.slot, i, SpotOf(sb, h.lba, h.offset))
  {
    hide Dir, DirOk, Slots, UpAll, Key, FirstOf, ChainFrom, IsDirectory, Listing, NotDot, EntryOk, FolderOk, SpotOf,
        HoldsEntries, SlotAt, Items, OwnOf;
    var slots := SlotsOf(sb, first, s);
    i :| Visible(slots, i) && FoundAt(sb, GeoOf(sb), sb.rootEntries, s.v, s.dir, i, h);
    DirIsListing(slots, UpAll(name));
  }

  /** What is known of the file before it changes. */
  lemma FileSound(sb: Super, first: u32, s: DirState, k: Label, slot: Slot, i: nat, spot: Spot)
    requires FileIn(sb, first, s, k, slot, i, spot)
    ensures var g, f := GeoOf(sb), FileAt(sb, s.v, slot);
            && FileOk(g, s.v, f, At(spot)) && Holds(s.v, spot, SLOT) && Peek(s.v, spot, SLOT) == slot
            && EntryOk(g, s.v, s.dir, slot, f.chain) && OwnOf(g, s.v, ShelfOf(sb, first, s).names)[k] == f.chain
                && HomeIn(s.dir, At(spot))
            && k in ShelfOf(sb, first, s).items && ShelfOf(sb, first, s).items[k] == Data(Content(g, s.v, f))
  {
    hide Dir, DirOk, Slots, Key, FirstOf, SizeOf, ChainFrom, Listing, NotDot, SlotAt, Visible, IsChain, Bytes,
        IsDirectory;
    SlotHome(GeoOf(sb), sb.rootEntries, s.v, s.dir, i, spot);
    SlotWritten(GeoOf(sb), sb.rootEntries, s.v, s.dir, i, spot, slot);
  }

  /** The chain the entry leads to afterwards: the file's, or none while the entry does not know of a first cluster
      yet. */
  ghost function EntryChainAfter(slot: Slot, f: File): seq<nat> { if FirstOf(slot) == f.first then f.chain else [] }

  lemma NotedEntry(g: Geo, v: View, dir: Folder, slot: Slot, f: File, v': View, f': File, spot: Spot)
    requires EntryOk(g, v, dir, slot, f.chain) && !IsDirectory(slot) && f.first == FirstOf(slot)
        && f.size == SizeOf(slot)
    requires Holds(v, spot, SLOT) && Peek(v, spot, SLOT) == slot
    requires FileStep(g, v, f, v', f', At(spot)) && Noted(v, f, v', f', At(spot))
        && (dir.Sub? ==> Disjoint(f'.chain, dir.chain))
    ensures Holds(v', spot, SLOT)
    ensures var slot': Slot := Peek(v', spot, SLOT);
            && slot'[..20] == slot[..20] && EntryOk(g, v', dir, slot', EntryChainAfter(slot', f'))
                && SizeOf(slot') == f'.size && !IsDirectory(slot')
            && ItemOf(g, v', dir, slot', EntryChainAfter(slot', f')) == Data(Content(g, v', f'))
  {
    hide FirstOf, SizeOf, ChainSlots;
    var slot': Slot := Peek(v', spot, SLOT);
    assert slot'[11] == slot'[..20][11] == slot[..20][11] == slot[11];
  }

  /** The same title is the same name, of the same kind. */
  lemma SameTitleSlot(s: Slot, s': Slot)
    requires s'[..20] == s[..20]
    ensures Name(s') == Name(s) && Key(s') == Key(s) && (Shown(s') <==> Shown(s))
  {
    assert s'[..11] == s'[..20][..11] == s[..20][..11] == s[..11];
    assert s'[0] == s'[..20][0] && s[0] == s[..20][0] && s'[11] == s'[..20][11] && s[11] == s[..20][11];
  }

  /** One file changed: its entry has the new size under the same name, it holds the new bytes, and all else is as it
      was. */
  ghost predicate Changed(a: Shelf, k: Label, bytes: seq<byte>, b: Shelf) {
    && k in a.names && k in b.names && b.names == a.names[k := b.names[k]] && b.items == a.items[k := Data(bytes)]
    && Name(b.names[k]) == Name(a.names[k]) && !IsDirectory(b.names[k]) && SizeOf(b.names[k]) == |bytes|
    && Replaced(a.order, a.names[k], b.names[k], b.order)
  }

  lemma ChangedSlots(sb: Super, first: u32, s: DirState, k: Label, slot: Slot, i: nat, spot: Spot, slot': Slot,
      s': DirState)
    requires FileIn(sb, first, s, k, slot, i, spot) && slot'[..20] == slot[..20]
    requires IsFolder(sb, s'.v, first, s'.dir) && SlotsOf(sb, first, s') == SlotsOf(sb, first, s)[i := slot']
    ensures DirOk(SlotsOf(sb, first, s')) && Dir(SlotsOf(sb, first, s')) == Dir(SlotsOf(sb, first, s))[k := slot']
        && Name(slot') == Name(slot)
    ensures Replaced(Listing(SlotsOf(sb, first, s)), slot, slot', Listing(SlotsOf(sb, first, s')))
  {
    hide Dir, Slots, Key, FirstOf, SizeOf, ChainFrom, Listing, NotDot, SlotAt, IsDirectory, IsFolder, Owned, Items,
        OwnOf, Name, Terminated, Unique, Shown, Ends;
    SameTitleSlot(slot, slot');
    var slots := SlotsOf(sb, first, s);
    ReplaceOk(slots, i, slot');
    ReplaceDir(slots, i, slot');
    var j := ReplaceListing(slots, i, slot');
  }

  lemma ChangedOwned(sb: Super, first: u32, s: DirState, k: Label, slot: Slot, i: nat, spot: Spot, v': View, f': File)
    requires FileIn(sb, first, s, k, slot, i, spot)
    requires var f := FileAt(sb, s.v, slot);
          FileStep(GeoOf(sb), s.v, f, v', f', At(spot)) && Noted(s.v, f, v', f', At(spot))
    ensures Holds(v', spot, SLOT) && IsFolder(sb, v', first, s.dir)
    ensures var slot': Slot := Peek(v', spot, SLOT);
            && slot'[..20] == slot[..20] && !IsDirectory(slot') && SizeOf(slot') == f'.size
            && SlotsOf(sb, first, DirState(v', s.dir)) == SlotsOf(sb, first, s)[i := slot']
            && var g, m, own := GeoOf(sb), ShelfOf(sb, first, s).names[k := slot'],
                OwnOf(GeoOf(sb), s.v, ShelfOf(sb, first, s).names)[k := EntryChainAfter(slot', f')];
            Owned(g, v', s.dir, m, own) && Items(g, v', s.dir, m, own) ==
                ShelfOf(sb, first, s).items[k := Data(Content(g, v', f'))]
  {
    hide Dir, DirOk, Slots, Key, FirstOf, SizeOf, ChainFrom, Listing, NotDot, SlotAt, Visible, IsDirectory, Items,
        OwnOf, FileStep, Noted,
      ItemOf, EntryOk, Content, EntryChainAfter, FileOk, Holds, Peek, FolderOk;
    var g, f := GeoOf(sb), FileAt(sb, s.v, slot);
    var m := ShelfOf(sb, first, s).names;
    var own := OwnOf(g, s.v, m);
    StepFile(g, s.v, f, v', f', At(spot));
    FileSound(sb, first, s, k, slot, i, spot);
    EntryApart(g, s.v, s.dir, slot, f.chain);
    StepSlots(g, sb.rootEntries, s.v, s.dir, i, spot, f, v', f');
    NotedEntry(g, s.v, s.dir, slot, f, v', f', spot);
    var slot': Slot := Peek(v', spot, SLOT);
    OwnedStep(g, s.v, s.dir, m, own, k, f, v', f', At(spot));
    AfterAlone(m, own, k, slot', f');
    OwnedAdd(g, v', s.dir, m - {k}, own, k, slot', EntryChainAfter(slot', f'));
    assert (m - {k})[k := slot'] == m[k := slot'];
    var items := ShelfOf(sb, first, s).items;
    assert (items - {k})[k := Data(Content(g, v', f'))] == items[k := Data(Content(g, v', f'))];
  }

  lemma EntryApart(g: Geo, v: View, dir: Folder, s: Slot, chain: seq<nat>)
    requires EntryOk(g, v, dir, s, chain)
    ensures dir.Sub? ==> Disjoint(chain, dir.chain)
  {
  }

  lemma AfterAlone(m: map<Label, Slot>, own: map<Label, seq<nat>>, k: Label, slot: Slot, f: File)
    requires Alone(m, own, k, f.chain)
    ensures Alone(m - {k}, own, k, EntryChainAfter(slot, f))
  {
  }

  lemma FileChanged(sb: Super, first: u32, s: DirState, k: Label, slot: Slot, i: nat, spot: Spot, v': View, f': File)
    requires FileIn(sb, first, s, k, slot, i, spot)
    requires var f := FileAt(sb, s.v, slot);
          FileStep(GeoOf(sb), s.v, f, v', f', At(spot)) && Noted(s.v, f, v', f', At(spot))
    ensures Sane(sb, first, DirState(v', s.dir))
    ensures Sized(GeoOf(sb), v'.data) && InRange(GeoOf(sb), f'.chain)
        && f'.size <= |Bytes(GeoOf(sb), v'.data, f'.chain)|
    ensures Changed(ShelfOf(sb, first, s), k, Content(GeoOf(sb), v', f'), ShelfOf(sb, first, DirState(v', s.dir)))
  {
    hide Dir, DirOk, Slots, Key, FirstOf, SizeOf, ChainFrom, Listing, NotDot, SlotAt, Visible, IsDirectory, Items,
        OwnOf, Owned, FileStep, Noted,
      EntryChainAfter, Holds, Peek, IsFolder, Name, Replaced, FileIn, Content;
    ChangedOwned(sb, first, s, k, slot, i, spot, v', f');
    StepFile(GeoOf(sb), s.v, FileAt(sb, s.v, slot), v', f', At(spot));
    var slot', s' := Peek(v', spot, SLOT), DirState(v', s.dir);
    ChangedSlots(sb, first, s, k, slot, i, spot, slot', s');
    FileInSane(sb, first, s, k, slot, i, spot);
    var g, m := GeoOf(sb), ShelfOf(sb, first, s).names;
    SaneBy(sb, first, s', m[k := slot'], OwnOf(g, s.v, m)[k := EntryChainAfter(slot', f')]);
  }

  lemma FileInSane(sb: Super, first: u32, s: DirState, k: Label, slot: Slot, i: nat, spot: Spot)
    requires FileIn(sb, first, s, k, slot, i, spot)
    ensures Sane(sb, first, s) && k in ShelfOf(sb, first, s).names && ShelfOf(sb, first, s).names[k] == slot
  {
  }

  lemma StepFile(g: Geo, v: View, f: File, v': View, f': File, home: Home)
    requires FileStep(g, v, f, v', f', home)
    ensures Sized(g, v'.data) && InRange(g, f'.chain) && f'.size <= |Bytes(g, v'.data, f'.chain)|
  {
  }

  /** A directory of end markers is where a run can start: no names, nothing listed, nothing held. */
  lemma BlankIsSane(sb: Super, first: u32, s: DirState)
    requires IsFolder(sb, s.v, first, s.dir) && forall i ::
          0 <= i < |SlotsOf(sb, first, s)| ==> Ends(SlotsOf(sb, first, s)[i])
    ensures Sane(sb, first, s) && ShelfOf(sb, first, s) == Shelf(map[], [], map[])
  {
    hide IsFolder, Slots;
    var slots := SlotsOf(sb, first, s);
    assert slots == [] || Ends(slots[0]);
    assert Dir(slots) == map[] && Listing(slots) == [];
  }

  /** A directory that create made is itself a sane directory, listing itself and its parent. */
  lemma NewDirIsSane(sb: Super, first: u32, v: View, dir: Folder, slot: Slot, c: u32)
    requires EntryOk(GeoOf(sb), v, dir, slot, [c]) && 2 * SLOT <= sb.ClusterSize()
    requires v.data[c] == DotCluster(c, first, sb.ClusterSize())
    ensures Sane(sb, c, DirState(v, Sub([c]))) && ShelfOf(sb, c, DirState(v, Sub([c]))).items == map[]
    ensures ShelfOf(sb, c, DirState(v, Sub([c]))).names.Keys == {UpAll([DOT]), UpAll([DOT, DOT])}
  {
    hide FirstOf, SizeOf, Bytes, DotCluster, Chop, UpAll, Name;
    var g, s := GeoOf(sb), DirState(v, Sub([c]));
    var slots := Chop(v.data[c]);
    assert ChainSlots(g, v.data, [c][1..]) == [] && [c][0] == c;
    assert SlotsOf(sb, c, s) == slots;
    NewFolder(c, first, sb.ClusterSize());
    DotDirs(c, first, sb.ClusterSize());
    TwoNames(slots);
    SaneBy(sb, c, s, Dir(slots), map[]);
  }

  lemma DotDirs(self: u32, parent: u32, cs: nat)
    requires 2 * SLOT <= cs
    ensures var slots := Chop(DotCluster(self, parent, cs));
          |slots| >= 2 && IsDirectory(slots[0]) && IsDirectory(slots[1])
  {
    hide NewSlot, DotCluster, Chop;
    DotSlots(self, parent, cs);
    NewSlotReads(DOT_NAME, ATTR_DIR, self);
    NewSlotReads(DOTDOT_NAME, ATTR_DIR, parent);
  }

  /** Two listed entries, the dots, are the whole map. */
  lemma TwoNames(slots: seq<Slot>)
    requires |slots| >= 2 && Listing(slots) == [slots[0], slots[1]] && Name(slots[0]) == [DOT]
        && Name(slots[1]) == [DOT, DOT]
    requires IsDirectory(slots[0]) && IsDirectory(slots[1])
    ensures Dir(slots).Keys == {UpAll([DOT]), UpAll([DOT, DOT])} && !NotDot(UpAll([DOT])) && !NotDot(UpAll([DOT, DOT]))
    ensures forall k :: k in Dir(slots) ==> IsDirectory(Dir(slots)[k])
  {
    hide Dir, Listing, Name, UpAll, IsDirectory, NotDot;
    DotKeys();
    var m := Dir(slots);
    forall k
      ensures k in m <==> k == UpAll([DOT]) || k == UpAll([DOT, DOT])
      ensures k in m ==> IsDirectory(m[k])
    {
      TwoNamed(slots, k);
    }
    assert m.Keys == {UpAll([DOT]), UpAll([DOT, DOT])};
  }

  lemma TwoNamed(slots: seq<Slot>, k: Label)
    requires |slots| >= 2 && Listing(slots) == [slots[0], slots[1]]
    ensures k in Dir(slots) <==> k == Key(slots[0]) || k == Key(slots[1])
    ensures k in Dir(slots) ==> Dir(slots)[k] == slots[0] || Dir(slots)[k] == slots[1]
  {
    hide Dir, Key;
    DirIsListing(slots, k);
    var l := Listing(slots);
    assert l[0] == slots[0] && l[1] == slots[1] && |l| == 2;
  }

  lemma DotKeys()
    ensures UpAll([DOT]) == [DOT] && UpAll([DOT, DOT]) == [DOT, DOT] && !NotDot([DOT]) && !NotDot([DOT, DOT])
  {
  }
}
