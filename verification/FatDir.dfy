/** What one new or changed directory entry does to a folder: the steps fat_create_vn and fat_unlink_vn are made of. */
module FatDir {
  import opened Machine
  import opened FatLayout
  import opened FatChain
  import opened FatContent
  import opened FatVolume
  import opened FatFile
  import opened FatStep
  import opened FatTruncate
  import opened FatName
  import opened FatSlots
  import opened FatSearch
  import opened FatFolder
  import opened FatIter
  import opened FatFree
  import opened FatEntry

  const EMPTY := File(0, 0, [])

  /** A directory whose clusters, or whose root region, did not change is the directory it was. */
  lemma FolderFramed(g: Geo, entries: nat, v: View, v': View, dir: Folder)
    requires FolderOk(g, entries, v, dir) && Shaped(g, v')
    requires dir.Root? ==> v'.root == v.root
    requires dir.Sub? ==>
          forall c :: c in dir.chain ==> c < g.limit && v'.table[c] == v.table[c] && v'.data[c] == v.data[c]
    ensures FolderOk(g, entries, v', dir) && Slots(g, entries, v', dir) == Slots(g, entries, v, dir)
  {
    if dir.Sub? {
      ChainFramed(g, v.table, v'.table, dir.chain[0], dir.chain);
      ChainSlotsFramed(g, v.data, v'.data, dir.chain);
    }
  }

  lemma SlotAtFramed(g: Geo, entries: nat, v: View, v': View, dir: Folder, i: nat, spot: Spot)
    requires FolderOk(g, entries, v, dir) && FolderOk(g, entries, v', dir) && SlotAt(g, entries, v, dir, i, spot)
    requires dir.Sub? ==> forall c :: c in dir.chain ==> c < g.limit && v'.data[c] == v.data[c]
    ensures SlotAt(g, entries, v', dir, i, spot)
  {
    if dir.Sub? {
      var q: nat, k: nat :| InSub(g, v, dir.chain, i, spot, q, k);
      ChainSlotsFramed(g, v.data, v'.data, dir.chain[..q]);
      assert InSub(g, v', dir.chain, i, spot, q, k);
    }
  }

  /** Writing a slot does not move it. */
  lemma SlotStays(g: Geo, entries: nat, v: View, dir: Folder, i: nat, spot: Spot, s: Slot)
    requires FolderOk(g, entries, v, dir) && SlotAt(g, entries, v, dir, i, spot)
    ensures Holds(v, spot, SLOT) && FolderOk(g, entries, Poke(v, spot, s), dir)
        && SlotAt(g, entries, Poke(v, spot, s), dir, i, spot)
  {
    SlotWritten(g, entries, v, dir, i, spot, s);
    if dir.Sub? {
      var v' := Poke(v, spot, s);
      var q: nat, k: nat :| InSub(g, v, dir.chain, i, spot, q, k);
      ChainSlotsFramed(g, v.data, v'.data, dir.chain[..q]);
      assert InSub(g, v', dir.chain, i, spot, q, k);
    }
  }

  /** A slot of a directory is a place for a file's entry, unless the file's chain runs through the directory. */
  lemma SlotHome(g: Geo, entries: nat, v: View, dir: Folder, i: nat, spot: Spot)
    requires FolderOk(g, entries, v, dir) && SlotAt(g, entries, v, dir, i, spot)
    ensures spot.InCluster? ==> dir.Sub? && spot.c in dir.chain && g.Cluster(spot.c) && v.table[spot.c] != 0
    ensures HomeOk(g, v, At(spot), []) && Holds(v, spot, SLOT)
  {
    if dir.Sub? {
      var q: nat, k: nat :| InSub(g, v, dir.chain, i, spot, q, k);
      MembersInUse(g, v.table, dir.chain[0], dir.chain, dir.chain[q]);
    }
  }

  lemma PokeData(g: Geo, v: View, spot: Spot, chain: seq<nat>, p: seq<byte>)
    requires Shaped(g, v) && HomeOk(g, v, At(spot), chain) && |p| == SLOT
    ensures Holds(v, spot, SLOT)
    ensures var v' := Poke(v, spot, p);
            && Shaped(g, v') && |v'.root| == |v.root| && SlotOnly(g, v, v', [], At(spot))
            && forall c :: c in chain && 0 <= c < g.limit ==> v'.data[c] == v.data[c]
  {
  }

  /** Rewriting its own entry is part of a file's step. */
  lemma PokeStep(g: Geo, v: View, f: File, v1: View, f1: File, spot: Spot, p: seq<byte>)
    requires FileStep(g, v, f, v1, f1, At(spot)) && |p| == SLOT
    ensures Holds(v1, spot, SLOT) && FileStep(g, v, f, Poke(v1, spot, p), f1, At(spot))
  {
    PokeData(g, v1, spot, f1.chain, p);
    var v2 := Poke(v1, spot, p);
    SlotOnlyCompose(g, v, v1, v2, f.chain + f1.chain, At(spot));
    BytesFramed(g, v1.data, v2.data, f1.chain);
    HomeKept(g, v1, v2, At(spot), f1.chain);
  }

  /** A file that is not there yet: nothing but the place for its entry. */
  lemma NothingYet(g: Geo, v: View, spot: Spot)
    requires Shaped(g, v) && HomeOk(g, v, At(spot), [])
    ensures FileStep(g, v, EMPTY, v, EMPTY, At(spot))
  {
  }

  function NewFile(isDir: bool, c: nat): File {
    if isDir then File(c, 0, [c]) else EMPTY
  }

  /** The view before the new entry is written: for a directory, its cluster taken and filled. */
  ghost function Prepared(g: Geo, v: View, isDir: bool, c: nat, buf: seq<byte>): View
    requires |v.table| == |v.data| == g.limit && (isDir ==> g.Cluster(c))
  {
    if isDir then UpdateData(Taken(g, v, c), c, buf) else v
  }

  /** A new directory's cluster was free, is now its own, and holds the bytes written to it. */
  lemma ClusterPrepared(g: Geo, v: View, spot: Spot, c: nat, buf: seq<byte>)
    requires Shaped(g, v) && HomeOk(g, v, At(spot), []) && g.Cluster(c) && v.table[c] == 0 && |buf| == g.cs
    ensures FileStep(g, v, EMPTY, Prepared(g, v, true, c, buf), NewFile(true, c), At(spot))
  {
    NewIsChain(g, v, 0, [], c);
    assert Prepared(g, v, true, c, buf).table == Linked1(g, v, [], c).table;
  }

  lemma FolderApart(g: Geo, entries: nat, v: View, dir: Folder, c: nat)
    requires FolderOk(g, entries, v, dir) && g.Cluster(c) && v.table[c] == 0
    ensures dir.Sub? ==> c !in dir.chain && forall d :: d in dir.chain ==> g.Cluster(d)
  {
    if dir.Sub? {
      forall d | d in dir.chain ensures d != c && g.Cluster(d) { MembersInUse(g, v.table, dir.chain[0], dir.chain, d); }
    }
  }

  lemma FolderPrepared(g: Geo, entries: nat, v: View, dir: Folder, i: nat, spot: Spot, c: nat, buf: seq<byte>)
    requires FolderOk(g, entries, v, dir) && SlotAt(g, entries, v, dir, i, spot) && g.Cluster(c) && v.table[c] == 0
        && |buf| == g.cs
    ensures var v' := Prepared(g, v, true, c, buf);
            && FolderOk(g, entries, v', dir) && Slots(g, entries, v', dir) == Slots(g, entries, v, dir)
                && SlotAt(g, entries, v', dir, i, spot)
  {
    FolderApart(g, entries, v, dir, c);
    var v' := Prepared(g, v, true, c, buf);
    FolderFramed(g, entries, v, v', dir);
    SlotAtFramed(g, entries, v, v', dir, i, spot);
  }

  /** The new entry s went into slot i, at the spot, and nothing else changed except a new directory's own cluster. */
  ghost predicate Entered(g: Geo, entries: nat, v: View, dir: Folder, i: nat, spot: Spot, isDir: bool, c: nat,
      buf: seq<byte>, s: Slot, v': View) {
    var entered := FolderOk(g, entries, v, dir) && i < |Slots(g, entries, v, dir)|
      && FolderOk(g, entries, v', dir) && Slots(g, entries, v', dir) == Slots(g, entries, v, dir)[i := s]
          && SlotAt(g, entries, v', dir, i, spot)
      && FileStep(g, v, EMPTY, v', NewFile(isDir, c), At(spot))
      && (isDir ==> g.Cluster(c) && v'.data[c] == buf);
    entered
  }

  lemma EnterSlot(g: Geo, entries: nat, v: View, dir: Folder, i: nat, spot: Spot, isDir: bool, c: nat, buf: seq<byte>,
      s: Slot)
    requires FolderOk(g, entries, v, dir) && SlotAt(g, entries, v, dir, i, spot)
    requires |v.table| == |v.data| == g.limit && (isDir ==> g.Cluster(c) && v.table[c] == 0 && |buf| == g.cs)
    ensures Holds(Prepared(g, v, isDir, c, buf), spot, SLOT)
    ensures Entered(g, entries, v, dir, i, spot, isDir, c, buf, s, Poke(Prepared(g, v, isDir, c, buf), spot, s))
  {
    hide SlotAt, FolderOk, FileStep, Slots, HomeOk;
    FolderShaped(g, entries, v, dir);
    var v1 := Prepared(g, v, isDir, c, buf);
    SlotHome(g, entries, v, dir, i, spot);
    if isDir {
      ClusterPrepared(g, v, spot, c, buf);
      FolderPrepared(g, entries, v, dir, i, spot, c, buf);
    } else {
      NothingYet(g, v, spot);
    }
    SlotWritten(g, entries, v1, dir, i, spot, s);
    SlotStays(g, entries, v1, dir, i, spot, s);
    PokeStep(g, v, EMPTY, v1, NewFile(isDir, c), spot, s);
    SlotInside(g, entries, v, dir, i, spot, s);
  }

  lemma SlotInside(g: Geo, entries: nat, v: View, dir: Folder, i: nat, spot: Spot, s: Slot)
    requires FolderOk(g, entries, v, dir) && SlotAt(g, entries, v, dir, i, spot)
    ensures i < |Slots(g, entries, v, dir)|
  {
    SlotWritten(g, entries, v, dir, i, spot, s);
  }

  lemma FolderShaped(g: Geo, entries: nat, v: View, dir: Folder)
    requires FolderOk(g, entries, v, dir)
    ensures Shaped(g, v)
  {
  }

  /** Nothing changed but bytes of clusters that are free before and after. */
  ghost predicate Idle(g: Geo, v: View, v': View) {
    var idle := |v'.data| == |v.data| == |v.table| && v'.table == v.table && v'.root == v.root
        && (Sized(g, v.data) ==> Sized(g, v'.data))
      && forall c: nat | c < |v.table| && v.table[c] != 0 :: v'.data[c] == v.data[c];
    idle
  }

  lemma NotMoved(g: Geo, v: View)
    requires |v.data| == |v.table|
    ensures Idle(g, v, v)
  {
  }

  /** Giving the cluster just taken back restores the table. */
  lemma TakenFreed(g: Geo, v: View, c: nat)
    requires g.Ok() && |v.table| == |v.data| == g.limit && g.Cluster(c) && v.table[c] == 0
    ensures IsChain(g, Taken(g, v, c).table, c, [c])
    ensures Idle(g, v, Taken(g, v, c).(table := Cleared(Taken(g, v, c).table, [c])))
  {
    NewIsChain(g, v, 0, [], c);
    var t := Taken(g, v, c).table;
    assert Cleared(t, [c]) == v.table;
  }

  /** The way out of a create that fails after a cluster was taken. */
  method Abandon(vol: Volume, isDir: bool, c: u32, ghost v: View)
    requires vol.Ready() && |v.table| == |v.data| == vol.sb.Limit()
    requires if isDir then vol.sb.ValidCluster(c) && v.table[c] == 0
        && vol.view == Taken(GeoOf(vol.sb), v, c) else c == 0 && vol.view == v
    modifies vol
    ensures vol.Ready() && Idle(GeoOf(vol.sb), v, vol.view)
  {
    hide Volume.Ready, Idle, IsChain, Geo.Ok, Cleared;
    GeoIsOk(vol);
    if c != 0 {
      TakenFreed(GeoOf(vol.sb), v, c);
      var _ := FreeChain(vol, c, [c]);
    } else {
      NotMoved(GeoOf(vol.sb), v);
    }
  }

  /** The second half of fat_create_vn: cluster and contents of a new directory, then the entry. */
  method MakeEntry(vol: Volume, parent: u32, short: seq<byte>, isDir: bool, lba: u32, o: u16, ghost dir: Folder,
      ghost i: nat)
    returns (r: Errno, node: FatNode?)
    requires vol.Ready() && InPlace(vol.sb, lba, o) && |short| == 11
    modifies vol
    ensures vol.Ready() && r in {Success, NoSpaceLeft, OutOfMemory} && (vol.granted ==> r != OutOfMemory)
    ensures r == NoSpaceLeft ==> isDir && NoneFree(GeoOf(vol.sb), old(vol.view).table)
    ensures r != Success ==> Idle(GeoOf(vol.sb), old(vol.view), vol.view) && node == null
    ensures r == Success ==>
          node != null && MadeEntry(vol.sb, old(vol.view), dir, i, lba, o, parent, short, isDir, node.firstCluster,
          vol.view)
    ensures r == Success ==>
          fresh(node) && node.size == 0 && node.hasDirent && node.dirSector == lba && node.dirOffset == o
  {
    hide Volume.Ready, Idle, HoldsEntries, Taken, MadeEntry, SpotOf, NewSlot, DotCluster;
    GeoIsOk(vol);
    ghost var g, v := GeoOf(vol.sb), vol.view;
    var c := 0;
    node := null;
    if isDir {
      r, c := AllocCluster(vol);
      if r != Success {
        NotMoved(g, v);
        return;
      }
    }
    var memory := vol.Malloc();
    if !memory {
      Abandon(vol, isDir, c, v);
      return OutOfMemory, null;
    }
    node := new FatNode(c, 0, lba, o);
    if isDir {
      memory := vol.Malloc();
      if !memory {
        Abandon(vol, isDir, c, v);
        return OutOfMemory, null;
      }
      ClusterRoom(vol);
      vol.Put(c, DotCluster(c, parent, vol.sb.ClusterSize()));
    }
    vol.PatchSector(lba, o, NewSlot(short, Attr(isDir), c));
    EntryMade(vol.sb, v, dir, i, lba, o, parent, short, isDir, c, vol.view);
    r := Success;
  }

  lemma ClusterRoom(vol: Volume)
    requires vol.Ready()
    ensures 2 * SLOT <= vol.sb.ClusterSize()
  {
  }

  ghost predicate MadeEntry(sb: Super, v: View, dir: Folder, i: nat, lba: nat, o: nat, parent: u32, short: seq<byte>,
      isDir: bool, c: u32, v': View) {
    var made := |short| == 11 && HoldsEntries(sb, lba) && 2 * SLOT <= sb.ClusterSize() ==>
      var g, spot := GeoOf(sb), SpotOf(sb, lba, o);
      (isDir ==> sb.ValidCluster(c) && |v.table| == sb.Limit() && v.table[c] == 0) && (!isDir ==> c == 0)
      && (FolderOk(g, sb.rootEntries, v, dir) && SlotAt(g, sb.rootEntries, v, dir, i, spot) ==>
        Entered(g, sb.rootEntries, v, dir, i, spot, isDir, c, DotCluster(c, parent, sb.ClusterSize()),
            NewSlot(short, Attr(isDir), c), v'));
    made
  }

  lemma EntryMade(sb: Super, v: View, dir: Folder, i: nat, lba: nat, o: nat, parent: u32, short: seq<byte>, isDir: bool,
      c: u32, v': View)
    requires |short| == 11 && HoldsEntries(sb, lba) && 2 * SLOT <= sb.ClusterSize()
        && |v.table| == |v.data| == sb.Limit()
    requires isDir ==> sb.ValidCluster(c) && v.table[c] == 0
    requires !isDir ==> c == 0
    requires var v1 := Prepared(GeoOf(sb), v, isDir, c, DotCluster(c, parent, sb.ClusterSize()));
             Holds(v1, SpotOf(sb, lba, o), SLOT) && v' == Poke(v1, SpotOf(sb, lba, o), NewSlot(short, Attr(isDir), c))
    ensures MadeEntry(sb, v, dir, i, lba, o, parent, short, isDir, c, v')
  {
    hide FolderOk, SlotAt, Entered, HoldsEntries, SpotOf, Prepared, NewSlot, DotCluster;
    var g := GeoOf(sb);
    if FolderOk(g, sb.rootEntries, v, dir) && SlotAt(g, sb.rootEntries, v, dir, i, SpotOf(sb, lba, o)) {
      EnterSlot(g, sb.rootEntries, v, dir, i, SpotOf(sb, lba, o), isDir, c, DotCluster(c, parent, sb.ClusterSize()),
          NewSlot(short, Attr(isDir), c));
    }
  }

  lemma InsertClash(l: seq<Slot>, k: nat, s: Slot, j: nat)
    requires k <= |l| && j < |l| && Key(l[j]) == Key(s)
    ensures var m := l[..k] + [s] + l[k..]; exists a, b :: 0 <= a < b < |m| && Key(m[a]) == Key(m[b])
  {
    hide Key;
    var m := l[..k] + [s] + l[k..];
    assert m[k] == s && m[if j < k then j else j + 1] == l[j];
  }

  /** An entry whose key is taken would make the directory ambiguous. */
  lemma DuplicateBreaks(slots: seq<Slot>, i: nat, s: Slot)
    requires Terminated(slots) && i == FirstFree(slots) < |slots| && Shown(s) && Key(s) in Dir(slots)
    ensures !Unique(slots[i := s])
  {
    hide Key, FirstFree, Listing, Dir, Shown;
    DirIsListing(slots, Key(s));
    var l := Listing(slots);
    var j :| 0 <= j < |l| && Key(l[j]) == Key(s);
    var k := CreateListing(slots, i, s);
    InsertClash(l, k, s, j);
  }

  /** The name map after a successful create: exact for every name, as soon as the stored key was not taken. */
  lemma CreatedMap(slots: seq<Slot>, i: nat, s: Slot)
    requires DirOk(slots) && i == FirstFree(slots) < |slots| && Shown(s)
    ensures DirOk(slots[i := s]) <==> Key(s) !in Dir(slots)
    ensures Key(s) !in Dir(slots) ==> Dir(slots[i := s]) == Dir(slots)[Key(s) := s]
  {
    hide Name, Key, FirstFree, Dir;
    if Key(s) in Dir(slots) {
      DuplicateBreaks(slots, i, s);
    } else {
      CreateOk(slots, i, s);
      CreateDir(slots, i, s);
    }
  }

  /**
   What fat_create_vn comes to in a directory of the volume. mid is the volume with the directory's new
   room, if it needed any. A create that fails leaves the name map and the listing alone.
   */
  ghost predicate Created(sb: Super, v: View, first: u32, dir: Folder, name: seq<byte>, isDir: bool, r: Errno,
                          mid: View, v': View, dir': Folder, lba: nat, o: nat, c: u32)
  {
    var created := IsFolder(sb, v, first, dir) && DirOk(Slots(GeoOf(sb), sb.rootEntries, v, dir)) ==>
      var g, e, slots := GeoOf(sb), sb.rootEntries, Slots(GeoOf(sb), sb.rootEntries, v, dir);
      && Roomed(g, e, v, dir, mid, dir')
      && (!Fits83(name) || UpAll(name) in Dir(slots) ==> r != Success && v' == v && dir' == dir)
      && (Fits83(name) && UpAll(name) in Dir(slots) ==> r in {AlreadyExists, OutOfMemory})
      && (r == AlreadyExists ==> UpAll(name) in Dir(slots))
      && (!Fits83(name) ==> r in {InvalidArgument, NameTooLong})
      && (Fits83(name) && UpAll(name) !in Dir(slots) ==> Made(g, e, v, dir, isDir, r, mid))
      && FolderOk(g, e, v', dir')
      && var slots' := Slots(g, e, v', dir');
      && (r != Success ==>
            Idle(g, mid, v') && Dir(slots') == Dir(slots) && Listing(slots') == Listing(slots) && DirOk(slots'))
      && (r == Success ==> Added(sb, first, name, isDir, mid, dir', lba, o, c, v', slots, slots'));
    created
  }

  /** The clusters a create takes: one where every slot is taken, and one for a directory. */
  function Needs(slots: seq<Slot>, isDir: bool): nat {
    (if FirstFree(slots) == |slots| then 1 else 0) + if isDir then 1 else 0
  }

  /** There is a slot, or the directory can grow, and the free clusters are enough. */
  ghost predicate MayMake(g: Geo, e: nat, v: View, dir: Folder, isDir: bool)
    requires FolderOk(g, e, v, dir)
  {
    var slots := Slots(g, e, v, dir);
    (dir.Root? ==> FirstFree(slots) < |slots|) && Needs(slots, isDir) <= |FreeSet(g, v)|
  }

  /** A name that can be made is made, unless memory is out; it is refused for space exactly when it cannot. */
  ghost predicate Made(g: Geo, e: nat, v: View, dir: Folder, isDir: bool, r: Errno, mid: View)
    requires FolderOk(g, e, v, dir)
  {
    && r in {Success, NoSpaceLeft, OutOfMemory}
    && (r == Success ==> MayMake(g, e, v, dir, isDir))
    && (r == NoSpaceLeft ==> !MayMake(g, e, v, dir, isDir))
    && (r == NoSpaceLeft ==>
          || (FirstFree(Slots(g, e, v, dir)) == |Slots(g, e, v, dir)| && (dir.Root? || NoneFree(g, v.table)))
          || (isDir && NoneFree(g, mid.table)))
  }

  /** A file keeps the sum of its clusters and the free ones. */
  lemma StepCount(g: Geo, v: View, f: File, v': View, f': File, home: Home)
    requires g.Ok() && FileStep(g, v, f, v', f', home) && IsChain(g, v.table, f.first, f.chain)
    ensures |FreeSet(g, v')| + |f'.chain| == |FreeSet(g, v)| + |f.chain|
  {
    hide SlotOnly, HomeOk, Bytes;
    forall c | c in f.chain ensures g.Cluster(c) && v.table[c] != 0 { MembersInUse(g, v.table, f.first, f.chain, c); }
    forall c | c in f'.chain ensures g.Cluster(c) && v'.table[c] != 0 {
      MembersInUse(g, v'.table, f'.first, f'.chain, c);
    }
    MembersCount(f.chain);
    MembersCount(f'.chain);
    assert FreeSet(g, v) + Members(f.chain) == FreeSet(g, v') + Members(f'.chain);
  }

  lemma NoneFreeCount(g: Geo, v: View)
    requires |v.table| == g.limit
    ensures NoneFree(g, v.table) <==> |FreeSet(g, v)| == 0
  {
    if |FreeSet(g, v)| == 0 {
      forall c: nat | g.Cluster(c) ensures v.table[c] != 0 { assert c !in FreeSet(g, v); }
    } else {
      var c :| c in FreeSet(g, v);
    }
  }

  lemma FreeMember(g: Geo, v: View, c: nat)
    requires |v.table| == g.limit && g.Cluster(c) && v.table[c] == 0
    ensures 0 < |FreeSet(g, v)|
  {
    assert c in FreeSet(g, v);
  }

  /** The free clusters once the slot is found. */
  lemma SlotCount(sb: Super, v: View, first: nat, dir: Folder, mid: View, dir': Folder, lba: nat, o: nat)
    requires SlotFound(sb, v, first, dir, Success, mid, dir', lba, o) && IsFolder(sb, v, first, dir)
    ensures var slots := Slots(GeoOf(sb), sb.rootEntries, v, dir);
            && |mid.table| == |v.table| == sb.Limit()
            && |FreeSet(GeoOf(sb), v)| == |FreeSet(GeoOf(sb), mid)| + Needs(slots, false)
            && (dir.Root? ==> FirstFree(slots) < |slots|)
  {
    hide FileStep, FirstFree, FreeAt;
    var g := GeoOf(sb);
    FirstFreeBound(Slots(g, sb.rootEntries, v, dir));
    FolderShaped(g, sb.rootEntries, mid, dir');
    if FirstFree(Slots(g, sb.rootEntries, v, dir)) == |Slots(g, sb.rootEntries, v, dir)| {
      StepCount(g, v, AsFile(dir), mid, AsFile(dir'), Nowhere);
    }
  }

  lemma FirstFreeBound(slots: seq<Slot>)
    ensures FirstFree(slots) <= |slots|
  {
  }

  /** One more entry: a listed slot of the requested kind and size 0, in the first free slot. */
  ghost predicate Added(sb: Super, first: u32, name: seq<byte>, isDir: bool, mid: View, dir': Folder, lba: nat, o: nat,
      c: u32, v': View,
                        slots: seq<Slot>, slots': seq<Slot>)
  {
    && Fits83(name) && HoldsEntries(sb, lba) && 2 * SLOT <= sb.ClusterSize()
        && FolderOk(GeoOf(sb), sb.rootEntries, mid, dir')
    && var s := NewSlot(Packed(name), Attr(isDir), c);
    && Entered(GeoOf(sb), sb.rootEntries, mid, dir', FirstFree(Slots(GeoOf(sb), sb.rootEntries, mid, dir')),
        SpotOf(sb, lba, o), isDir, c,
               DotCluster(c, first, sb.ClusterSize()), s, v')
    && (isDir ==> sb.ValidCluster(c) && |mid.table| == sb.Limit() && mid.table[c] == 0) && (!isDir ==> c == 0)
    && Shown(s) && Key(s) == StoredKey(name) && IsDirectory(s) == isDir && FirstOf(s) == c && SizeOf(s) == 0
    && (DirOk(slots') <==> StoredKey(name) !in Dir(slots))
    && (StoredKey(name) !in Dir(slots) ==> Dir(slots') == Dir(slots)[StoredKey(name) := s])
  }

  lemma NotCreated(sb: Super, v: View, first: u32, dir: Folder, name: seq<byte>, isDir: bool, r: Errno)
    requires r == OutOfMemory || (!Fits83(name) && r in {InvalidArgument, NameTooLong})
    requires r == OutOfMemory ==> Fits83(name)
    ensures Created(sb, v, first, dir, name, isDir, r, v, v, dir, 0, 0, 0)
  {
    hide Dir, Listing, Slots, FolderOk, Roomed, Added, DirOk, Fits83, UpAll;
    if IsFolder(sb, v, first, dir) {
      NotRoomed(GeoOf(sb), sb.rootEntries, v, dir);
      FolderShaped(GeoOf(sb), sb.rootEntries, v, dir);
      NotMoved(GeoOf(sb), v);
    }
  }

  lemma CreatedExisting(sb: Super, v: View, first: u32, dir: Folder, name: seq<byte>, isDir: bool)
    requires Fits83(name) && (IsFolder(sb, v, first, dir) ==>
          UpAll(name) in Dir(Slots(GeoOf(sb), sb.rootEntries, v, dir)))
    ensures Created(sb, v, first, dir, name, isDir, AlreadyExists, v, v, dir, 0, 0, 0)
  {
    hide Dir, Listing, Slots, FolderOk, Roomed, Added, DirOk, Fits83, UpAll;
    if IsFolder(sb, v, first, dir) {
      NotRoomed(GeoOf(sb), sb.rootEntries, v, dir);
      FolderShaped(GeoOf(sb), sb.rootEntries, v, dir);
      NotMoved(GeoOf(sb), v);
    }
  }

  lemma CreatedElsewhere(sb: Super, v: View, first: u32, dir: Folder, name: seq<byte>, isDir: bool, r: Errno,
                         mid: View, v': View, dir': Folder, lba: nat, o: nat, c: u32)
    requires !IsFolder(sb, v, first, dir)
    ensures Created(sb, v, first, dir, name, isDir, r, mid, v', dir', lba, o, c)
  {
  }

  lemma IdleFolder(g: Geo, entries: nat, v: View, v': View, dir: Folder)
    requires FolderOk(g, entries, v, dir) && Idle(g, v, v')
    ensures FolderOk(g, entries, v', dir) && Slots(g, entries, v', dir) == Slots(g, entries, v, dir)
  {
    if dir.Sub? {
      forall c | c in dir.chain ensures c < g.limit && v'.table[c] == v.table[c] && v'.data[c] == v.data[c] {
        MembersInUse(g, v.table, dir.chain[0], dir.chain, c);
      }
    }
    FolderFramed(g, entries, v, v', dir);
  }

  /** The name is not in the directory. */
  ghost predicate Absent(sb: Super, v: View, first: nat, dir: Folder, name: seq<byte>) {
    var absent := IsFolder(sb, v, first, dir) ==> UpAll(name) !in Dir(Slots(GeoOf(sb), sb.rootEntries, v, dir));
    absent
  }

  /** The first free slot's number, for use as a ghost. */
  ghost function FreeSlot(sb: Super, v: View, dir: Folder): nat {
    if FolderOk(GeoOf(sb), sb.rootEntries, v, dir) then FirstFree(Slots(GeoOf(sb), sb.rootEntries, v, dir)) else 0
  }

  lemma CreatedNoSlot(sb: Super, v: View, first: u32, dir: Folder, name: seq<byte>, isDir: bool, r: Errno, mid: View,
      dir': Folder, lba: nat, o: nat)
    requires SlotFound(sb, v, first, dir, r, mid, dir', lba, o)
        && r in {NoSpaceLeft, OutOfMemory, IoError, InvalidArgument} && Fits83(name)
    requires Absent(sb, v, first, dir, name)
    ensures Created(sb, v, first, dir, name, isDir, r, mid, mid, dir', lba, o, 0)
  {
    hide Dir, Listing, Slots, FolderOk, Added, DirOk, Roomed, FreeAt, UpAll, Fits83, FirstFree, NoneFree;
    if IsFolder(sb, v, first, dir) {
      FolderShaped(GeoOf(sb), sb.rootEntries, v, dir);
      NotMoved(GeoOf(sb), v);
      NoneFreeCount(GeoOf(sb), v);
    }
  }

  /** Room was found, but the entry was not made. */
  lemma CreatedFailed(sb: Super, v: View, first: u32, dir: Folder, name: seq<byte>, isDir: bool, r: Errno,
                      mid: View, v': View, dir': Folder, lba: nat, o: nat, c: u32)
    requires SlotFound(sb, v, first, dir, Success, mid, dir', lba, o) && Idle(GeoOf(sb), mid, v')
        && r in {NoSpaceLeft, OutOfMemory} && Fits83(name)
    requires r == NoSpaceLeft ==> isDir && NoneFree(GeoOf(sb), mid.table)
    requires Absent(sb, v, first, dir, name)
    ensures Created(sb, v, first, dir, name, isDir, r, mid, v', dir', lba, o, c)
  {
    hide Dir, Listing, Slots, FolderOk, Added, DirOk, Idle, Roomed, FreeAt, UpAll, Fits83, FirstFree, NoneFree;
    if IsFolder(sb, v, first, dir) {
      var g, e := GeoOf(sb), sb.rootEntries;
      RoomedSame(g, e, v, dir, mid, dir');
      IdleFolder(g, e, mid, v', dir');
      SlotCount(sb, v, first, dir, mid, dir', lba, o);
      NoneFreeCount(g, mid);
    }
  }

  lemma CreatedDone(sb: Super, v: View, first: u32, dir: Folder, name: seq<byte>, isDir: bool,
                    mid: View, v': View, dir': Folder, lba: nat, o: nat, i: nat, c: u32)
    requires SlotFound(sb, v, first, dir, Success, mid, dir', lba, o) && Fits83(name) && HoldsEntries(sb, lba)
        && 2 * SLOT <= sb.ClusterSize()
    requires Absent(sb, v, first, dir, name) && i == FreeSlot(sb, mid, dir')
    requires MadeEntry(sb, mid, dir', i, lba, o, first, Packed(name), isDir, c, v')
    ensures Created(sb, v, first, dir, name, isDir, Success, mid, v', dir', lba, o, c)
  {
    hide Dir, Listing, Slots, FolderOk, DirOk, Roomed, UpAll, Fits83, HoldsEntries, SpotOf, SlotAt, FirstFree, NewSlot,
        DotCluster, Key, Shown,
      FirstOf, SizeOf, StoredKey, FileStep, Packed;
    if IsFolder(sb, v, first, dir) && DirOk(Slots(GeoOf(sb), sb.rootEntries, v, dir)) {
      var g, e := GeoOf(sb), sb.rootEntries;
      RoomedSame(g, e, v, dir, mid, dir');
      SlotCount(sb, v, first, dir, mid, dir', lba, o);
      if isDir { FreeMember(g, mid, c); }
      NewEntry(name, isDir, c);
      CreatedMap(Slots(g, e, mid, dir'), i, NewSlot(Packed(name), Attr(isDir), c));
    }
  }

  lemma LookedUpMeans(sb: Super, v: View, first: nat, dir: Folder, want: seq<byte>, r: Errno, h: Found)
    requires LookedUp(sb, v, first, dir, want, r, h) && IsFolder(sb, v, first, dir)
    ensures FolderOk(GeoOf(sb), sb.rootEntries, v, dir) && r in {Success, NotFound, OutOfMemory}
    ensures r == NotFound ==> UpAll(want) !in Dir(Slots(GeoOf(sb), sb.rootEntries, v, dir))
    ensures r == Success ==> UpAll(want) in Dir(Slots(GeoOf(sb), sb.rootEntries, v, dir))
  {
  }

  /** fat_create_vn. */
  method Create(vol: Volume, first: u32, name: seq<byte>, isDir: bool, ghost dir: Folder)
    returns (r: Errno, node: FatNode?, ghost mid: View, ghost dir': Folder, ghost lba: nat, ghost o: nat)
    requires vol.Ready()
    modifies vol
    ensures vol.Ready() && (vol.granted ==> r != OutOfMemory)
    ensures node != null <==> r == Success
    ensures Created(vol.sb, old(vol.view), first, dir, name, isDir, r, mid, vol.view, dir', lba, o,
        if node != null then node.firstCluster else 0)
    ensures r == Success ==>
          fresh(node) && node.size == 0 && node.hasDirent && node.dirSector == lba && node.dirOffset == o
  {
    hide Volume.Ready, Created, LookedUp, IsFolder, SlotFound, FolderOk, Dir, Slots, UpAll, Fits83, HoldsEntries,
        FreeSlot, MadeEntry, Idle, Packed;
    ghost var sb, v := vol.sb, vol.view;
    ghost var ok := IsFolder(sb, v, first, dir);
    node, mid, dir', lba, o := null, v, dir, 0, 0;
    var short;
    r, short := MakeShortName(name);
    if r != Success {
      if ok { NotCreated(sb, v, first, dir, name, isDir, r);
            } else { CreatedElsewhere(sb, v, first, dir, name, isDir, r, mid, v, dir', lba, o, 0); }
      return;
    }
    var existing, h;
    r, existing, h := Lookup(vol, first, name, dir);
    if ok { LookedUpMeans(sb, v, first, dir, name, r, h); }
    if r == Success {
      if ok { CreatedExisting(sb, v, first, dir, name, isDir);
            } else { CreatedElsewhere(sb, v, first, dir, name, isDir, AlreadyExists, mid, v, dir', lba, o, 0); }
      return AlreadyExists, null, mid, dir', lba, o;
    }
    if r != NotFound {
      if ok { NotCreated(sb, v, first, dir, name, isDir, r);
            } else { CreatedElsewhere(sb, v, first, dir, name, isDir, r, mid, v, dir', lba, o, 0); }
      return;
    }
    r, node, mid, dir', lba, o := CreateAbsent(vol, first, name, short, isDir, dir);
  }

  /** fat_create_vn, once the name is packed and known to be absent. */
  method CreateAbsent(vol: Volume, first: u32, ghost name: seq<byte>, short: seq<byte>, isDir: bool, ghost dir: Folder)
    returns (r: Errno, node: FatNode?, ghost mid: View, ghost dir': Folder, ghost lba: nat, ghost o: nat)
    requires vol.Ready() && Readable(vol.sb, first) && Fits83(name) && short == Packed(name)
    requires Absent(vol.sb, vol.view, first, dir, name)
    modifies vol
    ensures vol.Ready() && (vol.granted ==> r != OutOfMemory)
    ensures node != null <==> r == Success
    ensures Created(vol.sb, old(vol.view), first, dir, name, isDir, r, mid, vol.view, dir', lba, o,
        if node != null then node.firstCluster else 0)
    ensures r == Success ==>
          fresh(node) && node.size == 0 && node.hasDirent && node.dirSector == lba && node.dirOffset == o
  {
    hide Volume.Ready, Created, IsFolder, SlotFound, FolderOk, Dir, Slots, UpAll, Fits83, HoldsEntries, FreeSlot,
        MadeEntry, Idle, Packed, Absent;
    ghost var sb, v := vol.sb, vol.view;
    node, mid, dir', lba, o := null, v, dir, 0, 0;
    var sector, offset;
    r, sector, offset, dir' := FindFreeSlot(vol, first, dir);
    mid := vol.view;
    lba, o := sector, offset;
    if r != Success {
      CreatedNoSlot(sb, v, first, dir, name, isDir, r, mid, dir', lba, o);
      return;
    }
    ClusterRoom(vol);
    r, node := MakeEntry(vol, first, short, isDir, sector, offset, dir', FreeSlot(sb, mid, dir'));
    if r != Success {
      CreatedFailed(sb, v, first, dir, name, isDir, r, mid, vol.view, dir', lba, o, 0);
      return;
    }
    CreatedDone(sb, v, first, dir, name, isDir, mid, vol.view, dir', lba, o, FreeSlot(sb, mid, dir'),
        node.firstCluster);
  }
}
