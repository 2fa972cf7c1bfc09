/** fat_find_free_slot: the first free slot of a directory, with one more cluster of slots when there is none. */
module FatFree {
  import opened Machine
  import opened FatLayout
  import opened FatDisk
  import opened FatChain
  import opened FatContent
  import opened FatVolume
  import opened FatFile
  import opened FatStep
  import opened FatName
  import opened FatSlots
  import opened FatSearch
  import opened FatFolder
  import opened FatIter

  /** No slot in front of n is free. */
  ghost predicate NoFree(slots: seq<Slot>, n: nat) {
    n <= |slots| && forall k :: 0 <= k < n ==> !Free(slots[k])
  }

  lemma NoFreeIsAll(slots: seq<Slot>)
    ensures NoFree(slots, |slots|) <==> FirstFree(slots) == |slots|
  {
  }

  /** The inner loop of the search, over the first m slots of a sector. */
  method ScanFree(buf: seq<byte>, m: nat) returns (k: nat)
    requires m <= |buf| / SLOT
    ensures k <= m && NoFree(Chop(buf), k) && (k < m ==> Free(Chop(buf)[k]))
  {
    hide Chop;
    k := 0;
    while k < m
      invariant k <= m && NoFree(Chop(buf), k)
    {
      ChopAt(buf, k);
      if buf[k * SLOT] == 0 || buf[k * SLOT] == 0xE5 { return; }
      k := k + 1;
    }
  }

  function Shift(spot: Spot, n: nat): Spot {
    match spot
    case InRoot(at) => InRoot(at + n)
    case InCluster(c, at) => InCluster(c, at + n)
  }

  /** Consecutive sectors from lba on hold the bytes from a spot on. */
  ghost predicate Laid(sb: Super, v: View, lba: nat, sectors: nat, at: Spot) {
    && lba + sectors < U32 && Holds(v, at, sectors * SECTOR)
    && forall s: nat | s < sectors :: SectorAt(sb, lba, s, at)
  }

  ghost predicate SectorAt(sb: Super, lba: nat, s: nat, at: Spot) {
    HoldsEntries(sb, lba + s) && SpotOf(sb, lba + s, 0) == Shift(at, s * SECTOR)
  }

  /** A sector's slots among those of the whole stretch. */
  lemma SectorPiece(sb: Super, v: View, lba: nat, sectors: nat, at: Spot, entries: nat, s: nat, buf: seq<byte>, m: nat)
    requires Laid(sb, v, lba, sectors, at) && s < sectors && entries <= sectors * 16 && m <= 16 && s * 16 + m <= entries
    requires SectorAt(sb, lba, s, at) && Holds(v, SpotOf(sb, lba + s, 0), SECTOR)
        && buf == Peek(v, SpotOf(sb, lba + s, 0), SECTOR)
    ensures Holds(v, at, entries * SLOT)
    ensures Chop(buf)[..m] == Chop(Peek(v, at, entries * SLOT))[s * 16..s * 16 + m]
  {
    hide Chop, HoldsEntries, SpotOf;
    var b := Peek(v, at, sectors * SECTOR);
    RootPiece(b, entries, s, m);
    match at
    case InRoot(o) => Nested(v.root, o, sectors * SECTOR, s * SECTOR, SECTOR, entries * SLOT);
    case InCluster(c, o) => Nested(v.data[c], o, sectors * SECTOR, s * SECTOR, SECTOR, entries * SLOT);
  }

  lemma Nested(b: seq<byte>, a: nat, n: nat, o: nat, m: nat, e: nat)
    requires a + n <= |b| && o + m <= n && e <= n
    ensures b[a..a + n][o..o + m] == b[a + o..a + o + m] && b[a..a + n][..e] == b[a..a + e]
  {
    var x, y, z, w := b[a..a + n][o..o + m], b[a + o..a + o + m], b[a..a + n][..e], b[a..a + e];
    assert forall k :: 0 <= k < m ==> x[k] == y[k];
    assert forall k :: 0 <= k < e ==> z[k] == w[k];
  }

  lemma NoFreeMore(slots: seq<Slot>, n: nat, p: seq<Slot>, m: nat, k: nat)
    requires NoFree(slots, n) && n + m <= |slots| && m <= |p| && p[..m] == slots[n..n + m] && k <= m && NoFree(p, k)
    ensures NoFree(slots, n + k) && (k < m ==> slots[n + k] == p[k])
  {
    forall i | 0 <= i < n + k ensures !Free(slots[i]) {
      if n <= i { assert p[..m][i - n] == slots[n..n + m][i - n]; }
    }
    if k < m { assert p[..m][k] == slots[n..n + m][k]; }
  }

  /** The search through a run of sectors. */
  method FreeInSectors(vol: Volume, lba: u32, sectors: u32, entries: nat, ghost at: Spot) returns (k: nat)
    requires vol.Ready() && entries <= sectors * 16 && Laid(vol.sb, vol.view, lba, sectors, at)
    ensures Holds(vol.view, at, entries * SLOT)
    ensures k == FirstFree(Chop(Peek(vol.view, at, entries * SLOT))) <= entries
  {
    hide Volume.Ready, HoldsEntries, SpotOf, FirstFree, Chop;
    ghost var v, sb := vol.view, vol.sb;
    HeldPart(v, at, sectors * SECTOR, entries * SLOT);
    ghost var slots := Chop(Peek(v, at, entries * SLOT));
    var s: nat := 0;
    while s < sectors && s * 16 < entries
      invariant s <= sectors && NoFree(slots, Min(s * 16, entries))
      decreases sectors - s
    {
      assert SectorAt(sb, lba, s, at);
      var buf := vol.LoadSector(lba + s);
      var m := Min(16, entries - s * 16);
      SectorPiece(sb, v, lba, sectors, at, entries, s, buf, m);
      var j := ScanFree(buf, m);
      NoFreeMore(slots, s * 16, Chop(buf), m, j);
      if j < m {
        FirstFreeIs(slots, s * 16 + j);
        return s * 16 + j;
      }
      s := s + 1;
    }
    NoFreeIsAll(slots);
    return entries;
  }

  lemma HeldPart(v: View, at: Spot, n: nat, m: nat)
    requires Holds(v, at, n) && m <= n
    ensures Holds(v, at, m)
  {
  }

  lemma RootLaid(vol: Volume)
    requires vol.Ready()
    ensures Laid(vol.sb, vol.view, vol.sb.rootStart, vol.sb.rootSectors, InRoot(0))
  {
    hide Volume.Ready, HoldsEntries, SpotOf;
    RootBytes(vol);
    forall s: nat | s < vol.sb.rootSectors ensures SectorAt(vol.sb, vol.sb.rootStart, s, InRoot(0)) {
      RootSector(vol.sb, s, 0);
    }
  }

  lemma ClusterLaid(vol: Volume, c: nat)
    requires vol.Ready() && vol.sb.ValidCluster(c)
    ensures Laid(vol.sb, vol.view, ClusterLba(vol.sb, c), vol.sb.spc, InCluster(c, 0))
    ensures |vol.view.data[c]| == vol.sb.ClusterSize() == vol.sb.spc * 16 * SLOT
  {
    hide HoldsEntries, SpotOf, Sound, ClusterLba;
    var sb := vol.sb;
    forall s: nat | s < sb.spc ensures SectorAt(sb, ClusterLba(sb, c), s, InCluster(c, 0)) {
      SpotInCluster(sb, |vol.disk|, c, s * SECTOR);
    }
    ClusterBelow(sb, |vol.disk|, c);
  }

  lemma ClusterBelow(sb: Super, sectors: nat, c: nat)
    requires Sound(sb, sectors) && sb.ValidCluster(c)
    ensures ClusterLba(sb, c) + sb.spc < U32
  {
    ClusterInside(sb, sectors, c);
  }

  /** A directory as a file without a size: what its extension changes is a FileStep. */
  function AsFile(dir: Folder): File {
    File(FirstCluster(dir), 0, if dir.Sub? then dir.chain else [])
  }

  /** The directory gained room at most: slots behind its last one, all of them end markers. */
  ghost predicate Roomed(g: Geo, entries: nat, v: View, dir: Folder, v': View, dir': Folder) {
    var roomed := FolderOk(g, entries, v, dir) && FolderOk(g, entries, v', dir')
        && FirstCluster(dir') == FirstCluster(dir)
      && FileStep(g, v, AsFile(dir), v', AsFile(dir'), Nowhere)
      && Slots(g, entries, v, dir) <= Slots(g, entries, v', dir')
      && forall k ::
            |Slots(g, entries, v, dir)| <= k < |Slots(g, entries, v', dir')| ==> Ends(Slots(g, entries, v', dir')[k]);
    roomed
  }

  /** Room changes neither names nor listing. */
  lemma RoomedSame(g: Geo, entries: nat, v: View, dir: Folder, v': View, dir': Folder)
    requires Roomed(g, entries, v, dir, v', dir')
    ensures FolderOk(g, entries, v, dir) && FolderOk(g, entries, v', dir')
    ensures Dir(Slots(g, entries, v', dir')) == Dir(Slots(g, entries, v, dir))
    ensures Listing(Slots(g, entries, v', dir')) == Listing(Slots(g, entries, v, dir))
    ensures DirOk(Slots(g, entries, v, dir)) ==> DirOk(Slots(g, entries, v', dir'))
  {
    hide FolderOk, FileStep, Slots, DirOk, Dir, Listing;
    var a, b := Slots(g, entries, v, dir), Slots(g, entries, v', dir');
    var room := b[|a|..];
    assert b == a + room;
    RoomAdded(a, room);
    if DirOk(a) { RoomOk(a, room); }
  }

  lemma NotRoomed(g: Geo, entries: nat, v: View, dir: Folder)
    requires FolderOk(g, entries, v, dir)
    ensures Roomed(g, entries, v, dir, v, dir)
  {
  }

  /** The new cluster's slots. */
  lemma RoomStep(g: Geo, entries: nat, v: View, chain: seq<nat>, c: nat)
    requires FolderOk(g, entries, v, Sub(chain)) && g.Cluster(c) && v.table[c] == 0 && 0 < g.cs / SLOT
    ensures chain[|chain| - 1] < g.limit
    ensures var v', dir' := UpdateTable(Taken(g, v, c), chain[|chain| - 1], c), Sub(chain + [c]);
            && Roomed(g, entries, v, Sub(chain), v', dir')
            && Slots(g, entries, v', dir') == Slots(g, entries, v, Sub(chain)) + Chop(Zeros(g.cs))
            && SlotAt(g, entries, v', dir', |Slots(g, entries, v, Sub(chain))|, InCluster(c, 0))
  {
    var v' := Linked1(g, v, chain, c);
    RoomFrame(g, v, chain, c);
    RoomSlots(g, v, v', chain, c);
    assert (chain + [c])[0] == chain[0];
    assert InSub(g, v', chain + [c], |ChainSlots(g, v.data, chain)|, InCluster(c, 0), |chain|, 0) by {
      assert (chain + [c])[..|chain|] == chain;
    }
  }

  lemma RoomFrame(g: Geo, v: View, chain: seq<nat>, c: nat)
    requires Shaped(g, v) && chain != [] && IsChain(g, v.table, chain[0], chain) && g.Cluster(c) && v.table[c] == 0
    ensures chain[|chain| - 1] < g.limit && c !in chain
    ensures var v' := Linked1(g, v, chain, c);
            && Shaped(g, v') && IsChain(g, v'.table, chain[0], chain + [c])
            && FileStep(g, v, File(chain[0], 0, chain), v', File(chain[0], 0, chain + [c]), Nowhere)
            && v'.data == v.data[c := Zeros(g.cs)]
  {
    hide FileStep;
    NotYetExtended(g, v, chain[0], chain);
    GrowStep(g, v, chain, v, chain[0], chain, c);
    NewIsChain(g, v, chain[0], chain, c);
    ExtendStep(g, v, File(chain[0], 0, chain), Nowhere, Linked1(g, v, chain, c), chain[0], chain + [c]);
  }

  lemma RoomSlots(g: Geo, v: View, v': View, chain: seq<nat>, c: nat)
    requires Sized(g, v.data) && Sized(g, v'.data) && InRange(g, chain) && g.Cluster(c) && c !in chain
    requires v'.data == v.data[c := Zeros(g.cs)]
    ensures InRange(g, chain + [c])
    ensures ChainSlots(g, v'.data, chain) == ChainSlots(g, v.data, chain)
    ensures ChainSlots(g, v'.data, chain + [c]) == ChainSlots(g, v.data, chain) + Chop(Zeros(g.cs))
    ensures forall k :: 0 <= k < |Chop(Zeros(g.cs))| ==> Ends(Chop(Zeros(g.cs))[k])
  {
    ChainSlotsFramed(g, v.data, v'.data, chain);
    ChainSlotsUpTo(g, v'.data, chain + [c], |chain|);
    assert (chain + [c])[..|chain|] == chain && (chain + [c])[..|chain| + 1] == chain + [c];
    ChopZeros(g.cs);
  }

  /** The directory's first free slot lies at offset o of sector lba. */
  ghost predicate FreeAt(sb: Super, v: View, dir: Folder, lba: nat, o: nat)
    requires FolderOk(GeoOf(sb), sb.rootEntries, v, dir)
  {
    var slots := Slots(GeoOf(sb), sb.rootEntries, v, dir);
    && FirstFree(slots) < |slots| && HoldsEntries(sb, lba) && o + SLOT <= SECTOR
    && SlotAt(GeoOf(sb), sb.rootEntries, v, dir, FirstFree(slots), SpotOf(sb, lba, o))
  }

  /**
   What fat_find_free_slot comes to. It fails only when the directory has no free slot, and then, in a
   chain, only when no cluster can be had; the directory is extended only when it has to be.
   */
  ghost predicate SlotFound(sb: Super, v: View, first: nat, dir: Folder, r: Errno, v': View, dir': Folder, lba: nat,
      o: nat) {
    var slotFound := IsFolder(sb, v, first, dir) ==>
      var g, slots := GeoOf(sb), Slots(GeoOf(sb), sb.rootEntries, v, dir);
      && r in {Success, NoSpaceLeft, OutOfMemory}
      && Roomed(g, sb.rootEntries, v, dir, v', dir')
      && (r != Success || FirstFree(slots) < |slots| ==> v' == v && dir' == dir)
      && (r != Success ==> FirstFree(slots) == |slots| && (dir.Root? ==> r == NoSpaceLeft))
      && (r == NoSpaceLeft && dir.Sub? ==> NoneFree(g, v.table))
      && (r == Success ==> FolderOk(g, sb.rootEntries, v', dir') && FreeAt(sb, v', dir', lba, o))
      && (r == Success && FirstFree(slots) == |slots| ==> dir.Sub? && dir'.Sub? && |dir'.chain| == |dir.chain| + 1);
    slotFound
  }

  lemma RootFree(vol: Volume, k: nat)
    requires vol.Ready() && FolderOk(GeoOf(vol.sb), vol.sb.rootEntries, vol.view, Root)
    requires k == FirstFree(Chop(vol.view.root[..vol.sb.rootEntries * SLOT]))
    ensures var sb, v := vol.sb, vol.view;
            if k < sb.rootEntries then
              sb.rootStart + k / 16 < U32 && SlotFound(sb, v, 0, Root, Success, v, Root, sb.rootStart + k / 16,
                  k % 16 * SLOT)
            else SlotFound(sb, v, 0, Root, NoSpaceLeft, v, Root, 0, 0)
  {
    hide Volume.Ready, FileStep, HoldsEntries, SpotOf, Roomed, FirstFree, Chop;
    var sb, v := vol.sb, vol.view;
    NotRoomed(GeoOf(sb), sb.rootEntries, v, Root);
    RootBytes(vol);
    if k < sb.rootEntries {
      RootSector(sb, k / 16, k % 16 * SLOT);
    }
  }

  /** The search in a chain, about to look at its k-th cluster. */
  ghost predicate Looking(sb: Super, v: View, first: nat, dir: Folder, k: nat, cluster: nat) {
    var looking := IsFolder(sb, v, first, dir) && dir.Sub? ==>
      var g := GeoOf(sb);
      k < |dir.chain| && cluster == dir.chain[k]
          && NoFree(ChainSlots(g, v.data, dir.chain), FirstSlot(g, v.data, dir.chain, k));
    looking
  }

  lemma LookStart(sb: Super, v: View, first: nat, dir: Folder)
    ensures Looking(sb, v, first, dir, 0, first)
  {
  }

  lemma LookValid(sb: Super, v: View, first: nat, dir: Folder, k: nat, cluster: nat)
    requires Looking(sb, v, first, dir, k, cluster) && IsFolder(sb, v, first, dir) && dir.Sub?
    ensures sb.ValidCluster(cluster) && k < sb.clusterCount && cluster < |v.table|
    ensures NextOf(GeoOf(sb), v.table[cluster]).0 == Success
  {
    hide NoFree, ChainSlots;
    ChainBounded(GeoOf(sb), v.table, first, dir.chain);
    NextInChain(GeoOf(sb), v.table, first, dir.chain, k);
  }

  /** The first free slot of the k-th cluster, none being free before, is the directory's. */
  lemma LookHit(sb: Super, sectors: nat, v: View, first: nat, dir: Folder, k: nat, cluster: nat, j: nat)
    requires Sound(sb, sectors) && Looking(sb, v, first, dir, k, cluster) && IsFolder(sb, v, first, dir) && dir.Sub?
    requires cluster < |v.data| && |v.data[cluster]| == sb.ClusterSize()
        && j == FirstFree(Chop(v.data[cluster])) < sb.ClusterSize() / SLOT
    ensures ClusterLba(sb, cluster) + j / 16 < U32
    ensures SlotFound(sb, v, first, dir, Success, v, dir, ClusterLba(sb, cluster) + j / 16, j % 16 * SLOT)
  {
    hide Sound, FileStep, HoldsEntries, SpotOf, Roomed, FirstFree, ClusterLba, SlotAt, ChainSlots, Chop, NoFree;
    var g, chain := GeoOf(sb), dir.chain;
    LookValid(sb, v, first, dir, k, cluster);
    NotRoomed(g, sb.rootEntries, v, dir);
    SpotInCluster(sb, sectors, cluster, j * SLOT);
    SlotInSub(g, sb.rootEntries, v, chain, k, j);
    LookAround(g, v, chain, k, j);
  }

  lemma LookAround(g: Geo, v: View, chain: seq<nat>, k: nat, j: nat)
    requires Sized(g, v.data) && InRange(g, chain) && k < |chain|
        && NoFree(ChainSlots(g, v.data, chain), FirstSlot(g, v.data, chain, k))
    requires j == FirstFree(Chop(v.data[chain[k]])) < |Chop(v.data[chain[k]])|
    ensures FirstFree(ChainSlots(g, v.data, chain)) ==
        FirstSlot(g, v.data, chain, k) + j < |ChainSlots(g, v.data, chain)|
  {
    hide Chop, ChainSlots, FirstFree, NoFree;
    ChainSlotsUpTo(g, v.data, chain, k);
    FreeBehind(ChainSlots(g, v.data, chain), FirstSlot(g, v.data, chain, k), Chop(v.data[chain[k]]), j);
  }

  lemma FreeBehind(slots: seq<Slot>, n: nat, p: seq<Slot>, j: nat)
    requires NoFree(slots, n) && n + |p| <= |slots| && slots[n..n + |p|] == p && j == FirstFree(p) < |p|
    ensures FirstFree(slots) == n + j < |slots|
  {
    hide FirstFree, Free;
    assert p[..|p|] == p;
    NoFreeMore(slots, n, p, |p|, j);
    FirstFreeIs(slots, n + j);
  }

  /** A full cluster leads on to the next one, or to the end of a full directory. */
  lemma LookNext(sb: Super, v: View, first: nat, dir: Folder, k: nat, cluster: nat)
    requires Looking(sb, v, first, dir, k, cluster) && IsFolder(sb, v, first, dir) && dir.Sub?
    requires cluster < |v.data| && cluster < |v.table| && FirstFree(Chop(v.data[cluster])) == |Chop(v.data[cluster])|
    ensures var next := NextOf(GeoOf(sb), v.table[cluster]).1;
            if next == 0 then Full(sb, v, first, dir, cluster)
            else Looking(sb, v, first, dir, k + 1, next)
  {
    hide FirstFree, Chop;
    var g, chain := GeoOf(sb), dir.chain;
    var slots, p, n := ChainSlots(g, v.data, chain), Chop(v.data[chain[k]]), FirstSlot(g, v.data, chain, k);
    NextInChain(g, v.table, first, chain, k);
    ChainSlotsUpTo(g, v.data, chain, k);
    assert p[..|p|] == slots[n..n + |p|];
    NoFreeIsAll(p);
    NoFreeMore(slots, n, p, |p|, |p|);
    if k + 1 == |chain| {
      assert chain[..k + 1] == chain;
      NoFreeIsAll(slots);
    }
  }

  lemma NoSlotFound(sb: Super, v: View, first: nat, dir: Folder, r: Errno, v': View, dir': Folder, lba: nat, o: nat)
    requires !IsFolder(sb, v, first, dir)
    ensures SlotFound(sb, v, first, dir, r, v', dir', lba, o)
  {
  }

  /** Every slot of the chain is taken, and last is its last cluster. */
  ghost predicate Full(sb: Super, v: View, first: nat, dir: Folder, last: nat) {
    var full := IsFolder(sb, v, first, dir) ==>
      var slots := Slots(GeoOf(sb), sb.rootEntries, v, dir);
      dir.Sub? && last == dir.chain[|dir.chain| - 1] && FirstFree(slots) == |slots|;
    full
  }

  lemma NotFull(sb: Super, v: View, first: nat, dir: Folder, last: nat)
    requires !IsFolder(sb, v, first, dir)
    ensures Full(sb, v, first, dir, last)
  {
  }

  lemma FullFolder(sb: Super, v: View, first: nat, dir: Folder, last: nat, r: Errno)
    requires r in {NoSpaceLeft, OutOfMemory} && Full(sb, v, first, dir, last)
        && (r == NoSpaceLeft ==> NoneFree(GeoOf(sb), v.table))
    ensures SlotFound(sb, v, first, dir, r, v, dir, 0, 0)
  {
    hide FileStep, HoldsEntries, SpotOf, Roomed, FirstFree;
    if IsFolder(sb, v, first, dir) { NotRoomed(GeoOf(sb), sb.rootEntries, v, dir); }
  }

  /** The slot at the start of the cluster just added. */
  lemma ExtendedFolder(sb: Super, sectors: nat, v: View, first: nat, dir: Folder, last: nat, c: nat)
    requires Sound(sb, sectors) && IsFolder(sb, v, first, dir) && Full(sb, v, first, dir, last)
    requires |v.table| == |v.data| == sb.Limit() && sb.ValidCluster(c) && v.table[c] == 0 && last < sb.Limit()
    ensures dir.Sub?
    ensures SlotFound(sb, v, first, dir, Success, UpdateTable(Taken(GeoOf(sb), v, c), last, c), Sub(dir.chain + [c]),
        ClusterLba(sb, c), 0)
  {
    hide Sound, FileStep, HoldsEntries, SpotOf, Roomed, FirstFree, ClusterLba, SlotAt, Chop, Slots;
    var g := GeoOf(sb);
    ClusterSome(sb, sectors);
    RoomStep(g, sb.rootEntries, v, dir.chain, c);
    SpotInCluster(sb, sectors, c, 0);
    var slots := Slots(g, sb.rootEntries, v, dir);
    ChopZeros(g.cs);
    NoFreeIsAll(slots);
    assert (slots + Chop(Zeros(g.cs)))[|slots|] == Chop(Zeros(g.cs))[0];
    FirstFreeIs(slots + Chop(Zeros(g.cs)), |slots|);
  }

  lemma ClusterSome(sb: Super, sectors: nat)
    requires Sound(sb, sectors)
    ensures 0 < sb.ClusterSize() && 0 < sb.ClusterSize() / SLOT
  {
  }

  lemma WholeCluster(v: View, c: nat, n: nat)
    requires c < |v.data| && n == |v.data[c]|
    ensures Holds(v, InCluster(c, 0), n) && Peek(v, InCluster(c, 0), n) == v.data[c]
  {
  }

  lemma RootStart(vol: Volume, k: nat)
    requires vol.Ready() && k < vol.sb.rootEntries
    ensures vol.sb.rootStart + k / 16 < U32
  {
    hide Volume.Ready;
    RootBytes(vol);
  }

  /** The search in the fixed root directory. */
  method FreeInRoot(vol: Volume, ghost dir: Folder) returns (r: Errno, lba: u32, o: u16)
    requires vol.Ready() && (IsFolder(vol.sb, vol.view, 0, dir) ==> dir.Root?)
    ensures SlotFound(vol.sb, vol.view, 0, dir, r, vol.view, dir, lba, o) && (r == Success ==> InPlace(vol.sb, lba, o))
    ensures r in {Success, NoSpaceLeft, OutOfMemory, IoError, InvalidArgument} && (vol.granted ==> r != OutOfMemory)
  {
    hide Volume.Ready, SlotFound, Laid, FirstFree, Chop, Sound, FolderOk, HoldsEntries;
    RootLaid(vol);
    RootBytes(vol);
    var k := FreeInSectors(vol, vol.sb.rootStart, vol.sb.rootSectors, vol.sb.rootEntries, InRoot(0));
    r, lba, o := NoSpaceLeft, 0, 0;
    if k < vol.sb.rootEntries {
      RootStart(vol, k);
      RootSector(vol.sb, k / 16, 0);
      r, lba, o := Success, vol.sb.rootStart + k / 16, k % 16 * SLOT;
    }
    if IsFolder(vol.sb, vol.view, 0, dir) {
      RootFree(vol, k);
    } else {
      NoSlotFound(vol.sb, vol.view, 0, dir, r, vol.view, dir, lba, o);
    }
  }

  /** The search in one cluster. */
  method FreeInCluster(vol: Volume, cluster: u32) returns (k: nat, lba: u32, o: u16)
    requires vol.Ready() && vol.sb.ValidCluster(cluster)
    ensures |vol.view.data[cluster]| == vol.sb.ClusterSize() == vol.sb.spc * 16 * SLOT
    ensures k == FirstFree(Chop(vol.view.data[cluster])) <= vol.sb.spc * 16
    ensures k < vol.sb.spc * 16 ==>
          lba == ClusterLba(vol.sb, cluster) + k / 16 && o == k % 16 * SLOT && InPlace(vol.sb, lba, o)
  {
    hide Volume.Ready, Laid, FirstFree, Chop, Sound, ClusterLba, HoldsEntries, SpotOf;
    ReadySound(vol);
    ClusterLaid(vol, cluster);
    k := FreeInSectors(vol, ClusterLba(vol.sb, cluster), vol.sb.spc, vol.sb.spc * 16, InCluster(cluster, 0));
    WholeCluster(vol.view, cluster, vol.sb.ClusterSize());
    lba, o := 0, 0;
    if k < vol.sb.spc * 16 {
      SpotInCluster(vol.sb, |vol.disk|, cluster, k * SLOT);
      lba, o := ClusterLba(vol.sb, cluster) + k / 16, k % 16 * SLOT;
    }
  }

  lemma NextValid(sb: Super, v: View, cluster: nat)
    requires cluster < |v.table| && NextOf(GeoOf(sb), v.table[cluster]).1 != 0
    ensures sb.ValidCluster(NextOf(GeoOf(sb), v.table[cluster]).1)
  {
  }

  /** The search in a chain, which ends with a new cluster if every slot is taken. */
  method FreeInChain(vol: Volume, first: u32, ghost dir: Folder)
      returns (r: Errno, lba: u32, o: u16, ghost dir': Folder)
    requires vol.Ready() && vol.sb.ValidCluster(first) && (IsFolder(vol.sb, vol.view, first, dir) ==> dir.Sub?)
    modifies vol
    ensures vol.Ready()
    ensures SlotFound(vol.sb, old(vol.view), first, dir, r, vol.view, dir', lba, o)
        && (r == Success ==> InPlace(vol.sb, lba, o))
    ensures r in {Success, NoSpaceLeft, OutOfMemory, IoError, InvalidArgument} && (vol.granted ==> r != OutOfMemory)
  {
    hide Volume.Ready, SlotFound, IsFolder, FirstFree, Chop, Sound, FolderOk, Looking, NextOf, NoneFree, Taken,
        ClusterLba, Full, HoldsEntries;
    ghost var sb, v := vol.sb, vol.view;
    ghost var ok := IsFolder(sb, v, first, dir);
    lba, o, dir' := 0, 0, dir;
    LookStart(sb, v, first, dir);
    var cluster, visited: nat := first, 0;
    while visited < vol.sb.clusterCount
      invariant vol.Ready() && vol.view == v && vol.sb.ValidCluster(cluster)
      invariant ok ==> Looking(sb, v, first, dir, visited, cluster)
    {
      var k;
      k, lba, o := FreeInCluster(vol, cluster);
      if k < vol.sb.spc * 16 {
        r := Success;
        ReadySound(vol);
        if ok { LookHit(sb, |vol.disk|, v, first, dir, visited, cluster, k);
              } else { NoSlotFound(sb, v, first, dir, r, v, dir', lba, o); }
        return;
      }
      if ok {
        LookValid(sb, v, first, dir, visited, cluster);
        LookNext(sb, v, first, dir, visited, cluster);
      }
      var next;
      r, next := NextCluster(vol, cluster);
      if r != Success {
        NoSlotFound(sb, v, first, dir, r, v, dir', lba, o);
        return;
      }
      if next == 0 {
        if !ok { NotFull(sb, v, first, dir, cluster); }
        r, lba, dir' := ExtendFolder(vol, first, cluster, dir);
        o := 0;
        return;
      }
      NextValid(sb, v, cluster);
      cluster, visited := next, visited + 1;
    }
    if ok { LookValid(sb, v, first, dir, visited, cluster); }
    r := IoError;
    NoSlotFound(sb, v, first, dir, r, v, dir', lba, o);
  }

  /** The last step of the search in a full chain. */
  method ExtendFolder(vol: Volume, ghost first: nat, last: u32, ghost dir: Folder)
      returns (r: Errno, lba: u32, ghost dir': Folder)
    requires vol.Ready() && last < vol.sb.Limit() && Full(vol.sb, vol.view, first, dir, last)
    modifies vol
    ensures vol.Ready()
    ensures SlotFound(vol.sb, old(vol.view), first, dir, r, vol.view, dir', lba, 0)
        && (r == Success ==> InPlace(vol.sb, lba, 0))
    ensures r in {Success, NoSpaceLeft, OutOfMemory, IoError, InvalidArgument} && (vol.granted ==> r != OutOfMemory)
  {
    hide Volume.Ready, SlotFound, IsFolder, Sound, NoneFree, Taken, Full, ClusterLba, HoldsEntries, SpotOf;
    ghost var sb, v := vol.sb, vol.view;
    ghost var ok := IsFolder(sb, v, first, dir);
    lba, dir' := 0, dir;
    var c;
    r, c := AllocAfter(vol, last);
    if r != Success {
      if ok { FullFolder(sb, v, first, dir, last, r);
            } else { NoSlotFound(sb, v, first, dir, r, vol.view, dir', lba, 0); }
      return;
    }
    lba := ClusterLba(vol.sb, c);
    ReadySound(vol);
    ClusterSome(sb, |vol.disk|);
    SpotInCluster(sb, |vol.disk|, c, 0);
    if ok {
      dir' := Sub(if dir.Sub? then dir.chain + [c] else []);
      ExtendedFolder(sb, |vol.disk|, v, first, dir, last, c);
    } else {
      NoSlotFound(sb, v, first, dir, r, vol.view, dir', lba, 0);
    }
  }

  /** fat_find_free_slot. */
  method FindFreeSlot(vol: Volume, first: u32, ghost dir: Folder)
      returns (r: Errno, lba: u32, o: u16, ghost dir': Folder)
    requires vol.Ready() && Readable(vol.sb, first)
    modifies vol
    ensures vol.Ready()
    ensures SlotFound(vol.sb, old(vol.view), first, dir, r, vol.view, dir', lba, o)
        && (r == Success ==> InPlace(vol.sb, lba, o))
    ensures r in {Success, NoSpaceLeft, OutOfMemory, IoError, InvalidArgument} && (vol.granted ==> r != OutOfMemory)
  {
    hide Volume.Ready, SlotFound, IsFolder, HoldsEntries;
    dir' := dir;
    if IsFolder(vol.sb, vol.view, first, dir) { WhichFolder(vol.sb, vol.view, first, dir); }
    if first == 0 && vol.sb.ty != Fat32 {
      r, lba, o := FreeInRoot(vol, dir);
    } else {
      r, lba, o, dir' := FreeInChain(vol, first, dir);
    }
  }
}
