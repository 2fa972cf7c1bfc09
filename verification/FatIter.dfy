/** fat_iter_dir, and lookup and readdir on top of it: each finds what Search finds among the directory's slots. */
module FatIter {
  import opened Machine
  import opened FatLayout
  import opened FatDisk
  import opened FatChain
  import opened FatContent
  import opened FatVolume
  import opened FatFile
  import opened FatStep
  import opened FatName
  import opened FatSlots
  import opened FatSearch
  import opened FatFolder

  /** What scanning one piece of a directory came to: a hit, the end marker, or n entries visited so far. */
  datatype Piece = Hit(i: nat) | Ended | More(n: nat)

  ghost predicate Pieced(p: seq<Slot>, q: Query, n: nat, r: Piece) {
    var pieced := match r
      case Hit(i) => Search(p, q, n) == Some(i)
      case Ended => Search(p, q, n) == None && !NoEnd(p)
      case More(m) => Search(p, q, n) == None && NoEnd(p) && m == n + |Listing(p)|;
    pieced
  }

  lemma NothingPieced(q: Query, n: nat)
    ensures Pieced([], q, n, More(n))
  {
  }

  /** One slot. */
  lemma PieceOne(s: Slot, q: Query, n: nat)
    ensures Pieced([s], q, n, if Ends(s) then Ended else
          if Shown(s) && q.Stops(s, n) then Hit(0) else More(n + Count(s)))
  {
    hide Query.Stops, Name, Key;
    var p := [s];
    assert p[0] == s && p[1..] == [];
    ListingCount([]);
    if !Ends(s) {
      ListingCount(p);
      assert Search(p[1..], q, n + Count(s)) == None;
      NoEndTail(p);
    }
  }

  function Behind(r: Piece, d: nat): Piece {
    if r.Hit? then Hit(d + r.i) else r
  }

  /** Two pieces, scanned one after the other. */
  lemma PieceJoin(a: seq<Slot>, b: seq<Slot>, q: Query, n: nat, m: nat, r: Piece)
    requires Pieced(a, q, n, More(m)) && Pieced(b, q, m, r)
    ensures Pieced(a + b, q, n, Behind(r, |a|))
  {
    hide Query.Stops, Search, Listing;
    SearchAppend(a, b, q, n);
    ListingAppend(a, b);
    assert r.Ended? ==> !NoEnd(a + b) by {
      if r.Ended? {
        var k :| 0 <= k < |b| && Ends(b[k]);
        assert (a + b)[|a| + k] == b[k];
      }
    }
  }

  lemma PieceSettled(a: seq<Slot>, b: seq<Slot>, q: Query, n: nat, r: Piece)
    requires Pieced(a, q, n, r) && !r.More?
    ensures Pieced(a + b, q, n, r)
  {
    hide Query.Stops, Search;
    SearchSettled(a, b, q, n);
    assert r.Ended? ==> !NoEnd(a + b) by {
      if r.Ended? {
        var k :| 0 <= k < |a| && Ends(a[k]);
        assert (a + b)[k] == a[k];
      }
    }
  }

  /** The inner loop of fat_iter_dir over the first m slots of a buffer. */
  method ScanPiece(buf: seq<byte>, m: nat, q: Query, n: nat) returns (r: Piece)
    requires m <= |buf| / SLOT
    ensures Pieced(Chop(buf)[..m], q, n, r) && (r.Hit? ==> r.i < m)
  {
    hide Pieced, Query.Stops, Chop;
    ghost var p := Chop(buf)[..m];
    NothingPieced(q, n);
    var i, count: nat := 0, n;
    while i < m
      invariant 0 <= i <= m && Pieced(p[..i], q, n, More(count))
    {
      var de := buf[i * SLOT..i * SLOT + SLOT];
      ChopAt(buf, i);
      PieceOne(de, q, count);
      assert p[..i + 1] == p[..i] + [de];
      if de[0] == 0 {
        PieceJoin(p[..i], [de], q, n, count, Ended);
        PieceSettled(p[..i + 1], p[i + 1..], q, n, Ended);
        assert p[..i + 1] + p[i + 1..] == p;
        return Ended;
      }
      if Shown(de) && q.Stops(de, count) {
        PieceJoin(p[..i], [de], q, n, count, Hit(0));
        PieceSettled(p[..i + 1], p[i + 1..], q, n, Hit(i));
        assert p[..i + 1] + p[i + 1..] == p;
        return Hit(i);
      }
      PieceJoin(p[..i], [de], q, n, count, More(count + Count(de)));
      count := count + Count(de);
      i := i + 1;
    }
    assert p[..m] == p;
    return More(count);
  }

  lemma ChopAt(buf: seq<byte>, i: nat)
    requires i < |buf| / SLOT
    ensures i * SLOT + SLOT <= |buf| && Chop(buf)[i] == buf[i * SLOT..i * SLOT + SLOT]
  {
  }

  /** An entry that ended a scan, and the sector and offset it was read from. */
  datatype Found = Found(slot: Slot, lba: u32, offset: u16)

  /** The sector is one that holds directory entries, the offset leaves room for one. */
  predicate InPlace(sb: Super, lba: nat, o: nat) {
    HoldsEntries(sb, lba) && o + SLOT <= SECTOR
  }

  /** Where a slot was found is where it lies. */
  ghost predicate FoundAt(sb: Super, g: Geo, entries: nat, v: View, dir: Folder, i: nat, h: Found)
    requires FolderOk(g, entries, v, dir)
  {
    && i < |Slots(g, entries, v, dir)| && h.slot == Slots(g, entries, v, dir)[i]
    && HoldsEntries(sb, h.lba) && h.offset + SLOT <= SECTOR
    && SlotAt(g, entries, v, dir, i, SpotOf(sb, h.lba, h.offset))
  }

  /** The node of a directory: first cluster 0 stands for the fixed root directory of FAT12 and FAT16. */
  ghost predicate IsFolder(sb: Super, v: View, first: nat, dir: Folder) {
    var isFolder := FolderOk(GeoOf(sb), sb.rootEntries, v, dir) && first == FirstCluster(dir);
    isFolder
  }

  /** What a scan of a directory comes to, whatever the query. */
  ghost predicate Iterated(sb: Super, v: View, first: nat, dir: Folder, q: Query, r: Errno, hit: Option<Found>) {
    var iterated := IsFolder(sb, v, first, dir) ==>
      var g, slots := GeoOf(sb), Slots(GeoOf(sb), sb.rootEntries, v, dir);
      && r in {Success, OutOfMemory}
      && (r == Success ==>
            match (Search(slots, q, 0), hit)
            case (None, None) => true
            case (Some(i), Some(h)) => FoundAt(sb, g, sb.rootEntries, v, dir, i, h)
            case _ => false);
    iterated
  }

  lemma RootBytes(vol: Volume)
    requires vol.Ready()
    ensures |vol.view.root| == vol.sb.rootSectors * SECTOR && vol.sb.rootEntries <= vol.sb.rootSectors * 16
    ensures vol.sb.rootStart + vol.sb.rootSectors == vol.sb.dataStart < U32 && 0 < vol.sb.spc
  {
  }

  /** The sector at index s of the fixed root directory. */
  lemma RootSector(sb: Super, s: nat, o: nat)
    requires 0 < sb.spc && s < sb.rootSectors && sb.rootStart + sb.rootSectors == sb.dataStart
    ensures HoldsEntries(sb, sb.rootStart + s) && SpotOf(sb, sb.rootStart + s, o) == InRoot(s * SECTOR + o)
  {
  }

  lemma SubSlices(b: seq<byte>, a: nat, n: nat, o: nat, m: nat, e: nat)
    requires o + m <= n && a + n <= |b| && a + o + m <= e <= |b|
    ensures b[a..a + n][o..o + m] == b[..e][a + o..a + o + m]
  {
    var x, y := b[a..a + n][o..o + m], b[..e][a + o..a + o + m];
    assert |x| == |y| && forall k :: 0 <= k < |x| ==> x[k] == y[k];
  }

  /** The slots a root sector contributes. */
  lemma RootPiece(root: seq<byte>, entries: nat, s: nat, m: nat)
    requires entries * SLOT <= |root| && s * SECTOR + SECTOR <= |root| && s * 16 + m <= entries && m <= 16
    ensures Chop(root[s * SECTOR..s * SECTOR + SECTOR])[..m] == Chop(root[..entries * SLOT])[s * 16..s * 16 + m]
  {
    var a, b := Chop(root[s * SECTOR..s * SECTOR + SECTOR])[..m], Chop(root[..entries * SLOT])[s * 16..s * 16 + m];
    forall k | 0 <= k < m ensures a[k] == b[k] {
      SubSlices(root, s * SECTOR, SECTOR, k * SLOT, SLOT, entries * SLOT);
    }
  }

  /** The root scan after s sectors. */
  ghost predicate RootScanned(slots: seq<Slot>, q: Query, s: nat, n: nat) {
    var scanned := s * 16 <= |slots| && Pieced(slots[..s * 16], q, 0, More(n));
    scanned
  }

  /** One more sector of the root directory, m of its slots within the directory. */
  lemma RootScanStep(slots: seq<Slot>, q: Query, s: nat, n: nat, m: nat, r: Piece)
    requires RootScanned(slots, q, s, n) && m <= 16 && s * 16 + m <= |slots|
        && Pieced(slots[s * 16..s * 16 + m], q, n, r)
    ensures !r.More? ==> Pieced(slots, q, 0, Behind(r, s * 16))
    ensures r.More? && m == 16 ==> RootScanned(slots, q, s + 1, r.n)
    ensures r.More? && s * 16 + m == |slots| ==> Pieced(slots, q, 0, r)
  {
    hide Pieced;
    var a, b, c := slots[..s * 16], slots[s * 16..s * 16 + m], slots[s * 16 + m..];
    PieceJoin(a, b, q, 0, n, r);
    assert a + b == slots[..s * 16 + m];
    if !r.More? {
      PieceSettled(a + b, c, q, 0, Behind(r, s * 16));
      assert a + b + c == slots;
    } else if s * 16 + m == |slots| {
      assert a + b == slots;
    }
  }

  lemma RootDone(slots: seq<Slot>, q: Query, s: nat, n: nat)
    requires RootScanned(slots, q, s, n) && s * 16 >= |slots|
    ensures Pieced(slots, q, 0, More(n))
  {
    assert slots[..s * 16] == slots;
  }

  lemma IteratedNothing(sb: Super, v: View, first: nat, dir: Folder, q: Query, r: Piece)
    requires IsFolder(sb, v, first, dir) ==> Pieced(Slots(GeoOf(sb), sb.rootEntries, v, dir), q, 0, r) && !r.Hit?
    ensures Iterated(sb, v, first, dir, q, Success, None)
  {
  }

  lemma IteratedHit(sb: Super, v: View, first: nat, dir: Folder, q: Query, i: nat, h: Found)
    requires IsFolder(sb, v, first, dir) ==>
      && Pieced(Slots(GeoOf(sb), sb.rootEntries, v, dir), q, 0, Hit(i))
      && FoundAt(sb, GeoOf(sb), sb.rootEntries, v, dir, i, h)
    ensures Iterated(sb, v, first, dir, q, Success, Some(h))
  {
  }

  lemma RootFound(sb: Super, v: View, s: nat, k: nat, buf: seq<byte>)
    requires FolderOk(GeoOf(sb), sb.rootEntries, v, Root) && 0 < sb.spc && s < sb.rootSectors
        && sb.rootStart + sb.rootSectors == sb.dataStart
    requires k < 16 && s * 16 + k < sb.rootEntries && s * SECTOR + SECTOR <= |v.root|
        && buf == v.root[s * SECTOR..s * SECTOR + SECTOR]
    requires sb.rootStart + s < U32
    ensures FoundAt(sb, GeoOf(sb), sb.rootEntries, v, Root, s * 16 + k,
        Found(buf[k * SLOT..k * SLOT + SLOT], sb.rootStart + s, k * SLOT))
  {
    RootSector(sb, s, k * SLOT);
    SubSlices(v.root, s * SECTOR, SECTOR, k * SLOT, SLOT, sb.rootEntries * SLOT);
  }

  /** fat_iter_dir on the fixed root directory: sector by sector, no further than its last entry. */
  method IterRoot(vol: Volume, q: Query) returns (hit: Option<Found>)
    requires vol.Ready() && vol.sb.ty != Fat32
    ensures Iterated(vol.sb, vol.view, 0, Root, q, Success, hit)
    ensures hit.Some? ==> InPlace(vol.sb, hit.value.lba, hit.value.offset)
  {
    hide Volume.Ready, Geo.Ok, Iterated, Pieced, Query.Stops, Search, RootScanned, HoldsEntries, FoundAt, Chop;
    GeoIsOk(vol);
    RootBytes(vol);
    ghost var v, sb := vol.view, vol.sb;
    ghost var slots := Chop(v.root[..sb.rootEntries * SLOT]);
    RootScanStart(slots, q);
    var s, n: nat := 0, 0;
    while s < vol.sb.rootSectors && s * 16 < vol.sb.rootEntries
      invariant 0 <= s <= vol.sb.rootSectors && RootScanned(slots, q, s, n)
      decreases vol.sb.rootSectors - s
    {
      RootSector(sb, s, 0);
      var buf := vol.LoadSector(vol.sb.rootStart + s);
      var m := Min(16, vol.sb.rootEntries - s * 16);
      RootPiece(v.root, sb.rootEntries, s, m);
      var r := ScanPiece(buf, m, q, n);
      RootScanStep(slots, q, s, n, m, r);
      match r {
        case Hit(i) =>
          RootFound(sb, v, s, i, buf);
          IteratedHit(sb, v, 0, Root, q, s * 16 + i, Found(buf[i * SLOT..i * SLOT + SLOT], sb.rootStart + s, i * SLOT));
          return Some(Found(buf[i * SLOT..i * SLOT + SLOT], vol.sb.rootStart + s, i * SLOT));
        case Ended =>
          IteratedNothing(sb, v, 0, Root, q, Ended);
          return None;
        case More(n') =>
          if m < 16 {
            IteratedNothing(sb, v, 0, Root, q, r);
            return None;
          }
          n := n';
      }
      s := s + 1;
    }
    RootDone(slots, q, s, n);
    IteratedNothing(sb, v, 0, Root, q, More(n));
    return None;
  }

  lemma RootScanStart(slots: seq<Slot>, q: Query)
    ensures RootScanned(slots, q, 0, 0)
  {
    NothingPieced(q, 0);
  }

  /** The scan of a chain, about to read its q-th cluster. */
  ghost predicate ChainScanned(sb: Super, v: View, first: nat, dir: Folder, q: Query, k: nat, cluster: nat, n: nat) {
    var scanned := IsFolder(sb, v, first, dir) && dir.Sub? ==>
      k < |dir.chain| && cluster == dir.chain[k]
          && Pieced(ChainSlots(GeoOf(sb), v.data, dir.chain[..k]), q, 0, More(n));
    scanned
  }

  lemma ChainScanStart(sb: Super, v: View, first: nat, dir: Folder, q: Query)
    ensures ChainScanned(sb, v, first, dir, q, 0, first, 0)
  {
    NothingPieced(q, 0);
  }

  /** A chain's own clusters can be read, and there are no more of them than the volume has. */
  lemma ChainScanValid(sb: Super, v: View, first: nat, dir: Folder, q: Query, k: nat, cluster: nat, n: nat)
    requires ChainScanned(sb, v, first, dir, q, k, cluster, n) && IsFolder(sb, v, first, dir) && dir.Sub?
    ensures sb.ValidCluster(cluster) && k < sb.clusterCount && |v.data[cluster]| == sb.ClusterSize()
    ensures NextOf(GeoOf(sb), v.table[cluster]).0 == Success
  {
    hide Pieced;
    ChainBounded(GeoOf(sb), v.table, first, dir.chain);
    NextInChain(GeoOf(sb), v.table, first, dir.chain, k);
  }

  /** What one cluster's piece means for the whole directory. */
  lemma ChainScanStep(sb: Super, v: View, first: nat, dir: Folder, q: Query, k: nat, cluster: nat, n: nat, r: Piece)
    requires IsFolder(sb, v, first, dir) && dir.Sub?
    requires ChainScanned(sb, v, first, dir, q, k, cluster, n) && cluster < |v.data|
        && Pieced(Chop(v.data[cluster]), q, n, r)
    ensures var g, slots := GeoOf(sb), Slots(GeoOf(sb), sb.rootEntries, v, dir);
            && (!r.More? ==> Pieced(slots, q, 0, Behind(r, FirstSlot(g, v.data, dir.chain, k))))
            && (r.More? && k + 1 == |dir.chain| ==> Pieced(slots, q, 0, r))
            && (r.More? ==> Pieced(ChainSlots(g, v.data, dir.chain[..k + 1]), q, 0, r))
  {
    hide Pieced;
    var g, chain := GeoOf(sb), dir.chain;
    ChainSlotsUpTo(g, v.data, chain, k);
    var done, slots := ChainSlots(g, v.data, chain[..k + 1]), ChainSlots(g, v.data, chain);
    PieceJoin(ChainSlots(g, v.data, chain[..k]), Chop(v.data[cluster]), q, 0, n, r);
    if !r.More? {
      PieceSettled(done, slots[|done|..], q, 0, Behind(r, FirstSlot(g, v.data, chain, k)));
      assert done + slots[|done|..] == slots;
    }
    if k + 1 == |chain| { assert chain[..k + 1] == chain; }
  }

  lemma ChainScanNext(sb: Super, v: View, first: nat, dir: Folder, q: Query, k: nat, cluster: nat, n: nat, r: Piece)
    requires IsFolder(sb, v, first, dir) && dir.Sub? && r.More?
    requires ChainScanned(sb, v, first, dir, q, k, cluster, n) && cluster < |v.data|
        && Pieced(Chop(v.data[cluster]), q, n, r)
    ensures cluster < |v.table| && NextOf(GeoOf(sb), v.table[cluster]).0 == Success
    ensures var next := NextOf(GeoOf(sb), v.table[cluster]).1;
            if next == 0 then Pieced(Slots(GeoOf(sb), sb.rootEntries, v, dir), q, 0, r)
            else ChainScanned(sb, v, first, dir, q, k + 1, next, r.n)
  {
    hide Pieced;
    ChainScanStep(sb, v, first, dir, q, k, cluster, n, r);
    NextInChain(GeoOf(sb), v.table, first, dir.chain, k);
  }

  lemma MulStep(c: nat, spc: nat, s: nat)
    requires 2 <= c && s < spc
    ensures ((c - 2) * spc + s) / spc + 2 == c && ((c - 2) * spc + s) % spc == s
  {
    Quotient((c - 2) * spc + s, spc, c - 2, s);
  }

  /** The sector and offset computed for byte off of a cluster name that byte. */
  lemma SpotInCluster(sb: Super, sectors: nat, c: nat, off: nat)
    requires Sound(sb, sectors) && sb.ValidCluster(c) && off < sb.ClusterSize()
    ensures ClusterLba(sb, c) + off / SECTOR < U32 && HoldsEntries(sb, ClusterLba(sb, c) + off / SECTOR)
    ensures SpotOf(sb, ClusterLba(sb, c) + off / SECTOR, off % SECTOR) == InCluster(c, off)
  {
    var s := off / SECTOR;
    ClusterInside(sb, sectors, c);
    MulStep(c, sb.spc, s);
    assert ClusterLba(sb, c) + s - sb.dataStart == (c - 2) * sb.spc + s;
  }

  /** Slot i of the k-th cluster, as a slot of the directory. */
  lemma SlotInSub(g: Geo, entries: nat, v: View, chain: seq<nat>, k: nat, i: nat)
    requires FolderOk(g, entries, v, Sub(chain)) && k < |chain| && i < |v.data[chain[k]]| / SLOT
    ensures var j, slots := FirstSlot(g, v.data, chain, k) + i, Slots(g, entries, v, Sub(chain));
            && j < |slots| && slots[j] == v.data[chain[k]][i * SLOT..i * SLOT + SLOT]
            && SlotAt(g, entries, v, Sub(chain), j, InCluster(chain[k], i * SLOT))
  {
    ChainSlotsPatch(g, v.data, chain, k, i, v.data[chain[k]][i * SLOT..i * SLOT + SLOT]);
    assert InSub(g, v, chain, FirstSlot(g, v.data, chain, k) + i, InCluster(chain[k], i * SLOT), k, i);
  }

  lemma ChainFound(sb: Super, sectors: nat, v: View, chain: seq<nat>, k: nat, i: nat)
    requires Sound(sb, sectors) && FolderOk(GeoOf(sb), sb.rootEntries, v, Sub(chain))
    requires k < |chain| && sb.ValidCluster(chain[k]) && |v.data[chain[k]]| == sb.ClusterSize()
        && i < sb.ClusterSize() / SLOT
    ensures ClusterLba(sb, chain[k]) + i * SLOT / SECTOR < U32
    ensures FoundAt(sb, GeoOf(sb), sb.rootEntries, v, Sub(chain), FirstSlot(GeoOf(sb), v.data, chain, k) + i,
                    Found(v.data[chain[k]][i * SLOT..i * SLOT + SLOT], ClusterLba(sb, chain[k]) + i * SLOT / SECTOR,
                        i * SLOT % SECTOR))
  {
    hide FolderOk, HoldsEntries, SpotOf, ClusterLba, Sound, SlotAt, Slots, Chop;
    SpotInCluster(sb, sectors, chain[k], i * SLOT);
    SlotInSub(GeoOf(sb), sb.rootEntries, v, chain, k, i);
  }

  /** A hit in the k-th cluster is the scan's result. */
  lemma HitInChain(sb: Super, sectors: nat, v: View, first: nat, dir: Folder, q: Query, k: nat, cluster: nat, n: nat,
      i: nat, h: Found)
    requires Sound(sb, sectors) && IsFolder(sb, v, first, dir) && dir.Sub?
        && ChainScanned(sb, v, first, dir, q, k, cluster, n)
    requires cluster < |v.data| && Pieced(Chop(v.data[cluster]), q, n, Hit(i)) && i < sb.ClusterSize() / SLOT
    requires |v.data[cluster]| == sb.ClusterSize() && h.slot == v.data[cluster][i * SLOT..i * SLOT + SLOT]
    requires h.lba == ClusterLba(sb, cluster) + i * SLOT / SECTOR && h.offset == i * SLOT % SECTOR
    ensures Iterated(sb, v, first, dir, q, Success, Some(h))
  {
    hide Pieced, HoldsEntries, Sound, FoundAt, Iterated, ClusterLba, Chop, Slots;
    ChainScanValid(sb, v, first, dir, q, k, cluster, n);
    ChainScanStep(sb, v, first, dir, q, k, cluster, n, Hit(i));
    ChainFound(sb, sectors, v, dir.chain, k, i);
    IteratedHit(sb, v, first, dir, q, FirstSlot(GeoOf(sb), v.data, dir.chain, k) + i, h);
  }

  lemma ReadySound(vol: Volume)
    requires vol.Ready()
    ensures Sound(vol.sb, |vol.disk|)
  {
  }

  lemma ChopWhole(b: seq<byte>)
    ensures Chop(b)[..|b| / SLOT] == Chop(b)
  {
  }

  /** A scan that ran into an error was not a scan of a directory of the volume. */
  lemma NotAFolder(sb: Super, v: View, first: nat, dir: Folder, q: Query, r: Errno, hit: Option<Found>)
    requires !IsFolder(sb, v, first, dir)
    ensures Iterated(sb, v, first, dir, q, r, hit)
  {
  }

  /** Sector and offset of slot i of a cluster. */
  method FoundIn(vol: Volume, cluster: u32, buf: seq<byte>, i: nat) returns (h: Found)
    requires vol.Ready() && vol.sb.ValidCluster(cluster) && i < |buf| / SLOT && |buf| == vol.sb.ClusterSize()
    ensures InPlace(vol.sb, h.lba, h.offset) && h.slot == buf[i * SLOT..i * SLOT + SLOT]
    ensures h.lba == ClusterLba(vol.sb, cluster) + i * SLOT / SECTOR && h.offset == i * SLOT % SECTOR
  {
    hide Volume.Ready, HoldsEntries, SpotOf, Sound, ClusterLba;
    ReadySound(vol);
    SpotInCluster(vol.sb, |vol.disk|, cluster, i * SLOT);
    h := Found(buf[i * SLOT..i * SLOT + SLOT], ClusterLba(vol.sb, cluster) + i * SLOT / SECTOR, i * SLOT % SECTOR);
  }

  /** fat_iter_dir on a chain, cluster by cluster. */
  method IterChain(vol: Volume, first: u32, q: Query, ghost chain: seq<nat>) returns (r: Errno, hit: Option<Found>)
    requires vol.Ready()
    ensures Iterated(vol.sb, vol.view, first, Sub(chain), q, r, hit) && (r == Success ==> vol.sb.ValidCluster(first))
    ensures r in {Success, IoError, InvalidArgument} && (hit.Some? ==> InPlace(vol.sb, hit.value.lba, hit.value.offset))
  {
    hide Volume.Ready, Geo.Ok, Iterated, Pieced, Query.Stops, Search, ChainScanned, InPlace, FoundAt, IsFolder,
        FolderOk, Sound, NextOf, Slots, Chop, ClusterLba;
    GeoIsOk(vol);
    ReadySound(vol);
    ghost var v, sb, dir := vol.view, vol.sb, Sub(chain);
    ghost var ok := IsFolder(sb, v, first, dir);
    r, hit := Success, None;
    var cluster, n: nat, visited: nat := first, 0, 0;
    ChainScanStart(sb, v, first, dir, q);
    while visited < vol.sb.clusterCount
      invariant ok ==> ChainScanned(sb, v, first, dir, q, visited, cluster, n)
      invariant visited == 0 ==> cluster == first
      invariant visited > 0 ==> vol.sb.ValidCluster(first)
    {
      if ok { ChainScanValid(sb, v, first, dir, q, visited, cluster, n); }
      var buf;
      r, buf := vol.ReadCluster(cluster);
      if r != Success {
        NotAFolder(sb, v, first, dir, q, r, None);
        return;
      }
      ChopWhole(buf);
      var p := ScanPiece(buf, |buf| / SLOT, q, n);
      if ok { ChainScanStep(sb, v, first, dir, q, visited, cluster, n, p); }
      match p {
        case Hit(i) =>
          var h := FoundIn(vol, cluster, buf, i);
          hit := Some(h);
          if ok { HitInChain(sb, |vol.disk|, v, first, dir, q, visited, cluster, n, i, hit.value);
                } else { NotAFolder(sb, v, first, dir, q, r, hit); }
          return;
        case Ended =>
          IteratedNothing(sb, v, first, dir, q, Ended);
          return;
        case More(n') =>
          if ok { ChainScanNext(sb, v, first, dir, q, visited, cluster, n, p); }
          r, cluster := NextCluster(vol, cluster);
          if r != Success {
            NotAFolder(sb, v, first, dir, q, r, None);
            return;
          }
          if cluster == 0 {
            IteratedNothing(sb, v, first, dir, q, p);
            return;
          }
          n := n';
      }
      visited := visited + 1;
    }
    if ok { ChainScanValid(sb, v, first, dir, q, visited, cluster, n); }
    r := IoError;
    NotAFolder(sb, v, first, dir, q, r, None);
  }

  lemma WhichFolder(sb: Super, v: View, first: nat, dir: Folder)
    requires IsFolder(sb, v, first, dir)
    ensures dir.Root? <==> first == 0 && sb.ty != Fat32
    ensures dir.Root? ==> dir == Root
  {
  }

  lemma IteratedOutOfMemory(sb: Super, v: View, first: nat, dir: Folder, q: Query)
    ensures Iterated(sb, v, first, dir, q, OutOfMemory, None)
  {
  }

  /** A first-cluster field a directory can be read from. */
  predicate Readable(sb: Super, first: nat) {
    (first == 0 && sb.ty != Fat32) || sb.ValidCluster(first)
  }

  /** fat_iter_dir. */
  method IterDir(vol: Volume, first: u32, q: Query, ghost dir: Folder) returns (r: Errno, hit: Option<Found>)
    requires vol.Ready()
    ensures Iterated(vol.sb, vol.view, first, dir, q, r, hit) && (r == Success ==> Readable(vol.sb, first))
    ensures r in {Success, OutOfMemory, IoError, InvalidArgument} && (vol.granted ==> r != OutOfMemory)
        && (hit.Some? ==> InPlace(vol.sb, hit.value.lba, hit.value.offset))
  {
    hide Volume.Ready, Iterated, IsFolder;
    var memory := vol.Malloc();
    if !memory {
      IteratedOutOfMemory(vol.sb, vol.view, first, dir, q);
      return OutOfMemory, None;
    }
    if IsFolder(vol.sb, vol.view, first, dir) { WhichFolder(vol.sb, vol.view, first, dir); }
    if first == 0 && vol.sb.ty != Fat32 {
      r := Success;
      hit := IterRoot(vol, q);
    } else {
      r, hit := IterChain(vol, first, q, if dir.Sub? then dir.chain else []);
    }
    if !IsFolder(vol.sb, vol.view, first, dir) { NotAFolder(vol.sb, vol.view, first, dir, q, r, hit); }
  }

  /** The directory flag of an entry. */
  predicate IsDirectory(s: Slot) { s[11] / 16 % 2 == 1 }

  /** Lookup returns the node of what the name map holds, and fails exactly for the names it does not hold. */
  ghost predicate LookedUp(sb: Super, v: View, first: nat, dir: Folder, want: seq<byte>, r: Errno, h: Found) {
    var lookedUp := IsFolder(sb, v, first, dir) ==>
      var g, slots := GeoOf(sb), Slots(GeoOf(sb), sb.rootEntries, v, dir);
      && r in {Success, NotFound, OutOfMemory}
      && (r == NotFound ==> UpAll(want) !in Dir(slots))
      && (r == Success ==>
            && UpAll(want) in Dir(slots) && Dir(slots)[UpAll(want)] == h.slot
            && exists i: nat :: Visible(slots, i) && FoundAt(sb, g, sb.rootEntries, v, dir, i, h));
    lookedUp
  }

  lemma LookupResult(sb: Super, v: View, first: nat, dir: Folder, want: seq<byte>, r: Errno, hit: Option<Found>,
      h: Found)
    requires Iterated(sb, v, first, dir, Named(want), r, hit) && (hit.Some? ==> h == hit.value)
    ensures LookedUp(sb, v, first, dir, want, if r == Success && hit == None then NotFound else r, h)
    ensures LookedUp(sb, v, first, dir, want, OutOfMemory, h)
  {
    hide SlotAt, HoldsEntries, SpotOf, Dir, Search;
    if IsFolder(sb, v, first, dir) {
      LookupIsMap(Slots(GeoOf(sb), sb.rootEntries, v, dir), want);
    }
  }

  const NO_ENTRY: Found := Found(Zeros(32), 0, 0)

  /** fat_lookup_vn. */
  method Lookup(vol: Volume, first: u32, want: seq<byte>, ghost dir: Folder)
      returns (r: Errno, node: FatNode?, h: Found)
    requires vol.Ready()
    ensures LookedUp(vol.sb, vol.view, first, dir, want, r, h) && (r in {Success, NotFound} ==> Readable(vol.sb, first))
    ensures node != null <==> r == Success
    ensures r in {Success, NotFound, OutOfMemory, IoError, InvalidArgument} && (vol.granted ==> r != OutOfMemory)
    ensures r == Success ==>
      && InPlace(vol.sb, h.lba, h.offset) && fresh(node) && node.firstCluster == FirstOf(h.slot)
          && node.size == SizeOf(h.slot)
      && node.hasDirent && node.dirSector == h.lba && node.dirOffset == h.offset
  {
    hide Volume.Ready, Iterated, LookedUp;
    node, h := null, NO_ENTRY;
    var hit;
    r, hit := IterDir(vol, first, Named(want), dir);
    if hit.Some? { h := hit.value; }
    LookupResult(vol.sb, vol.view, first, dir, want, r, hit, h);
    if r != Success { return; }
    if hit == None {
      r := NotFound;
      return;
    }
    var memory := vol.Malloc();
    if !memory {
      r := OutOfMemory;
      return;
    }
    node := new FatNode(FirstOf(h.slot), SizeOf(h.slot), h.lba, h.offset);
  }

  /** readdir(index) delivers the index-th listed entry and fails exactly beyond the last one. */
  ghost predicate Enumerated(sb: Super, v: View, first: nat, dir: Folder, index: nat, r: Errno, name: seq<byte>,
      isDir: bool) {
    var enumerated := IsFolder(sb, v, first, dir) ==>
      var listing := Listing(Slots(GeoOf(sb), sb.rootEntries, v, dir));
      && r in {Success, NotFound, OutOfMemory}
      && (r == NotFound ==> index >= |listing|)
      && (r == Success ==> index < |listing| && name == Name(listing[index]) && isDir == IsDirectory(listing[index]));
    enumerated
  }

  lemma ReaddirResult(sb: Super, v: View, first: nat, dir: Folder, index: nat, r: Errno, hit: Option<Found>)
    requires Iterated(sb, v, first, dir, Ordinal(index), r, hit)
    ensures Enumerated(sb, v, first, dir, index, if r == Success && hit == None then NotFound else r,
                       if hit.Some? then Name(hit.value.slot) else [], hit.Some? && IsDirectory(hit.value.slot))
  {
    hide Search, Listing, Name;
    if IsFolder(sb, v, first, dir) {
      ReaddirIsListing(Slots(GeoOf(sb), sb.rootEntries, v, dir), index);
    }
  }

  /** fat_readdir_vn. */
  method Readdir(vol: Volume, first: u32, index: u32, ghost dir: Folder)
      returns (r: Errno, name: seq<byte>, isDir: bool)
    requires vol.Ready()
    ensures Enumerated(vol.sb, vol.view, first, dir, index, r, name, isDir)
    ensures vol.granted ==> r != OutOfMemory
  {
    hide Volume.Ready, Iterated, Enumerated, Name;
    var hit;
    r, hit := IterDir(vol, first, Ordinal(index), dir);
    ReaddirResult(vol.sb, vol.view, first, dir, index, r, hit);
    name, isDir := [], false;
    match hit {
      case Some(h) => name, isDir := Name(h.slot), IsDirectory(h.slot);
      case None => if r == Success { r := NotFound; }
    }
  }
}
