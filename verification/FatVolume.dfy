/**
 A mounted volume: the sectors of its device, and the primitives every other part of the driver goes
 through. Each primitive is tied to the abstract view (table, clusters, fixed root directory).
 */
module FatVolume {
  import opened Machine
  import opened FatLayout
  import opened FatDisk
  import Codec = FatCodec

  /** What the driver's upper layers see of the disk. */
  datatype View = View(table: seq<nat>, data: seq<seq<byte>>, root: seq<byte>)

  function ViewOf(sb: Super, disk: Disk): (v: View)
    requires Sound(sb, |disk|)
    ensures |v.table| == |v.data| == sb.Limit()
    ensures forall c: nat | sb.ValidCluster(c) :: |v.data[c]| == sb.ClusterSize()
  {
    View(TableOf(sb, disk, 0), DataOf(sb, disk), RootOf(sb, disk))
  }

  function UpdateTable(v: View, i: nat, e: nat): View
    requires i < |v.table|
  {
    v.(table := v.table[i := e])
  }

  function UpdateData(v: View, c: nat, buf: seq<byte>): View
    requires c < |v.data|
  {
    v.(data := v.data[c := buf])
  }

  /** A byte position inside the fixed root directory or inside a cluster. */
  datatype Spot = InRoot(at: nat) | InCluster(c: nat, at: nat)

  /** Sectors directory entries may live in. */
  predicate HoldsEntries(sb: Super, lba: nat) {
    && 0 < sb.spc && sb.rootStart <= lba
    && (sb.dataStart <= lba ==> sb.ValidCluster(SectorCluster(sb, lba)))
  }

  function SpotOf(sb: Super, lba: nat, o: nat): Spot
    requires HoldsEntries(sb, lba)
  {
    if lba < sb.dataStart then InRoot((lba - sb.rootStart) * SECTOR + o)
    else InCluster(SectorCluster(sb, lba), SectorIndex(sb, lba) * SECTOR + o)
  }

  /** n bytes from the spot on are part of the view. */
  predicate Holds(v: View, spot: Spot, n: nat) {
    match spot
    case InRoot(at) => at + n <= |v.root|
    case InCluster(c, at) => c < |v.data| && at + n <= |v.data[c]|
  }

  function Peek(v: View, spot: Spot, n: nat): (s: seq<byte>)
    requires Holds(v, spot, n)
    ensures |s| == n
  {
    match spot
    case InRoot(at) => v.root[at..at + n]
    case InCluster(c, at) => v.data[c][at..at + n]
  }

  function Poke(v: View, spot: Spot, p: seq<byte>): (r: View)
    requires Holds(v, spot, |p|)
    ensures r.table == v.table && |r.data| == |v.data|
  {
    match spot
    case InRoot(at) => v.(root := Splice(v.root, at, p))
    case InCluster(c, at) => UpdateData(v, c, Splice(v.data[c], at, p))
  }

  /** Patching one sector of a directory is a patch of the view. */
  lemma SectorPatched(sb: Super, disk: Disk, after: Disk, lba: nat, o: nat, p: seq<byte>)
    requires Sound(sb, |disk|) && HoldsEntries(sb, lba) && lba < |disk|
    requires 0 < |p| && o + |p| <= SECTOR && after == disk[lba := Splice(disk[lba], o, p)]
    ensures Holds(ViewOf(sb, disk), SpotOf(sb, lba, o), |p|)
    ensures ViewOf(sb, after) == Poke(ViewOf(sb, disk), SpotOf(sb, lba, o), p)
    ensures forall copy: nat | copy < sb.fatCount :: TableOf(sb, after, copy) == TableOf(sb, disk, copy)
  {
    forall copy: nat | copy < sb.fatCount ensures TableOf(sb, after, copy) == TableOf(sb, disk, copy) {
      TableFramed(sb, disk, after, copy);
    }
    if lba < sb.dataStart {
      DataFramed(sb, disk, after);
      InsideSector(lba - sb.rootStart, o, |p|, sb.rootSectors);
      FlatPatched(disk, sb.rootStart, sb.rootSectors, (lba - sb.rootStart) * SECTOR + o, p);
    } else {
      ClusterPatched(sb, disk, after, lba, o, p);
      FlatFramed(disk, after, sb.rootStart, sb.rootSectors);
    }
  }

  /** A sector read shows the bytes the view has there. */
  lemma SectorSeen(sb: Super, disk: Disk, lba: nat)
    requires Sound(sb, |disk|) && HoldsEntries(sb, lba)
    ensures lba < |disk|
    ensures Holds(ViewOf(sb, disk), SpotOf(sb, lba, 0), SECTOR)
    ensures disk[lba] == Peek(ViewOf(sb, disk), SpotOf(sb, lba, 0), SECTOR)
  {
    if lba < sb.dataStart {
      FlatSector(disk, sb.rootStart, sb.rootSectors, lba - sb.rootStart);
    } else {
      var c, index := SectorCluster(sb, lba), SectorIndex(sb, lba);
      SectorInCluster(sb, |disk|, lba);
      ClusterInside(sb, |disk|, c);
      FlatSector(disk, ClusterLba(sb, c), sb.spc, index);
    }
  }

  /** Sectors outside the FAT region are the same on both disks. */
  ghost predicate OnlyFatChanged(sb: Super, disk: Disk, after: Disk) {
    |after| == |disk| && forall l :: 0 <= l < |disk| && !(sb.fatStart <= l < sb.rootStart) ==> after[l] == disk[l]
  }

  /** One FAT copy has bytes p spliced in at o; nothing else on the disk moved. */
  ghost predicate CopySpliced(sb: Super, disk: Disk, after: Disk, copy: nat, o: nat, p: seq<byte>)
    requires Sound(sb, |disk|) && copy < sb.fatCount && o + |p| <= sb.fatSectors * SECTOR
  {
    && OnlyFatChanged(sb, disk, after)
    && FatBytes(sb, after, copy) == Splice(FatBytes(sb, disk, copy), o, p)
    && forall c: nat | c < sb.fatCount && c != copy :: FatBytes(sb, after, c) == FatBytes(sb, disk, c)
  }

  lemma CopyPatched(sb: Super, disk: Disk, after: Disk, copy: nat, o: nat, p: seq<byte>)
    requires Sound(sb, |disk|) && copy < sb.fatCount
    requires 0 < |p| && o + |p| <= sb.fatSectors * SECTOR && o % SECTOR + |p| <= SECTOR
    requires sb.FatBase(copy) + o / SECTOR < |disk|
    requires after == disk[sb.FatBase(copy) + o / SECTOR := Splice(disk[sb.FatBase(copy) + o / SECTOR], o % SECTOR, p)]
    ensures CopySpliced(sb, disk, after, copy, o, p)
  {
    FatCopiesDisjoint(sb, |disk|, copy);
    FlatPatched(disk, sb.FatBase(copy), sb.fatSectors, o, p);
    forall c: nat | c < sb.fatCount && c != copy ensures FatBytes(sb, after, c) == FatBytes(sb, disk, c) {
      FatCopiesDisjoint(sb, |disk|, c);
      FlatFramed(disk, after, sb.FatBase(c), sb.fatSectors);
    }
  }

  lemma CopyPatchedTwice(sb: Super, disk: Disk, mid: Disk, after: Disk, copy: nat, o: nat, p: seq<byte>)
    requires Sound(sb, |disk|) && copy < sb.fatCount && |p| == 2 && o + 2 <= sb.fatSectors * SECTOR
    requires CopySpliced(sb, disk, mid, copy, o, [p[0]])
    requires CopySpliced(sb, mid, after, copy, o + 1, [p[1]])
    ensures CopySpliced(sb, disk, after, copy, o, p)
  {
    SpliceAdjacent(FatBytes(sb, disk, copy), o, [p[0]], [p[1]]);
    assert [p[0]] + [p[1]] == p;
  }

  /** An entry that straddles two sectors is patched by one byte in each. */
  lemma StraddlePatched(sb: Super, disk: Disk, mid: Disk, after: Disk, copy: nat, lba: nat, o: nat, p: seq<byte>)
    requires Sound(sb, |disk|) && copy < sb.fatCount && |p| == 2 && o + 2 <= sb.fatSectors * SECTOR
    requires o % SECTOR == SECTOR - 1 && lba == sb.FatBase(copy) + o / SECTOR && lba + 1 < |disk|
    requires mid == disk[lba := Splice(disk[lba], SECTOR - 1, [p[0]])]
    requires after == mid[lba + 1 := Splice(disk[lba + 1], 0, [p[1]])]
    ensures CopySpliced(sb, disk, after, copy, o, p)
  {
    assert (o + 1) / SECTOR == o / SECTOR + 1 && (o + 1) % SECTOR == 0;
    CopyPatched(sb, disk, mid, copy, o, [p[0]]);
    CopyPatched(sb, mid, after, copy, o + 1, [p[1]]);
    CopyPatchedTwice(sb, disk, mid, after, copy, o, p);
  }

  /** The result of a table access at an index, before any sector is touched. */
  function Access(sb: Super, index: nat): Errno {
    if index >= sb.Limit() then InvalidArgument else if !EntryGuard(sb, index) then IoError else Success
  }

  /** The two bytes a FAT12 entry lies in, in one sector or across two. */
  lemma Word12(sb: Super, disk: Disk, copy: nat, o: nat)
    requires Sound(sb, |disk|) && copy < sb.fatCount && o + 2 <= sb.fatSectors * SECTOR
    ensures var l := sb.FatBase(copy) + o / SECTOR;
            && l < |disk|
            && (o % SECTOR + 1 < SECTOR ==> Le16(FatBytes(sb, disk, copy), o) == Le16(disk[l], o % SECTOR))
            && (o % SECTOR + 1 == SECTOR ==>
                  && l + 1 < |disk| && (o + 1) / SECTOR == o / SECTOR + 1 && (o + 1) % SECTOR == 0
                  && Le16(FatBytes(sb, disk, copy), o) == disk[l][SECTOR - 1] as int + 0x100 * disk[l + 1][0] as int)
  {
    FatCopiesDisjoint(sb, |disk|, copy);
    FlatField(disk, sb.FatBase(copy), sb.fatSectors, o);
    FlatField(disk, sb.FatBase(copy), sb.fatSectors, o + 1);
    assert o % SECTOR + 1 == SECTOR ==> (o + 1) / SECTOR == o / SECTOR + 1 && (o + 1) % SECTOR == 0;
  }

  /** Where a table entry sits on the disk, for each variant. */
  lemma Entry12(sb: Super, disk: Disk, i: nat)
    requires Sound(sb, |disk|) && sb.ty == Fat12 && i < sb.Limit()
    ensures var o := EntryOffset(Fat12, i);
            var l := sb.fatStart + o / SECTOR;
            && l < |disk| && (o % SECTOR == SECTOR - 1 ==> l + 1 < |disk|)
            && var high: int := if o % SECTOR + 1 < SECTOR then disk[l][o % SECTOR + 1] else disk[l + 1][0];
            && var w := disk[l][o % SECTOR] as int + 0x100 * high;
            TableOf(sb, disk, 0)[i] == if i % 2 == 1 then w / 16 else w % 0x1000
  {
    Word12(sb, disk, 0, EntryOffset(Fat12, i));
  }

  /** FAT16 and FAT32 entries never straddle a sector. */
  lemma EntryInSector(i: nat)
    ensures i * 2 % SECTOR + 2 <= SECTOR && i * 4 % SECTOR + 4 <= SECTOR
  {
    var q, r := i / 256, i % 256;
    assert i * 2 == SECTOR * q + r * 2;
    var q', r' := i / 128, i % 128;
    assert i * 4 == SECTOR * q' + r' * 4;
  }

  lemma Entry16(sb: Super, disk: Disk, i: nat)
    requires Sound(sb, |disk|) && sb.ty == Fat16 && i < sb.Limit()
    ensures var o := EntryOffset(Fat16, i);
            && sb.fatStart + o / SECTOR < |disk| && o % SECTOR + 2 <= SECTOR
            && TableOf(sb, disk, 0)[i] == Le16(disk[sb.fatStart + o / SECTOR], o % SECTOR)
  {
    EntryInSector(i);
    FatCopiesDisjoint(sb, |disk|, 0);
    FlatField(disk, sb.fatStart, sb.fatSectors, EntryOffset(Fat16, i));
  }

  lemma Entry32(sb: Super, disk: Disk, i: nat)
    requires Sound(sb, |disk|) && sb.ty == Fat32 && i < sb.Limit()
    ensures var o := EntryOffset(Fat32, i);
            && sb.fatStart + o / SECTOR < |disk| && o % SECTOR + 4 <= SECTOR
            && TableOf(sb, disk, 0)[i] == Le32(disk[sb.fatStart + o / SECTOR], o % SECTOR) % 0x1000_0000
  {
    EntryInSector(i);
    FatCopiesDisjoint(sb, |disk|, 0);
    FlatField32(disk, sb.fatStart, sb.fatSectors, EntryOffset(Fat32, i));
  }

  /** The first done copies hold the new entry, the others are still as they were. */
  ghost predicate AllCopiesPut(sb: Super, disk: Disk, after: Disk, i: nat, v: nat, done: nat)
    requires Sound(sb, |disk|) && i < sb.Limit()
  {
    && OnlyFatChanged(sb, disk, after)
    && forall c: nat | c < sb.fatCount ::
         FatBytes(sb, after, c) == if c < done then Codec.Put(sb.ty, FatBytes(sb, disk, c), i, v)
             else FatBytes(sb, disk, c)
  }

  lemma CopyPutStep(sb: Super, disk: Disk, before: Disk, after: Disk, i: nat, v: nat, copy: nat)
    requires Sound(sb, |disk|) && i < sb.Limit() && copy < sb.fatCount
    requires AllCopiesPut(sb, disk, before, i, v, copy)
    requires CopySpliced(sb, before, after, copy, EntryOffset(sb.ty, i),
        Codec.Encoded(sb.ty, FatBytes(sb, before, copy), i, v))
    ensures AllCopiesPut(sb, disk, after, i, v, copy + 1)
  {
  }

  lemma EntrySector(sb: Super, disk: Disk, copy: nat, o: nat)
    requires Sound(sb, |disk|) && copy < sb.fatCount && o < sb.fatSectors * SECTOR
    ensures sb.FatBase(copy) + o / SECTOR < |disk|
    ensures FatBytes(sb, disk, copy)[o] == disk[sb.FatBase(copy) + o / SECTOR][o % SECTOR]
  {
    FatCopiesDisjoint(sb, |disk|, copy);
    FlatField(disk, sb.FatBase(copy), sb.fatSectors, o);
  }

  /** The bytes fat32_set stores, in terms of the sector it read. */
  lemma Slot32(sb: Super, disk: Disk, copy: nat, i: nat)
    requires Sound(sb, |disk|) && sb.ty == Fat32 && copy < sb.fatCount && i < sb.Limit()
    ensures var o := i * 4;
            var l := sb.FatBase(copy) + o / SECTOR;
            && l < |disk| && o % SECTOR + 4 <= SECTOR && o + 4 <= sb.fatSectors * SECTOR && o == EntryOffset(Fat32, i)
            && forall v: nat :: Codec.Encoded(Fat32, FatBytes(sb, disk, copy), i, v)
                             == Bytes32(Codec.Join32(v, disk[l][o % SECTOR + 3]))
  {
    var o := EntryOffset(Fat32, i);
    EntryInSector(i);
    assert (o + 3) / SECTOR == o / SECTOR && (o + 3) % SECTOR == o % SECTOR + 3;
    EntrySector(sb, disk, copy, o + 3);
  }

  /** Writing the entry in every copy is update of the abstract table, and keeps agreement and reserved bits. */
  lemma SetRefines(sb: Super, disk: Disk, after: Disk, i: nat, v: nat)
    requires Sound(sb, |disk|) && i < sb.Limit() && Codec.Fits(sb.ty, v)
    requires AllCopiesPut(sb, disk, after, i, v, sb.fatCount)
    ensures ViewOf(sb, after) == UpdateTable(ViewOf(sb, disk), i, v)
    ensures forall c: nat | c < sb.fatCount :: TableOf(sb, after, c) == TableOf(sb, disk, c)[i := v]
  {
    DataFramed(sb, disk, after);
    FlatFramed(disk, after, sb.rootStart, sb.rootSectors);
    forall c: nat | c < sb.fatCount ensures TableOf(sb, after, c) == TableOf(sb, disk, c)[i := v] {
      Codec.PutIsUpdate(sb.ty, FatBytes(sb, disk, c), sb.Limit(), i, v);
    }
  }

  lemma SetKeepsReserved(sb: Super, disk: Disk, after: Disk, i: nat, v: nat, copy: nat, j: nat)
    requires Sound(sb, |disk|) && sb.ty == Fat32 && i < sb.Limit() && j < sb.Limit() && copy < sb.fatCount
    requires AllCopiesPut(sb, disk, after, i, v, sb.fatCount)
    ensures Codec.Reserved(FatBytes(sb, after, copy), j) == Codec.Reserved(FatBytes(sb, disk, copy), j)
  {
    Codec.PutKeepsReserved(FatBytes(sb, disk, copy), i, v, j);
  }

  /** A write to the data region leaves the tables and the root directory alone. */
  lemma OutsideFatFramed(sb: Super, disk: Disk, after: Disk)
    requires Sound(sb, |disk|) && |after| == |disk|
    requires forall l :: 0 <= l < sb.dataStart ==> after[l] == disk[l]
    ensures forall c: nat | c < sb.fatCount :: TableOf(sb, after, c) == TableOf(sb, disk, c)
    ensures RootOf(sb, after) == RootOf(sb, disk)
  {
    FlatFramed(disk, after, sb.rootStart, sb.rootSectors);
    forall c: nat | c < sb.fatCount ensures TableOf(sb, after, c) == TableOf(sb, disk, c) {
      TableFramed(sb, disk, after, c);
    }
  }

  class Volume {
    const sb: Super
    /** Whether the heap grants the buffers and nodes the calls ask for; if not, any request may fail. */
    const granted: bool
    var disk: Disk
    ghost var view: View

    /** The volume came from a successful mount on a 28-bit device. */
    ghost predicate Mounted()
      reads this
    {
      Sound(sb, |disk|) && |disk| <= LBA28_LIMIT
    }

    /** All FAT copies hold the same entries. */
    ghost predicate CopiesAgree()
      reads this
      requires Mounted()
    {
      forall copy: nat | copy < sb.fatCount :: TableOf(sb, disk, copy) == TableOf(sb, disk, 0)
    }

    /** A volume in service: the FAT size does not wrap, the FAT copies agree, and view is what the disk shows. */
    ghost predicate Ready()
      reads this
      ensures Ready() ==> |view.table| == |view.data| == sb.Limit()
    {
      var inService := Mounted() && sb.fatSectors < 0x80_0000 && CopiesAgree() && view == ViewOf(sb, disk);
      inService
    }

    constructor (sb: Super, disk: Disk, granted: bool)
      requires Sound(sb, |disk|) && |disk| <= LBA28_LIMIT
      ensures Mounted() && this.sb == sb && this.disk == disk && this.granted == granted && view == ViewOf(sb, disk)
    {
      this.sb := sb;
      this.granted := granted;
      this.disk := disk;
      this.view := ViewOf(sb, disk);
    }

    /** The heap's answer to a request. */
    method Malloc() returns (ok: bool)
      ensures granted ==> ok
    {
      if granted { return true; }
      ok := *;
    }

    /** blockdev_read and blockdev_write of one sector. */
    method ReadSector(lba: u32) returns (r: Errno, buf: seq<byte>)
      ensures r == if lba < |disk| then Success else InvalidArgument
      ensures r == Success ==> buf == disk[lba]
    {
      if lba >= |disk| { return InvalidArgument, []; }
      return Success, disk[lba];
    }

    method WriteSector(lba: u32, buf: Sector) returns (r: Errno)
      modifies this`disk
      ensures r == if lba < |old(disk)| then Success else InvalidArgument
      ensures disk == if lba < |old(disk)| then old(disk)[lba := buf] else old(disk)
    {
      if lba >= |disk| { return InvalidArgument; }
      disk := disk[lba := buf];
      return Success;
    }

    /** What get answers for an index: the table's entry, unless the index or the 32-bit guard is off. */
    method Fat12Get(index: u32) returns (r: Errno, value: u32)
      requires Mounted() && sb.ty == Fat12
      ensures r == Access(sb, index)
      ensures r == Success ==> value == TableOf(sb, disk, 0)[index]
    {
      value := 0;
      if index >= sb.Limit() { return InvalidArgument, value; }
      var fatOffset := index + index / 2;
      if fatOffset + 1 >= Wrap32(sb.fatSectors * SECTOR) { return IoError, value; }
      Entry12(sb, disk, index);
      var sector := sb.fatStart + fatOffset / SECTOR;
      var offset := fatOffset % SECTOR;
      var buf;
      r, buf := ReadSector(sector);
      var low := buf[offset];
      var high;
      if offset + 1 < SECTOR {
        high := buf[offset + 1];
      } else {
        r, buf := ReadSector(sector + 1);
        high := buf[0];
      }
      var entry: u16 := low as int + 0x100 * high as int;
      return Success, if index % 2 == 1 then entry / 16 else entry % 0x1000;
    }

    method Fat16Get(index: u32) returns (r: Errno, value: u32)
      requires Mounted() && sb.ty == Fat16
      ensures r == Access(sb, index)
      ensures r == Success ==> value == TableOf(sb, disk, 0)[index]
    {
      value := 0;
      if index >= sb.Limit() { return InvalidArgument, value; }
      var fatOffset := index * 2;
      if fatOffset + 1 >= Wrap32(sb.fatSectors * SECTOR) { return IoError, value; }
      Entry16(sb, disk, index);
      var buf;
      r, buf := ReadSector(sb.fatStart + fatOffset / SECTOR);
      return Success, Le16(buf, fatOffset % SECTOR);
    }

    method Fat32Get(index: u32) returns (r: Errno, value: u32)
      requires Mounted() && sb.ty == Fat32
      ensures r == Access(sb, index)
      ensures r == Success ==> value == TableOf(sb, disk, 0)[index]
    {
      value := 0;
      if index >= sb.Limit() { return InvalidArgument, value; }
      var fatOffset := index * 4;
      if fatOffset + 3 >= Wrap32(sb.fatSectors * SECTOR) { return IoError, value; }
      Entry32(sb, disk, index);
      var buf;
      r, buf := ReadSector(sb.fatStart + fatOffset / SECTOR);
      return Success, Le32(buf, fatOffset % SECTOR) % 0x1000_0000;
    }

    /** The body of fat12_set's loop: read the one or two sectors, merge the entry, write them back. */
    method Fat12SetCopy(copy: nat, index: u32, value: u32)
      requires Mounted() && sb.ty == Fat12 && copy < sb.fatCount && index < sb.Limit()
      modifies this`disk
      ensures Mounted()
      ensures CopySpliced(sb, old(disk), disk, copy, EntryOffset(Fat12, index),
                          Codec.Encoded(Fat12, FatBytes(sb, old(disk), copy), index, value))
    {
      var offset := index + index / 2;
      assert offset == EntryOffset(Fat12, index);
      var inSector := offset % SECTOR;
      var firstLba := sb.FatBase(copy) + offset / SECTOR;
      Word12(sb, disk, copy, offset);
      ghost var p := Codec.Encoded(Fat12, FatBytes(sb, disk, copy), index, value);
      var _, first := ReadSector(firstLba);
      if inSector + 1 < SECTOR {
        var entry := Bytes16(Codec.Merge12(Le16(first, inSector), index % 2 == 1, value));
        var _ := WriteSector(firstLba, Splice(first, inSector, entry));
        CopyPatched(sb, old(disk), disk, copy, offset, p);
      } else {
        var _, second := ReadSector(firstLba + 1);
        var entry := Bytes16(Codec.Merge12(first[inSector] as int + 0x100 * second[0] as int, index % 2 == 1, value));
        WriteAcross(copy, offset, firstLba, first, second, entry);
      }
    }

    /** The two sector writes of an entry whose bytes lie in different sectors. */
    method WriteAcross(copy: nat, offset: nat, lba: u32, first: Sector, second: Sector, entry: seq<byte>)
      requires Mounted() && copy < sb.fatCount && |entry| == 2 && offset + 2 <= sb.fatSectors * SECTOR
      requires offset % SECTOR == SECTOR - 1 && lba == sb.FatBase(copy) + offset / SECTOR && lba + 1 < |disk|
      requires first == disk[lba] && second == disk[lba + 1]
      modifies this`disk
      ensures Mounted() && CopySpliced(sb, old(disk), disk, copy, offset, entry)
    {
      var _ := WriteSector(lba, Splice(first, SECTOR - 1, [entry[0]]));
      ghost var mid := disk;
      var _ := WriteSector(lba + 1, Splice(second, 0, [entry[1]]));
      StraddlePatched(sb, old(disk), mid, disk, copy, lba, offset, entry);
    }

    /** Every copy of the table gets the encoded entry; nothing outside the FAT region moves. */
    method Fat12Set(index: u32, value: u32) returns (r: Errno)
      requires Mounted() && sb.ty == Fat12
      modifies this`disk
      ensures Mounted()
      ensures r == if value > 0xFFF then InvalidArgument else Access(sb, index)
      ensures r == Success ==> AllCopiesPut(sb, old(disk), disk, index, value, sb.fatCount)
      ensures r != Success ==> disk == old(disk)
    {
      if index >= sb.Limit() || value > 0xFFF { return InvalidArgument; }
      var offset := index + index / 2;
      if offset + 1 >= Wrap32(sb.fatSectors * SECTOR) { return IoError; }
      var copy := 0;
      while copy < sb.fatCount
        invariant Mounted() && 0 <= copy <= sb.fatCount
        invariant AllCopiesPut(sb, old(disk), disk, index, value, copy)
      {
        ghost var before := disk;
        Fat12SetCopy(copy, index, value);
        CopyPutStep(sb, old(disk), before, disk, index, value, copy);
        copy := copy + 1;
      }
      return Success;
    }

    method Fat16SetCopy(copy: nat, index: u32, value: u32)
      requires Mounted() && sb.ty == Fat16 && copy < sb.fatCount && index < sb.Limit()
      modifies this`disk
      ensures Mounted()
      ensures CopySpliced(sb, old(disk), disk, copy, EntryOffset(Fat16, index),
                          Codec.Encoded(Fat16, FatBytes(sb, old(disk), copy), index, value))
    {
      var offset := index * 2;
      assert offset == EntryOffset(Fat16, index);
      EntryInSector(index);
      EntrySector(sb, disk, copy, offset);
      var lba := sb.FatBase(copy) + offset / SECTOR;
      var _, sector := ReadSector(lba);
      var _ := WriteSector(lba, Splice(sector, offset % SECTOR, Bytes16(value % 0x1_0000)));
      CopyPatched(sb, old(disk), disk, copy, offset, Bytes16(value % 0x1_0000));
    }

    method Fat16Set(index: u32, value: u32) returns (r: Errno)
      requires Mounted() && sb.ty == Fat16
      modifies this`disk
      ensures Mounted()
      ensures r == if value > 0xFFFF then InvalidArgument else Access(sb, index)
      ensures r == Success ==> AllCopiesPut(sb, old(disk), disk, index, value, sb.fatCount)
      ensures r != Success ==> disk == old(disk)
    {
      if index >= sb.Limit() || value > 0xFFFF { return InvalidArgument; }
      var offset := index * 2;
      if offset + 1 >= Wrap32(sb.fatSectors * SECTOR) { return IoError; }
      var copy := 0;
      while copy < sb.fatCount
        invariant Mounted() && 0 <= copy <= sb.fatCount
        invariant AllCopiesPut(sb, old(disk), disk, index, value, copy)
      {
        ghost var before := disk;
        Fat16SetCopy(copy, index, value);
        CopyPutStep(sb, old(disk), before, disk, index, value, copy);
        copy := copy + 1;
      }
      return Success;
    }

    method Fat32SetCopy(copy: nat, index: u32, value: u32)
      requires Mounted() && sb.ty == Fat32 && copy < sb.fatCount && index < sb.Limit()
      modifies this`disk
      ensures Mounted()
      ensures CopySpliced(sb, old(disk), disk, copy, EntryOffset(Fat32, index),
                          Codec.Encoded(Fat32, FatBytes(sb, old(disk), copy), index, value))
    {
      var offset := index * 4;
      Slot32(sb, disk, copy, index);
      var lba := sb.FatBase(copy) + offset / SECTOR;
      var _, sector := ReadSector(lba);
      var stored := Codec.Join32(value, sector[offset % SECTOR + 3]);
      var _ := WriteSector(lba, Splice(sector, offset % SECTOR, Bytes32(stored)));
      CopyPatched(sb, old(disk), disk, copy, offset, Codec.Encoded(Fat32, FatBytes(sb, old(disk), copy), index, value));
    }

    method Fat32Set(index: u32, value: u32) returns (r: Errno)
      requires Mounted() && sb.ty == Fat32
      modifies this`disk
      ensures Mounted()
      ensures r == Access(sb, index)
      ensures r == Success ==> AllCopiesPut(sb, old(disk), disk, index, value, sb.fatCount)
      ensures r != Success ==> disk == old(disk)
    {
      if index >= sb.Limit() { return InvalidArgument; }
      var offset := index * 4;
      if offset + 3 >= Wrap32(sb.fatSectors * SECTOR) { return IoError; }
      var copy := 0;
      while copy < sb.fatCount
        invariant Mounted() && 0 <= copy <= sb.fatCount
        invariant AllCopiesPut(sb, old(disk), disk, index, value, copy)
      {
        ghost var before := disk;
        Fat32SetCopy(copy, index, value);
        CopyPutStep(sb, old(disk), before, disk, index, value, copy);
        copy := copy + 1;
      }
      return Success;
    }

    /** sb->var->get_fat_entry. */
    method GetEntry(index: u32) returns (r: Errno, value: u32)
      requires Mounted()
      ensures r == Access(sb, index)
      ensures r == Success ==> value == TableOf(sb, disk, 0)[index]
    {
      match sb.ty
      case Fat12 => r, value := Fat12Get(index);
      case Fat16 => r, value := Fat16Get(index);
      case Fat32 => r, value := Fat32Get(index);
    }

    /** sb->var->set_fat_entry: map update, mirrored in every copy. */
    method SetEntry(index: u32, value: u32) returns (r: Errno)
      requires Mounted()
      modifies this`disk
      ensures Mounted()
      ensures r == if sb.ty != Fat32 && !Codec.Fits(sb.ty, value) then InvalidArgument else Access(sb, index)
      ensures r != Success ==> disk == old(disk)
      ensures r == Success && Codec.Fits(sb.ty, value) ==>
        && ViewOf(sb, disk) == UpdateTable(ViewOf(sb, old(disk)), index, value)
        && (old(CopiesAgree()) ==> CopiesAgree())
      ensures r == Success ==> AllCopiesPut(sb, old(disk), disk, index, value, sb.fatCount)
    {
      match sb.ty {
        case Fat12 => r := Fat12Set(index, value);
        case Fat16 => r := Fat16Set(index, value);
        case Fat32 => r := Fat32Set(index, value);
      }
      if r == Success && Codec.Fits(sb.ty, value) {
        SetRefines(sb, old(disk), disk, index, value);
      }
    }

    /** fat_read_cluster. */
    method ReadCluster(cluster: u32) returns (r: Errno, buf: seq<byte>)
      requires Ready()
      ensures r == if sb.ValidCluster(cluster) then Success else IoError
      ensures r == Success ==> buf == view.data[cluster]
    {
      if cluster < 2 || cluster >= sb.Limit() { return IoError, []; }
      ClusterInside(sb, |disk|, cluster);
      buf := Flat(disk, ClusterLba(sb, cluster), sb.spc);
      return Success, buf;
    }

    /** fat_write_cluster. */
    method WriteCluster(cluster: u32, buf: seq<byte>) returns (r: Errno)
      requires Mounted() && |buf| == sb.ClusterSize()
      modifies this`disk
      ensures Mounted()
      ensures r == if sb.ValidCluster(cluster) then Success else IoError
      ensures r != Success ==> disk == old(disk)
      ensures r == Success ==>
        && ViewOf(sb, disk) == UpdateData(ViewOf(sb, old(disk)), cluster, buf)
        && (old(CopiesAgree()) ==> CopiesAgree())
    {
      if cluster < 2 || cluster >= sb.Limit() { return IoError; }
      ClusterInside(sb, |disk|, cluster);
      disk := Stored(disk, ClusterLba(sb, cluster), sb.spc, buf);
      ClusterStored(sb, old(disk), cluster, buf);
      OutsideFatFramed(sb, old(disk), disk);
      return Success;
    }

    /** On a volume in service every valid index is accessible, so get is map lookup. */
    method Get(index: u32) returns (r: Errno, value: u32)
      requires Ready()
      ensures r == if index < sb.Limit() then Success else InvalidArgument
      ensures r == Success ==> value == view.table[index]
    {
      GuardExact(sb, |disk|);
      r, value := GetEntry(index);
    }

    /** And set is map update. */
    method Set(index: u32, value: u32)
      requires Ready() && index < sb.Limit() && Codec.Fits(sb.ty, value)
      modifies this
      ensures Ready() && view == UpdateTable(old(view), index, value)
    {
      GuardExact(sb, |disk|);
      var r := SetEntry(index, value);
      view := UpdateTable(view, index, value);
    }

    /** Overwriting a cluster of a volume in service. */
    method Put(cluster: u32, buf: seq<byte>)
      requires Ready() && sb.ValidCluster(cluster) && |buf| == sb.ClusterSize()
      modifies this
      ensures Ready() && view == UpdateData(old(view), cluster, buf)
    {
      var r := WriteCluster(cluster, buf);
      view := UpdateData(view, cluster, buf);
    }

    /** fat_read_sector on a sector that holds directory entries. */
    method LoadSector(lba: u32) returns (buf: seq<byte>)
      requires Ready() && HoldsEntries(sb, lba)
      ensures |buf| == SECTOR && Holds(view, SpotOf(sb, lba, 0), SECTOR)
          && buf == Peek(view, SpotOf(sb, lba, 0), SECTOR)
    {
      SectorSeen(sb, disk, lba);
      var r;
      r, buf := ReadSector(lba);
    }

    /** Reading such a sector, changing some bytes and writing it back. */
    method PatchSector(lba: u32, o: nat, p: seq<byte>)
      requires Ready() && HoldsEntries(sb, lba) && 0 < |p| && o + |p| <= SECTOR
      modifies this
      ensures Ready()
      ensures Holds(old(view), SpotOf(sb, lba, o), |p|) && view == Poke(old(view), SpotOf(sb, lba, o), p)
    {
      SectorSeen(sb, disk, lba);
      var r, buf := ReadSector(lba);
      r := WriteSector(lba, Splice(buf, o, p));
      SectorPatched(sb, old(disk), disk, lba, o, p);
      view := Poke(view, SpotOf(sb, lba, o), p);
    }
  }
}
