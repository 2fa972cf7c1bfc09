/**
 Mounting a FAT volume: the BIOS parameter block, the probe that derives the layout from it
 (fat_mount_fn and fat_probe_type), and what an accepted layout guarantees.
 */
module FatLayout {
  import opened Machine

  const SECTOR: nat := 512

  /** Sector limit of the 28-bit ATA driver. */
  const LBA28_LIMIT: nat := 0x1000_0000

  type Sector = s: seq<byte> | |s| == 512 witness seq(512, _ => 0)
  type Disk = seq<Sector>

  datatype FatType = Fat12 | Fat16 | Fat32

  /** The fields fat_mount_fn copies out of sector 0. */
  datatype Bpb = Bpb(
    bytesPerSector: u16, sectorsPerCluster: byte, reservedSectors: u16, fatCount: byte,
    rootEntries: u16, totalSectors16: u16, sectorsPerFat16: u16, totalSectors32: u32,
    sectorsPerFat32: u32, rootCluster: u32)

  function ParseBpb(s: Sector): Bpb {
    Bpb(Le16(s, 11), s[13], Le16(s, 14), s[16], Le16(s, 17), Le16(s, 19), Le16(s, 22),
        Le32(s, 32), Le32(s, 36), Le32(s, 44) % 0x1000_0000)
  }

  /** The computed superblock. */
  datatype Super = Super(
    ty: FatType, spc: nat, fatCount: nat, rootEntries: nat, rootCluster: nat,
    fatStart: nat, fatSectors: nat, rootStart: nat, rootSectors: nat,
    dataStart: nat, volumeSectors: nat, clusterCount: nat)
  {
    function ClusterSize(): nat { SECTOR * spc }

    /** One past the largest cluster number; also the number of table entries in use. */
    function Limit(): nat { clusterCount + 2 }

    predicate ValidCluster(c: nat) { 2 <= c < Limit() }

    /** First sector of a FAT copy; FatBase(fatCount) is the end of the FAT region. */
    function FatBase(copy: nat): nat
      ensures copy <= 2 ==> FatBase(copy) == fatStart + copy * fatSectors
    {
      if copy == 0 then fatStart else if copy == 1 then fatStart + fatSectors else fatStart + 2 * fatSectors
    }
  }

  /** s & (s - 1) == 0 for a non-zero byte. */
  predicate PowerOfTwo(s: byte) { s in {1, 2, 4, 8, 16, 32, 64, 128} }

  function TypeOf(clusterCount: nat): FatType {
    if clusterCount < 4085 then Fat12 else if clusterCount < 65525 then Fat16 else Fat32
  }

  /** Table entries the given number of FAT bytes can hold, as the probe computes it. */
  function TableCapacity(ty: FatType, fatSectors: nat): nat {
    match ty
    case Fat12 => fatSectors * SECTOR * 2 / 3
    case Fat16 => fatSectors * (SECTOR / 2)
    case Fat32 => fatSectors * (SECTOR / 4)
  }

  function RootSectors(entries: u16): nat { (entries * 32 + SECTOR - 1) / SECTOR }

  function WholeClusters(space: nat, spc: byte): nat
    requires spc != 0
  {
    space / spc
  }

  /** fat_probe_type, on a device of deviceSectors sectors of 512 bytes. */
  function Probe(b: Bpb, deviceSectors: u32): Result<Super> {
    var total := if b.totalSectors16 != 0 then b.totalSectors16 else b.totalSectors32;
    if total == 0 || b.bytesPerSector != SECTOR || !PowerOfTwo(b.sectorsPerCluster)
       || b.reservedSectors == 0 || (b.fatCount != 1 && b.fatCount != 2)
    then Err(NotSupported)
    else
      var fatSectors := if b.sectorsPerFat16 != 0 then b.sectorsPerFat16 else b.sectorsPerFat32;
      if fatSectors == 0 || fatSectors > total || total > deviceSectors then Err(IoError)
      else
        var rootSectors := RootSectors(b.rootEntries);
        var fatsArea := Wrap32(b.fatCount * fatSectors);
        if fatsArea / b.fatCount != fatSectors || b.reservedSectors > total
           || fatsArea > total - b.reservedSectors
           || rootSectors > total - b.reservedSectors - fatsArea
        then Err(IoError)
        else
          var rootStart := b.reservedSectors + fatsArea;
          var dataStart := rootStart + rootSectors;
          var clusterCount := WholeClusters(total - dataStart, b.sectorsPerCluster);
          var ty := TypeOf(clusterCount);
          if clusterCount == 0
             || (ty == Fat32 && (b.sectorsPerFat16 != 0 || b.rootEntries != 0 || b.rootCluster < 2
                                 || b.rootCluster >= Wrap32(clusterCount + 2)))
             || (ty != Fat32 && (b.sectorsPerFat16 == 0 || b.rootEntries == 0))
             || clusterCount + 2 > TableCapacity(ty, fatSectors)
          then Err(IoError)
          else Ok(Super(ty, b.sectorsPerCluster, b.fatCount, b.rootEntries, b.rootCluster,
                        b.reservedSectors, fatSectors, rootStart, rootSectors,
                        dataStart, total, clusterCount))
  }

  /** fat_mount_fn up to the choice of variant operations. */
  function Mount(disk: Disk): Result<Super>
    requires 0 < |disk| < U32
  {
    var s := disk[0];
    if s[510] != 0x55 || s[511] != 0xAA then Err(IoError) else Probe(ParseBpb(s), |disk|)
  }

  /** fat_cluster_to_lba, in u32 arithmetic. */
  function ClusterLba(sb: Super, c: nat): u32 {
    Wrap32(sb.dataStart + (c - 2) * sb.spc)
  }

  /** The cluster's sectors lie inside the volume's data region. */
  predicate ClusterFits(sb: Super, c: nat) {
    2 <= c && sb.dataStart + (c - 2) * sb.spc + sb.spc <= sb.volumeSectors
  }

  function EocMarker(ty: FatType): nat {
    match ty case Fat12 => 0xFFF case Fat16 => 0xFFFF case Fat32 => 0xFFF_FFFF
  }

  /** The three is_eoc functions, on values a table entry can hold. */
  predicate IsEoc(ty: FatType, v: nat) {
    match ty
    case Fat12 => v >= 0xFF8
    case Fat16 => v >= 0xFFF8
    case Fat32 => v % 0x1000_0000 >= 0xFFF_FFF8
  }

  /** Byte offset and byte width of entry i inside one FAT copy. */
  function EntryOffset(ty: FatType, i: nat): nat {
    match ty case Fat12 => i + i / 2 case Fat16 => i * 2 case Fat32 => i * 4
  }

  function EntryWidth(ty: FatType): nat {
    match ty case Fat12 => 2 case Fat16 => 2 case Fat32 => 4
  }

  /** The guard each get and set evaluates, in u32 arithmetic, before touching the table. */
  predicate EntryGuard(sb: Super, i: nat) {
    EntryOffset(sb.ty, i) + EntryWidth(sb.ty) - 1 < Wrap32(sb.fatSectors * SECTOR)
  }

  /**
   The layout guarantees of an accepted volume: the reserved, FAT, root and data regions follow one
   another inside the volume, every valid index has its entry inside each FAT copy, and no valid
   cluster number reads as an end-of-chain marker.
   */
  ghost predicate Sound(sb: Super, deviceSectors: nat) {
    && 1 <= sb.spc <= 128 && 1 <= sb.fatCount <= 2
    && 0 < sb.fatStart && 0 < sb.fatSectors && 0 < sb.clusterCount
    && sb.rootStart == sb.FatBase(sb.fatCount)
    && sb.dataStart == sb.rootStart + sb.rootSectors
    && sb.rootEntries <= sb.rootSectors * 16
    && (sb.ty == Fat32 ==> sb.rootEntries == 0 && sb.ValidCluster(sb.rootCluster))
    && (sb.ty != Fat32 ==> 0 < sb.rootEntries)
    && sb.dataStart <= sb.volumeSectors <= deviceSectors < U32 && sb.Limit() <= EocMarker(sb.ty)
    && (forall c: nat | sb.ValidCluster(c) :: ClusterFits(sb, c))
    && (forall i: nat | i < sb.Limit() ::
          EntryOffset(sb.ty, i) + EntryWidth(sb.ty) <= sb.fatSectors * SECTOR)
    && (forall i: nat | i < sb.Limit() :: !IsEoc(sb.ty, i))
  }

  lemma FatAreaDoesNotWrap(count: nat, sectors: u32)
    requires count in {1, 2} && Wrap32(count * sectors) / count == sectors
    ensures Wrap32(count * sectors) == count * sectors
  {
  }

  lemma ClusterAreaFits(space: nat, spc: byte)
    requires PowerOfTwo(spc)
    ensures space / spc * spc <= space && space / spc <= space
  {
  }

  /**
   A FAT32 volume of at most 2^32 sectors spends one FAT sector on every 128 clusters, so its largest
   cluster number stays below 0x0FFFFFF8 once the device respects the 28-bit sector limit.
   */
  lemma CapacityLeavesRoom(sb: Super, i: nat)
    requires sb.ty == TypeOf(sb.clusterCount) && i < sb.Limit()
    requires sb.Limit() <= TableCapacity(sb.ty, sb.fatSectors)
    requires sb.clusterCount + sb.fatSectors < LBA28_LIMIT
    ensures EntryOffset(sb.ty, i) + EntryWidth(sb.ty) <= sb.fatSectors * SECTOR
    ensures !IsEoc(sb.ty, i)
  {
  }

  lemma ProbeSound(b: Bpb, deviceSectors: u32)
    requires deviceSectors <= LBA28_LIMIT
    ensures Probe(b, deviceSectors).Ok? ==> Sound(Probe(b, deviceSectors).value, deviceSectors)
  {
    if Probe(b, deviceSectors).Ok? {
      var sb := Probe(b, deviceSectors).value;
      FatAreaDoesNotWrap(b.fatCount, sb.fatSectors);
      ClusterAreaFits(sb.volumeSectors - sb.dataStart, sb.spc);
      assert sb.fatSectors <= sb.fatCount * sb.fatSectors;
      forall i: nat | i < sb.Limit()
        ensures EntryOffset(sb.ty, i) + EntryWidth(sb.ty) <= sb.fatSectors * SECTOR
        ensures !IsEoc(sb.ty, i)
      {
        CapacityLeavesRoom(sb, i);
      }
      forall c: nat | sb.ValidCluster(c) ensures ClusterFits(sb, c) {
        ClusterStep(c, sb.Limit(), sb.spc);
      }
    }
  }

  /** Fields without which no layout is tried. */
  predicate Basic(b: Bpb) {
    && TotalOf(b) != 0 && b.bytesPerSector == SECTOR && PowerOfTwo(b.sectorsPerCluster) && b.reservedSectors != 0
    && b.fatCount in {1, 2}
  }

  function TotalOf(b: Bpb): u32 { if b.totalSectors16 != 0 then b.totalSectors16 else b.totalSectors32 }

  function FatOf(b: Bpb): u32 { if b.sectorsPerFat16 != 0 then b.sectorsPerFat16 else b.sectorsPerFat32 }

  /** Where the data region starts, in unbounded arithmetic. */
  function DataStart(b: Bpb): nat { b.reservedSectors + b.fatCount * FatOf(b) + (b.rootEntries + 15) / 16 }

  /**
   The parameter blocks that describe a volume of the device: reserved sectors, FAT copies, root directory and one
   cluster at least fit one after the other, the fields are those of the type the cluster count implies, and the last
   cluster's entry lies inside a FAT copy.
   */
  predicate Describes(b: Bpb, deviceSectors: nat) {
    && Basic(b) && FatOf(b) != 0 && TotalOf(b) <= deviceSectors && DataStart(b) + b.sectorsPerCluster <= TotalOf(b)
    && var count := WholeClusters(TotalOf(b) - DataStart(b), b.sectorsPerCluster);
    var ty := TypeOf(count);
    && (if ty == Fat32 then b.sectorsPerFat16 == 0 && b.rootEntries == 0 && 2 <= b.rootCluster < count + 2
        else b.sectorsPerFat16 != 0 && b.rootEntries != 0)
    && EntryOffset(ty, count + 1) + EntryWidth(ty) <= FatOf(b) * SECTOR
  }

  /** The probe accepts exactly these, and says which kind of fault it found in the others. */
  lemma ProbeExact(b: Bpb, deviceSectors: u32)
    ensures Probe(b, deviceSectors).Ok? <==> Describes(b, deviceSectors)
    ensures Probe(b, deviceSectors).Err? ==> Probe(b, deviceSectors).error == if Basic(b) then IoError else NotSupported
    ensures Probe(b, deviceSectors).Ok? ==>
              var sb := Probe(b, deviceSectors).value;
              && sb.spc == b.sectorsPerCluster && sb.fatCount == b.fatCount && sb.rootEntries == b.rootEntries
              && sb.rootCluster == b.rootCluster && sb.fatStart == b.reservedSectors && sb.fatSectors == FatOf(b)
              && sb.dataStart == DataStart(b) && sb.volumeSectors == TotalOf(b) && sb.ty == TypeOf(sb.clusterCount)
              && sb.clusterCount * sb.spc <= sb.volumeSectors - sb.dataStart < (sb.clusterCount + 1) * sb.spc
  {
    hide Wrap32, WholeClusters, RootSectors, TableCapacity, EntryOffset, EntryWidth, TypeOf;
    var total, fat, spc := TotalOf(b), FatOf(b), b.sectorsPerCluster;
    RootRounds(b.rootEntries);
    if Basic(b) && fat != 0 && fat <= total <= deviceSectors {
      FatsFit(b.fatCount, fat);
      if DataStart(b) <= total {
        var count := WholeClusters(total - DataStart(b), spc);
        SomeCluster(total - DataStart(b), spc);
        CapacityExact(TypeOf(count), fat, count);
      }
    }
  }

  lemma RootRounds(n: u16)
    ensures RootSectors(n) == (n + 15) / 16
  {
  }

  lemma FatsFit(count: nat, sectors: u32)
    requires count in {1, 2}
    ensures Wrap32(count * sectors) / count == sectors <==> count * sectors < U32
    ensures count * sectors < U32 ==> Wrap32(count * sectors) == count * sectors
  {
  }

  lemma SomeCluster(space: nat, spc: byte)
    requires PowerOfTwo(spc)
    ensures WholeClusters(space, spc) == 0 <==> space < spc
    ensures WholeClusters(space, spc) * spc <= space < (WholeClusters(space, spc) + 1) * spc
    ensures WholeClusters(space, spc) <= space
        && (space + 2 < U32 ==> Wrap32(WholeClusters(space, spc) + 2) == WholeClusters(space, spc) + 2)
  {
  }

  /** The capacity test is that the last entry lies inside the table. */
  lemma CapacityExact(ty: FatType, fatSectors: nat, count: nat)
    ensures count + 2 <= TableCapacity(ty, fatSectors) <==>
            EntryOffset(ty, count + 1) + EntryWidth(ty) <= fatSectors * SECTOR
  {
  }

  /** Whatever sector 0 holds, a mounted volume on a 28-bit device has a sound layout. */
  lemma MountSound(disk: Disk)
    requires 0 < |disk| <= LBA28_LIMIT
    ensures Mount(disk).Ok? ==> Sound(Mount(disk).value, |disk|)
  {
    ProbeSound(ParseBpb(disk[0]), |disk|);
  }

  lemma WrapSmall(x: nat)
    requires x < U32
    ensures Wrap32(x) == x
  {
  }

  lemma MulMonotone(a: nat, b: nat, s: nat)
    requires a <= b
    ensures a * s <= b * s
  {
  }

  /** Clusters map, without wrap, to disjoint sector ranges of the data region. */
  lemma ClustersDisjoint(sb: Super, deviceSectors: nat, c: nat, d: nat)
    requires Sound(sb, deviceSectors) && sb.ValidCluster(c) && sb.ValidCluster(d)
    ensures ClusterLba(sb, c) == sb.dataStart + (c - 2) * sb.spc
    ensures ClusterLba(sb, c) + sb.spc <= sb.volumeSectors
    ensures c < d ==> ClusterLba(sb, c) + sb.spc <= ClusterLba(sb, d)
    ensures ClusterLba(sb, c) == ClusterLba(sb, d) ==> c == d
  {
    ClusterInside(sb, deviceSectors, c);
    ClusterInside(sb, deviceSectors, d);
    if c < d {
      ClusterStep(c, d, sb.spc);
    } else if d < c {
      ClusterStep(d, c, sb.spc);
    }
  }

  /** The FAT copies follow one another between the reserved sectors and the root directory. */
  lemma FatCopiesDisjoint(sb: Super, deviceSectors: nat, copy: nat)
    requires Sound(sb, deviceSectors) && copy < sb.fatCount
    ensures sb.fatStart <= sb.FatBase(copy) && sb.FatBase(copy) + sb.fatSectors <= sb.rootStart
    ensures forall d: nat | d < copy :: sb.FatBase(d) + sb.fatSectors <= sb.FatBase(copy)
    ensures forall d: nat | copy < d < sb.fatCount :: sb.FatBase(copy) + sb.fatSectors <= sb.FatBase(d)
  {
    assert sb.FatBase(0) == sb.fatStart && sb.FatBase(1) == sb.fatStart + sb.fatSectors;
    assert sb.FatBase(2) == sb.fatStart + 2 * sb.fatSectors;
    assert copy == 0 || copy == 1;
  }

  lemma ClusterStep(c: nat, d: nat, spc: nat)
    requires 2 <= c < d
    ensures (c - 2) * spc + spc <= (d - 2) * spc
  {
    MulMonotone(c - 1, d - 2, spc);
    assert (c - 1) * spc == (c - 2) * spc + spc;
  }

  lemma ClusterInside(sb: Super, deviceSectors: nat, c: nat)
    requires Sound(sb, deviceSectors) && sb.ValidCluster(c)
    ensures ClusterLba(sb, c) == sb.dataStart + (c - 2) * sb.spc
    ensures sb.dataStart <= ClusterLba(sb, c) && ClusterLba(sb, c) + sb.spc <= sb.volumeSectors
  {
    assert ClusterFits(sb, c);
    MulMonotone(0, c - 2, sb.spc);
    WrapSmall(sb.dataStart + (c - 2) * sb.spc);
  }

  /**
   The guard of get and set multiplies in 32 bits. On a sound volume it lets every valid index through
   exactly when the wrapped FAT size still covers the last entry; a FAT below 2^23 sectors never wraps.
   */
  lemma GuardExact(sb: Super, deviceSectors: nat)
    requires Sound(sb, deviceSectors)
    ensures (forall i: nat | i < sb.Limit() :: EntryGuard(sb, i))
       <==> EntryOffset(sb.ty, sb.Limit() - 1) + EntryWidth(sb.ty) <= Wrap32(sb.fatSectors * SECTOR)
    ensures sb.fatSectors < 0x80_0000 ==> forall i: nat | i < sb.Limit() :: EntryGuard(sb, i)
    ensures sb.fatSectors == 0x80_0000 ==> forall i: nat :: !EntryGuard(sb, i)
  {
    assert EntryGuard(sb, sb.Limit() - 1) <==>
      EntryOffset(sb.ty, sb.Limit() - 1) + EntryWidth(sb.ty) <= Wrap32(sb.fatSectors * SECTOR);
    forall i: nat | i < sb.Limit() ensures EntryOffset(sb.ty, i) <= EntryOffset(sb.ty, sb.Limit() - 1) {
    }
    assert sb.fatSectors < 0x80_0000 ==> Wrap32(sb.fatSectors * SECTOR) == sb.fatSectors * SECTOR;
  }
}
