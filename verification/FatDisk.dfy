/**
 The block device below the FAT driver, and the three regions of a mounted volume seen as bytes:
 the FAT copies, the clusters and the fixed root directory.
 */
module FatDisk {
  import opened Machine
  import opened FatLayout
  import Codec = FatCodec

  /** The bytes of n consecutive sectors. */
  function Flat(disk: Disk, base: nat, n: nat): (s: seq<byte>)
    requires base + n <= |disk|
    ensures |s| == n * SECTOR
  {
    seq(n * SECTOR, k requires 0 <= k < n * SECTOR => disk[base + k / SECTOR][k % SECTOR])
  }

  /** Little-endian fields read from a sector buffer are those of the flat bytes. */
  lemma FlatField(disk: Disk, base: nat, n: nat, o: nat)
    requires base + n <= |disk| && o < n * SECTOR
    ensures base + o / SECTOR < base + n
    ensures Flat(disk, base, n)[o] == disk[base + o / SECTOR][o % SECTOR]
    ensures o % SECTOR + 2 <= SECTOR ==>
          o + 2 <= n * SECTOR && Le16(Flat(disk, base, n), o) == Le16(disk[base + o / SECTOR], o % SECTOR)
  {
    if o % SECTOR + 2 <= SECTOR {
      assert (o + 1) / SECTOR == o / SECTOR && (o + 1) % SECTOR == o % SECTOR + 1;
    }
  }

  lemma FlatField32(disk: Disk, base: nat, n: nat, o: nat)
    requires base + n <= |disk| && o + 4 <= n * SECTOR && o % SECTOR + 4 <= SECTOR
    ensures Le32(Flat(disk, base, n), o) == Le32(disk[base + o / SECTOR], o % SECTOR)
  {
    FlatField(disk, base, n, o);
    FlatField(disk, base, n, o + 2);
    assert (o + 2) / SECTOR == o / SECTOR && (o + 2) % SECTOR == o % SECTOR + 2;
  }

  /** One sector of a range, as a slice of the flat bytes. */
  lemma FlatSector(disk: Disk, base: nat, n: nat, index: nat)
    requires base + n <= |disk| && index < n
    ensures index * SECTOR + SECTOR <= n * SECTOR
    ensures Flat(disk, base, n)[index * SECTOR..index * SECTOR + SECTOR] == disk[base + index]
  {
    var s := Flat(disk, base, n)[index * SECTOR..index * SECTOR + SECTOR];
    forall k | 0 <= k < SECTOR ensures s[k] == disk[base + index][k] {
      assert (index * SECTOR + k) / SECTOR == index && (index * SECTOR + k) % SECTOR == k;
    }
  }

  /** A multi-sector write. */
  function Stored(disk: Disk, lba: nat, n: nat, buf: seq<byte>): (d: Disk)
    requires lba + n <= |disk| && |buf| == n * SECTOR
    ensures |d| == |disk|
  {
    seq(|disk|, l requires 0 <= l < |disk| =>
      if lba <= l < lba + n then buf[(l - lba) * SECTOR..(l - lba + 1) * SECTOR] else disk[l])
  }

  /** A write returns on the next read, and leaves every disjoint range alone. */
  lemma StoredThenFlat(disk: Disk, lba: nat, n: nat, buf: seq<byte>)
    requires lba + n <= |disk| && |buf| == n * SECTOR
    ensures Flat(Stored(disk, lba, n, buf), lba, n) == buf
  {
  }

  lemma FlatFramed(disk: Disk, after: Disk, base: nat, n: nat)
    requires base + n <= |disk| == |after|
    requires forall l :: base <= l < base + n ==> after[l] == disk[l]
    ensures Flat(after, base, n) == Flat(disk, base, n)
  {
  }

  /** Patching bytes inside one sector patches the flat bytes of any range holding it. */
  lemma FlatPatched(disk: Disk, base: nat, n: nat, o: nat, p: seq<byte>)
    requires base + n <= |disk| && o + |p| <= n * SECTOR && 0 < |p|
    requires o % SECTOR + |p| <= SECTOR
    ensures var lba := base + o / SECTOR;
            && lba < base + n
            && Flat(disk[lba := Splice(disk[lba], o % SECTOR, p)], base, n) == Splice(Flat(disk, base, n), o, p)
  {
    var lba := base + o / SECTOR;
    var after := disk[lba := Splice(disk[lba], o % SECTOR, p)];
    var f, g := Flat(after, base, n), Splice(Flat(disk, base, n), o, p);
    forall k | 0 <= k < n * SECTOR ensures f[k] == g[k] {
      if k / SECTOR == o / SECTOR {
        assert o <= k < o + |p| <==> o % SECTOR <= k % SECTOR < o % SECTOR + |p|;
      }
    }
  }

  function FatBytes(sb: Super, disk: Disk, copy: nat): (s: seq<byte>)
    requires Sound(sb, |disk|) && copy < sb.fatCount
    ensures |s| == sb.fatSectors * SECTOR
    ensures forall i: nat | i < sb.Limit() :: Codec.InTable(sb.ty, s, i)
  {
    FatCopiesDisjoint(sb, |disk|, copy);
    Flat(disk, sb.FatBase(copy), sb.fatSectors)
  }

  /** One FAT copy as the abstract map from cluster to entry. */
  function TableOf(sb: Super, disk: Disk, copy: nat): (t: seq<nat>)
    requires Sound(sb, |disk|) && copy < sb.fatCount
    ensures |t| == sb.Limit()
  {
    Codec.Table(sb.ty, FatBytes(sb, disk, copy), sb.Limit())
  }

  function ClusterOf(sb: Super, disk: Disk, c: nat): (s: seq<byte>)
    requires Sound(sb, |disk|)
    ensures sb.ValidCluster(c) ==> |s| == sb.ClusterSize()
  {
    if sb.ValidCluster(c) then
      ClusterInside(sb, |disk|, c);
      Flat(disk, ClusterLba(sb, c), sb.spc)
    else []
  }

  function DataOf(sb: Super, disk: Disk): (d: seq<seq<byte>>)
    requires Sound(sb, |disk|)
    ensures |d| == sb.Limit()
    ensures forall c: nat | sb.ValidCluster(c) :: |d[c]| == sb.ClusterSize()
  {
    seq(sb.Limit(), c requires 0 <= c < sb.Limit() => ClusterOf(sb, disk, c))
  }

  function RootOf(sb: Super, disk: Disk): (s: seq<byte>)
    requires Sound(sb, |disk|)
  {
    Flat(disk, sb.rootStart, sb.rootSectors)
  }

  /** Two disks that agree on a region show the same FAT copy, root directory or clusters there. */
  lemma TableFramed(sb: Super, disk: Disk, after: Disk, copy: nat)
    requires Sound(sb, |disk|) && |after| == |disk| && copy < sb.fatCount
    requires forall l :: sb.fatStart <= l < sb.rootStart ==> after[l] == disk[l]
    ensures FatBytes(sb, after, copy) == FatBytes(sb, disk, copy)
  {
    FatCopiesDisjoint(sb, |disk|, copy);
    FlatFramed(disk, after, sb.FatBase(copy), sb.fatSectors);
  }

  lemma DataFramed(sb: Super, disk: Disk, after: Disk)
    requires Sound(sb, |disk|) && |after| == |disk|
    requires forall l :: sb.dataStart <= l < sb.volumeSectors ==> after[l] == disk[l]
    ensures DataOf(sb, after) == DataOf(sb, disk)
  {
    forall c: nat | sb.ValidCluster(c) ensures ClusterOf(sb, after, c) == ClusterOf(sb, disk, c) {
      ClusterInside(sb, |disk|, c);
      FlatFramed(disk, after, ClusterLba(sb, c), sb.spc);
    }
  }

  /** Overwriting a whole cluster is update of the data map. */
  lemma ClusterStored(sb: Super, disk: Disk, c: nat, buf: seq<byte>)
    requires Sound(sb, |disk|) && sb.ValidCluster(c) && |buf| == sb.ClusterSize()
    requires ClusterLba(sb, c) + sb.spc <= sb.volumeSectors
    ensures DataOf(sb, Stored(disk, ClusterLba(sb, c), sb.spc, buf)) == DataOf(sb, disk)[c := buf]
  {
    var after := Stored(disk, ClusterLba(sb, c), sb.spc, buf);
    StoredThenFlat(disk, ClusterLba(sb, c), sb.spc, buf);
    forall d: nat | sb.ValidCluster(d) && d != c ensures ClusterOf(sb, after, d) == ClusterOf(sb, disk, d) {
      ClustersDisjoint(sb, |disk|, c, d);
      ClustersDisjoint(sb, |disk|, d, c);
      FlatFramed(disk, after, ClusterLba(sb, d), sb.spc);
    }
  }

  /** Cluster a sector of the data region belongs to, and its place among the cluster's sectors. */
  function SectorCluster(sb: Super, lba: nat): nat
    requires sb.dataStart <= lba && 0 < sb.spc
  {
    (lba - sb.dataStart) / sb.spc + 2
  }

  function SectorIndex(sb: Super, lba: nat): nat
    requires sb.dataStart <= lba && 0 < sb.spc
  {
    (lba - sb.dataStart) % sb.spc
  }

  lemma SectorInCluster(sb: Super, deviceSectors: nat, lba: nat)
    requires Sound(sb, deviceSectors) && sb.dataStart <= lba && sb.ValidCluster(SectorCluster(sb, lba))
    ensures SectorIndex(sb, lba) < sb.spc
    ensures ClusterLba(sb, SectorCluster(sb, lba)) + SectorIndex(sb, lba) == lba < sb.volumeSectors
  {
    DivideExact(lba - sb.dataStart, sb.spc);
    ClusterInside(sb, deviceSectors, SectorCluster(sb, lba));
  }

  lemma DivideExact(x: nat, d: nat)
    requires 0 < d
    ensures x / d * d + x % d == x && x % d < d
  {
  }

  lemma ClusterPatchedAt(sb: Super, disk: Disk, after: Disk, c: nat, index: nat, o: nat, p: seq<byte>)
    requires Sound(sb, |disk|) && sb.ValidCluster(c) && index < sb.spc && ClusterLba(sb, c) + index < |disk|
    requires 0 < |p| && o + |p| <= SECTOR
    requires after == disk[ClusterLba(sb, c) + index := Splice(disk[ClusterLba(sb, c) + index], o, p)]
    ensures index * SECTOR + o + |p| <= sb.ClusterSize()
    ensures DataOf(sb, after) == DataOf(sb, disk)[c := Splice(DataOf(sb, disk)[c], index * SECTOR + o, p)]
  {
    ClusterInside(sb, |disk|, c);
    InsideSector(index, o, |p|, sb.spc);
    FlatPatched(disk, ClusterLba(sb, c), sb.spc, index * SECTOR + o, p);
    assert ClusterOf(sb, after, c) == Splice(ClusterOf(sb, disk, c), index * SECTOR + o, p);
    forall d: nat | sb.ValidCluster(d) && d != c ensures ClusterOf(sb, after, d) == ClusterOf(sb, disk, d) {
      OtherCluster(sb, disk, after, c, index, d);
    }
  }

  /** Patching part of one sector patches its cluster. */
  lemma ClusterPatched(sb: Super, disk: Disk, after: Disk, lba: nat, o: nat, p: seq<byte>)
    requires Sound(sb, |disk|) && sb.dataStart <= lba < |disk| && sb.ValidCluster(SectorCluster(sb, lba))
    requires 0 < |p| && o + |p| <= SECTOR && after == disk[lba := Splice(disk[lba], o, p)]
    ensures var c, at := SectorCluster(sb, lba), SectorIndex(sb, lba) * SECTOR + o;
            && at + |p| <= sb.ClusterSize()
            && DataOf(sb, after) == DataOf(sb, disk)[c := Splice(DataOf(sb, disk)[c], at, p)]
  {
    SectorInCluster(sb, |disk|, lba);
    hide SectorCluster, SectorIndex, ClusterLba, DataOf;
    ClusterPatchedAt(sb, disk, after, SectorCluster(sb, lba), SectorIndex(sb, lba), o, p);
  }

  lemma InsideSector(index: nat, o: nat, n: nat, spc: nat)
    requires index < spc && o + n <= SECTOR && 0 < n
    ensures var at := index * SECTOR + o; at + n <= SECTOR * spc && at / SECTOR == index && at % SECTOR == o
  {
  }

  lemma OtherCluster(sb: Super, disk: Disk, after: Disk, c: nat, index: nat, d: nat)
    requires Sound(sb, |disk|) && sb.ValidCluster(c) && sb.ValidCluster(d) && d != c && index < sb.spc
    requires |after| == |disk| && forall l :: 0 <= l < |disk| && l != ClusterLba(sb, c) + index ==> after[l] == disk[l]
    ensures ClusterOf(sb, after, d) == ClusterOf(sb, disk, d)
  {
    ClustersDisjoint(sb, |disk|, c, d);
    ClustersDisjoint(sb, |disk|, d, c);
    FlatFramed(disk, after, ClusterLba(sb, d), sb.spc);
  }
}
