/** fat_update_dirent, and the shrinking half of fat_truncate_vn. */
module FatTruncate {
  import opened Machine
  import opened FatLayout
  import opened FatChain
  import opened FatContent
  import opened FatVolume
  import opened FatFile
  import opened FatStep
  import opened FatIo
  import Codec = FatCodec

  /** A node's directory entry lies in a sector that holds entries. */
  ghost predicate Placed(sb: Super, node: FatNode)
    reads node
  {
    node.hasDirent ==> HoldsEntries(sb, node.dirSector) && node.dirOffset + SLOT <= SECTOR
  }

  ghost function HomeOf(sb: Super, node: FatNode): Home
    reads node
    requires node.hasDirent ==> HoldsEntries(sb, node.dirSector)
  {
    if node.hasDirent then At(SpotOf(sb, node.dirSector, node.dirOffset)) else Nowhere
  }

  /** fat_update_dirent: first cluster and size go into the entry; all its other bytes stay. */
  method UpdateDirent(vol: Volume, node: FatNode) returns (r: Errno)
    requires vol.Ready() && (node.hasDirent ==> HoldsEntries(vol.sb, node.dirSector))
    modifies vol
    ensures vol.Ready()
    ensures r == if node.hasDirent && node.dirOffset + SLOT > SECTOR then IoError else Success
    ensures r != Success ==> vol.view == old(vol.view)
    ensures r == Success ==>
      && (node.hasDirent ==> Holds(old(vol.view), HomeOf(vol.sb, node).spot, SLOT))
      && vol.view == Recorded(old(vol.view), HomeOf(vol.sb, node), node.firstCluster, node.size)
  {
    hide Volume.Ready, HoldsEntries;
    if !node.hasDirent { return Success; }
    if node.dirOffset + SLOT > SECTOR { return IoError; }
    var sector := vol.LoadSector(node.dirSector);
    var o := node.dirOffset;
    SlotInSector(vol.sb, vol.view, node.dirSector, o);
    vol.PatchSector(node.dirSector, o, WithExtent(sector[o..o + SLOT], node.firstCluster, node.size));
    return Success;
  }

  /** A slot of a loaded sector is the slot of the view. */
  lemma SlotInSector(sb: Super, v: View, lba: nat, o: nat)
    requires HoldsEntries(sb, lba) && o + SLOT <= SECTOR && Holds(v, SpotOf(sb, lba, 0), SECTOR)
    ensures Holds(v, SpotOf(sb, lba, o), SLOT)
    ensures Peek(v, SpotOf(sb, lba, 0), SECTOR)[o..o + SLOT] == Peek(v, SpotOf(sb, lba, o), SLOT)
  {
    match SpotOf(sb, lba, 0)
    case InRoot(at) => SliceOfSlice(v.root, at, SECTOR, o, SLOT);
    case InCluster(c, at) => SliceOfSlice(v.data[c], at, SECTOR, o, SLOT);
  }

  lemma SliceOfSlice(s: seq<byte>, a: nat, n: nat, o: nat, m: nat)
    requires a + n <= |s| && o + m <= n
    ensures s[a..a + n][o..o + m] == s[a + o..a + o + m]
  {
    var x, y := s[a..a + n][o..o + m], s[a + o..a + o + m];
    assert |x| == |y| && forall k :: 0 <= k < |x| ==> x[k] == y[k];
  }

  /** The number of clusters fat_truncate_vn keeps, in 32-bit arithmetic. */
  function Keep(n: u32, cs: nat): (k: u32)
    requires 0 < cs
  {
    QuotientSmall(Wrap32(n + cs - 1), cs);
    if n == 0 then 0 else Wrap32(n + cs - 1) / cs
  }

  /** Keep is the number of clusters n bytes need exactly when the sum does not wrap; once it wraps, it is 0. */
  lemma KeepExact(n: u32, cs: nat)
    requires 0 < n && 0 < cs <= 0x1_0000
    ensures Keep(n, cs) == (n - 1) / cs + 1 <==> NoWrap(n, cs)
    ensures !NoWrap(n, cs) ==> Keep(n, cs) == 0
  {
    QuotientSmall(n - 1, cs);
    if NoWrap(n, cs) {
      ClustersFor(n, cs, 1);
    } else {
      Quotient(n + cs - 1 - U32, cs, 0, n + cs - 1 - U32);
    }
  }

  /** Shrinking a file of the volume: on the wrap, the file is freed although bytes should remain. */
  ghost predicate Shrunk(g: Geo, v: View, f: File, home: Home, n: u32, r: Errno, v': View, first': nat,
      chain': seq<nat>) {
    var shrunk := FileOk(g, v, f, home) && n < f.size ==>
      && r == Success
      && (NoWrap(n, g.cs) ==>
            && FileStep(g, v, f, v', File(first', n, chain'), home)
            && Content(g, v', File(first', n, chain')) == Content(g, v, f)[..n])
      && (!NoWrap(n, g.cs) ==> v' == v.(table := Cleared(v.table, f.chain)) && first' == 0 && chain' == []);
    shrunk
  }

  /** Shrinking leaves a file with the first n bytes exactly when the size computation does not wrap. */
  lemma ShrinkExact(g: Geo, v: View, f: File, home: Home, n: u32, r: Errno, v': View, first': nat, chain': seq<nat>)
    requires FileOk(g, v, f, home) && n < f.size && Shrunk(g, v, f, home, n, r, v', first', chain')
    ensures (FileOk(g, v', File(first', n, chain'), home)
        && Content(g, v', File(first', n, chain')) == Content(g, v, f)[..n]) <==> NoWrap(n, g.cs)
  {
  }

  /** A FAT32 volume with 64 KiB clusters has room for a file that can be shrunk to a size that wraps. */
  lemma WrapHappens() returns (g: Geo, v: View, f: File, n: u32)
    ensures FileOk(g, v, f, Nowhere) && n < f.size && !NoWrap(n, g.cs)
  {
    var last := 0x1_0001;
    g := Geo(Fat32, last + 1, 0x1_0000);
    var chain: seq<nat> := seq(0x1_0000, k => k + 2);
    var table: seq<nat> := seq(last + 1, i => if i == last then EocMarker(Fat32) else i + 1);
    v := View(table, seq(last + 1, _ => Zeros(0x1_0000)), []);
    f, n := File(2, U32 - 1, chain), U32 - 2;
    assert Linked(g, table, chain);
    BytesLength(g, v.data, chain);
  }

  lemma ShrinkAll(g: Geo, v: View, f: File, home: Home, n: u32)
    requires 0 < g.cs && Keep(n, g.cs) == 0
    ensures Shrunk(g, v, f, home, n, Success, v.(table := Cleared(v.table, f.chain)), 0, [])
  {
    if FileOk(g, v, f, home) && n < f.size {
      CutToNothing(g, v, f, home);
      if n > 0 {
        KeepExact(n, g.cs);
        QuotientSmall(n - 1, g.cs);
      }
    }
  }

  /** The steps of the keeping branch on a file of the volume. */
  ghost predicate Keeping(g: Geo, v: View, f: File, home: Home, n: u32, k: nat) {
    var keeping := FileOk(g, v, f, home) && n < f.size ==>
      && 0 < n && NoWrap(n, g.cs) && 0 < k <= |f.chain| && k == (n - 1) / g.cs + 1;
    keeping
  }

  lemma KeepStart(g: Geo, v: View, f: File, home: Home, n: u32)
    requires 0 < g.cs && Keep(n, g.cs) != 0
    ensures Keeping(g, v, f, home, n, Keep(n, g.cs))
  {
    if FileOk(g, v, f, home) && n < f.size {
      KeepExact(n, g.cs);
      KeepCount(g, v, f, home, n);
    }
  }

  /** The last cluster to keep, and the chain to free behind it. */
  ghost predicate CutPlan(g: Geo, v: View, f: File, home: Home, n: u32, k: nat, last: nat, tail: nat) {
    var plan := FileOk(g, v, f, home) && n < f.size ==>
      && 0 < k <= |f.chain| && last == f.chain[k - 1] && tail == if k < |f.chain| then f.chain[k] else 0;
    plan
  }

  lemma PlanCut(g: Geo, v: View, f: File, home: Home, n: u32, k: nat, r: Errno, last: nat, v': View, first': nat,
      chain': seq<nat>)
    requires Keeping(g, v, f, home, n, k) && 0 < k
        && Ensured(g, v, f.first, f.chain, k - 1, r, last, v', first', chain')
    ensures FileOk(g, v, f, home) && n < f.size ==>
      && r == Success && v' == v && first' == f.first && g.Cluster(last) && |v.table| == g.limit
      && NextOf(g, v.table[last]).0 == Success && CutPlan(g, v, f, home, n, k, last, NextOf(g, v.table[last]).1)
  {
    if FileOk(g, v, f, home) && n < f.size {
      EnsuredInside(g, v, f.first, f.chain, k - 1, r, last, v', first', chain');
      NextInChain(g, v.table, f.first, f.chain, k - 1);
    }
  }

  /** What freeing the tail leaves, once the marker is written. */
  lemma CutDone(g: Geo, v: View, f: File, home: Home, n: u32, k: nat, last: nat, tail: nat)
    requires FileOk(g, v, f, home) && n < f.size
    requires Keeping(g, v, f, home, n, k) && CutPlan(g, v, f, home, n, k, last, tail)
    ensures k <= |f.chain| && last < |v.table|
    ensures IsChain(g, UpdateTable(v, last, EocMarker(g.ty)).table, tail, f.chain[k..])
    ensures var v1 := UpdateTable(v, last, EocMarker(g.ty));
            Shrunk(g, v, f, home, n, Success, v1.(table := Cleared(v1.table, f.chain[k..])), f.first, f.chain[..k])
  {
    TailIsChain(g, v.table, f.first, f.chain, k, EocMarker(g.ty));
    KeepCount(g, v, f, home, n);
    CutFrame(g, v, f, home, k, n);
    CutContent(g, v, f, home, k, n);
  }

  /** End the chain after its last cluster to keep and free the rest. */
  method FreeTail(vol: Volume, ghost v: View, ghost f: File, ghost home: Home, n: u32, ghost k: nat, last: u32,
      tail: u32, ghost first: nat)
    returns (r: Errno, ghost chain': seq<nat>)
    requires vol.Ready() && last < vol.sb.Limit()
    requires Keeping(GeoOf(vol.sb), v, f, home, n, k) && CutPlan(GeoOf(vol.sb), v, f, home, n, k, last, tail)
    requires FileOk(GeoOf(vol.sb), v, f, home) && n < f.size ==> vol.view == v && first == f.first
    modifies vol
    ensures vol.Ready()
    ensures Shrunk(GeoOf(vol.sb), v, f, home, n, r, vol.view, first, chain')
    ensures vol.granted ==> r != OutOfMemory
  {
    hide Volume.Ready, Geo.Ok, FileOk, IsChain, Cleared, Keeping, CutPlan, Shrunk;
    GeoIsOk(vol);
    ghost var g := GeoOf(vol.sb);
    ghost var ok := FileOk(g, v, f, home) && n < f.size;
    if ok { CutDone(g, v, f, home, n, k, last, tail); }
    vol.Set(last, EocMarker(vol.sb.ty));
    chain' := if ok then f.chain[..k] else [];
    r := FreeChain(vol, tail, if ok then f.chain[k..] else []);
    if !ok { NotShrinking(g, v, f, home, n, r, vol.view, first, chain'); }
  }

  /** The keeping branch of fat_truncate_vn. */
  method CutAfter(vol: Volume, node: FatNode, ghost f: File, ghost home: Home, n: u32, k: u32)
      returns (r: Errno, ghost chain': seq<nat>)
    requires vol.Ready() && f.first == node.firstCluster && 0 < k && Keeping(GeoOf(vol.sb), vol.view, f, home, n, k)
    modifies vol, node`firstCluster
    ensures vol.Ready()
    ensures Shrunk(GeoOf(vol.sb), old(vol.view), f, home, n, r, vol.view, node.firstCluster, chain')
    ensures vol.granted ==> r != OutOfMemory
  {
    hide Volume.Ready, FileOk, Ensured, NextOf, Keeping, CutPlan, Shrunk;
    ghost var g, v := GeoOf(vol.sb), vol.view;
    ghost var ok := FileOk(g, v, f, home) && n < f.size;
    var last, tail;
    r, last, chain' := EnsureCluster(vol, node, k - 1, f.chain);
    PlanCut(g, v, f, home, n, k, r, last, vol.view, node.firstCluster, chain');
    if r == Success {
      r, tail := NextCluster(vol, last);
    }
    if r != Success {
      NotShrinking(g, v, f, home, n, r, vol.view, node.firstCluster, chain');
      return;
    }
    if !ok { NotPlanned(g, v, f, home, n, k, last, tail); }
    r, chain' := FreeTail(vol, v, f, home, n, k, last, tail, node.firstCluster);
  }

  lemma NotPlanned(g: Geo, v: View, f: File, home: Home, n: u32, k: nat, last: nat, tail: nat)
    requires !(FileOk(g, v, f, home) && n < f.size)
    ensures CutPlan(g, v, f, home, n, k, last, tail)
  {
  }

  lemma NotShrinking(g: Geo, v: View, f: File, home: Home, n: u32, r: Errno, v': View, first': nat, chain': seq<nat>)
    requires !(FileOk(g, v, f, home) && n < f.size)
    ensures Shrunk(g, v, f, home, n, r, v', first', chain')
  {
  }

  /** The first branch of fat_truncate_vn. */
  method Shrink(vol: Volume, node: FatNode, ghost f: File, ghost home: Home, n: u32)
      returns (r: Errno, ghost chain': seq<nat>)
    requires vol.Ready() && f.first == node.firstCluster
    modifies vol, node`firstCluster
    ensures vol.Ready()
    ensures Shrunk(GeoOf(vol.sb), old(vol.view), f, home, n, r, vol.view, node.firstCluster, chain')
    ensures vol.granted ==> r != OutOfMemory
  {
    hide Volume.Ready, Geo.Ok, FileOk, IsChain, Keep, Shrunk, Cleared;
    GeoIsOk(vol);
    ghost var g, v := GeoOf(vol.sb), vol.view;
    ghost var ok := FileOk(g, v, f, home) && n < f.size;
    if ok { FileHasChain(g, v, f, home); }
    chain' := f.chain;
    var keep := Keep(n, vol.sb.ClusterSize());
    if keep == 0 {
      ShrinkAll(g, v, f, home, n);
      r := FreeChain(vol, node.firstCluster, f.chain);
      if r == Success {
        node.firstCluster := 0;
        chain' := [];
      }
      if !ok { NotShrinking(g, v, f, home, n, r, vol.view, node.firstCluster, chain'); }
    } else {
      KeepStart(g, v, f, home, n);
      r, chain' := CutAfter(vol, node, f, home, n, keep);
    }
  }
}
