/** fat_read_vn: finding the cluster of an offset, and copying out. */
module FatIo {
  import opened Machine
  import opened FatLayout
  import opened FatChain
  import opened FatContent
  import opened FatVolume
  import opened FatFile
  import opened FatStep

  /** What a read at off for len bytes returns. */
  function Slice(s: seq<byte>, off: nat, len: nat): seq<byte> {
    if off >= |s| then [] else s[off..Min(off + len, |s|)]
  }

  ghost function FileOf(node: FatNode, chain: seq<nat>): File
    reads node
  {
    File(node.firstCluster, node.size, chain)
  }

  /** Reading a file of a sound volume yields the slice, unless the kernel is out of memory. */
  ghost predicate ReadResult(g: Geo, v: View, f: File, off: nat, len: nat, r: Errno, buf: seq<byte>) {
    var result := FileOk(g, v, f, Nowhere) ==>
      r in {Success, OutOfMemory} && (r == Success ==> buf == Slice(Content(g, v, f), off, len));
    result
  }

  /** Walking to the first cluster of the slice. */
  ghost predicate Skipping(g: Geo, v: View, f: File, i: nat, cluster: nat) {
    var skipping := FileOk(g, v, f, Nowhere) ==> i < |f.chain| && cluster == f.chain[i];
    skipping
  }

  /** Half-way through the slice: the bytes so far, and the cluster the next ones come from. */
  ghost predicate Reading(g: Geo, v: View, f: File, off: nat, len: nat, buf: seq<byte>, visited: nat, index: nat,
      co: nat, cluster: nat) {
    var reading := FileOk(g, v, f, Nowhere) ==>
      && off + len <= f.size && |buf| <= len && buf == Bytes(g, v.data, f.chain)[off..off + |buf|]
      && (|buf| < len ==>
            visited <= index < |f.chain| && cluster == f.chain[index]
                && Start(g, v.data, f.chain, index) + co == off + |buf|);
    reading
  }

  lemma SkipStart(g: Geo, v: View, f: File)
    requires f.size > 0
    ensures FileOk(g, v, f, Nowhere) ==> f.first != 0
    ensures Skipping(g, v, f, 0, f.first)
  {
  }

  lemma SkipStep(g: Geo, v: View, f: File, i: nat, cluster: nat, off: nat)
    requires g.Ok() && |v.table| == g.limit && Skipping(g, v, f, i, cluster) && 0 < g.cs && i < Index(off, g.cs)
        && off < f.size
    ensures FileOk(g, v, f, Nowhere) ==>
          cluster < g.limit && NextOf(g, v.table[cluster]).0 == Success && NextOf(g, v.table[cluster]).1 != 0
    ensures cluster < g.limit ==> Skipping(g, v, f, i + 1, NextOf(g, v.table[cluster]).1)
  {
    if FileOk(g, v, f, Nowhere) {
      Locate(g, v.data, f.chain, off);
      NextInChain(g, v.table, f.first, f.chain, i);
    }
  }

  lemma ReadStart(g: Geo, v: View, f: File, off: nat, len: nat, index: nat, co: nat, cluster: nat)
    requires Skipping(g, v, f, index, cluster) && off + len <= f.size && off < f.size
    requires 0 < g.cs && index == Index(off, g.cs) && co == Offset(off, g.cs)
    ensures Reading(g, v, f, off, len, [], 0, index, co, cluster)
  {
    if FileOk(g, v, f, Nowhere) { StartOf(g, v.data, f.chain, off); }
  }

  /** While bytes are missing, a file of the volume has a cluster to take them from. */
  lemma ReadNext(g: Geo, v: View, f: File, off: nat, len: nat, buf: seq<byte>, visited: nat, index: nat, co: nat,
      cluster: nat)
    requires g.Ok() && FileOk(g, v, f, Nowhere) && Reading(g, v, f, off, len, buf, visited, index, co, cluster)
        && |buf| < len
    ensures g.Cluster(cluster) && visited < g.limit - 2
  {
    ChainBounded(g, v.table, f.first, f.chain);
  }

  /** One turn of the read loop. */
  lemma ReadStep(g: Geo, v: View, f: File, off: nat, len: nat, buf: seq<byte>, visited: nat, index: nat, co: nat,
      cluster: nat, n: nat)
    requires g.Ok() && FileOk(g, v, f, Nowhere) && Reading(g, v, f, off, len, buf, visited, index, co, cluster)
    requires |buf| < len && co < g.cs && n == Min(g.cs - co, len - |buf|) && g.Cluster(cluster)
    ensures var buf' := buf + v.data[cluster][co..co + n];
            if |buf'| < len then
              && NextOf(g, v.table[cluster]).0 == Success && NextOf(g, v.table[cluster]).1 != 0
              && Reading(g, v, f, off, len, buf', visited + 1, index + 1, 0, NextOf(g, v.table[cluster]).1)
            else Reading(g, v, f, off, len, buf', visited + 1, index + 1, 0, cluster)
  {
    var b := Bytes(g, v.data, f.chain);
    StartStep(g, v.data, f.chain, index);
    SliceGrows(b, off, |buf|, v.data[cluster], Start(g, v.data, f.chain, index), co, n);
    if |buf| + n < len {
      LastStart(g, v.data, f.chain, index);
      NextInChain(g, v.table, f.first, f.chain, index);
    }
  }

  lemma LastStart(g: Geo, data: seq<seq<byte>>, chain: seq<nat>, index: nat)
    requires Sized(g, data) && InRange(g, chain) && index < |chain|
        && Start(g, data, chain, index + 1) < |Bytes(g, data, chain)|
    ensures index + 1 < |chain|
  {
    assert chain[..|chain|] == chain;
  }

  lemma SliceOfPrefix(b: seq<byte>, size: nat, off: nat, n: nat)
    requires off + n <= size <= |b|
    ensures b[..size][off..off + n] == b[off..off + n]
  {
  }

  lemma SliceGrows(b: seq<byte>, off: nat, m: nat, d: seq<byte>, start: nat, co: nat, n: nat)
    requires start + |d| <= |b| && b[start..start + |d|] == d && off + m == start + co && co + n <= |d|
    ensures b[off..off + m] + d[co..co + n] == b[off..off + m + n]
  {
    var x, y := b[off..off + m] + d[co..co + n], b[off..off + m + n];
    forall k | 0 <= k < |x| ensures x[k] == y[k] {
      if k >= m { assert d[co + k - m] == b[start..start + |d|][co + k - m]; }
    }
  }

  lemma ReadDone(g: Geo, v: View, f: File, off: nat, want: nat, len: nat, buf: seq<byte>, visited: nat, index: nat,
      co: nat, cluster: nat)
    requires Reading(g, v, f, off, len, buf, visited, index, co, cluster) && off < f.size
        && len == Min(want, f.size - off) && |buf| == len
    ensures ReadResult(g, v, f, off, want, Success, buf)
  {
    if FileOk(g, v, f, Nowhere) { SliceOfPrefix(Bytes(g, v.data, f.chain), f.size, off, len); }
  }

  lemma EmptyRead(g: Geo, v: View, f: File, off: nat, want: nat)
    ensures off >= f.size || want == 0 ==> ReadResult(g, v, f, off, want, Success, [])
    ensures ReadResult(g, v, f, off, want, OutOfMemory, [])
  {
  }

  /** A walk that runs into an error was not a walk along a file of the volume. */
  lemma NotAFile(g: Geo, v: View, f: File, off: nat, want: nat, r: Errno, buf: seq<byte>)
    requires !FileOk(g, v, f, Nowhere)
    ensures ReadResult(g, v, f, off, want, r, buf)
  {
  }

  lemma NotReading(g: Geo, v: View, f: File, off: nat, len: nat, buf: seq<byte>, visited: nat, index: nat, co: nat,
      cluster: nat)
    requires !FileOk(g, v, f, Nowhere)
    ensures Reading(g, v, f, off, len, buf, visited, index, co, cluster)
  {
  }

  /** The first loop of fat_read_vn: the cluster the slice starts in. */
  method SkipTo(vol: Volume, ghost f: File, first: u32, skip: u32, ghost off: nat) returns (r: Errno, cluster: u32)
    requires vol.Ready() && first == f.first != 0 && off < f.size && skip == Index(off, vol.sb.ClusterSize())
    ensures FileOk(GeoOf(vol.sb), vol.view, f, Nowhere) ==> r == Success
    ensures r != OutOfMemory
    ensures r == Success ==> Skipping(GeoOf(vol.sb), vol.view, f, skip, cluster)
  {
    hide Volume.Ready, Geo.Ok, FileOk, Skipping, NextOf, Index, Offset;
    GeoIsOk(vol);
    ghost var g, v := GeoOf(vol.sb), vol.view;
    SkipStart(g, v, f);
    r, cluster := Success, first;
    var i := 0;
    while r == Success && i < skip
      invariant r == Success ==> 0 <= i <= skip && Skipping(g, v, f, i, cluster)
      invariant (FileOk(g, v, f, Nowhere) ==> r == Success) && r != OutOfMemory
      decreases skip - i, r == Success
    {
      SkipStep(g, v, f, i, cluster, off);
      r, cluster := NextCluster(vol, cluster);
      if r == Success && cluster == 0 { r := IoError; }
      i := i + 1;
    }
  }

  /** The body of fat_read_vn's second loop: the bytes one cluster contributes, and the cluster after it. */
  method CopyChunk(vol: Volume, ghost f: File, ghost off: nat, len: u32, buf: seq<byte>, ghost visited: nat,
      ghost index: nat,
                   co: nat, cluster: u32)
    returns (r: Errno, buf': seq<byte>, next: u32)
    requires vol.Ready() && co < vol.sb.ClusterSize() && |buf| < len
    requires Reading(GeoOf(vol.sb), vol.view, f, off, len, buf, visited, index, co, cluster)
    ensures |buf'| <= len && r != OutOfMemory
    ensures FileOk(GeoOf(vol.sb), vol.view, f, Nowhere) ==>
      r == Success && Reading(GeoOf(vol.sb), vol.view, f, off, len, buf', visited + 1, index + 1, 0, next)
  {
    hide Volume.Ready, Geo.Ok, FileOk, Reading, NextOf;
    GeoIsOk(vol);
    ghost var g, v := GeoOf(vol.sb), vol.view;
    ghost var ok := FileOk(g, v, f, Nowhere);
    if ok { ReadNext(g, v, f, off, len, buf, visited, index, co, cluster); }
    buf', next := buf, cluster;
    var data;
    r, data := vol.ReadCluster(cluster);
    if r != Success { return; }
    var cs := vol.sb.ClusterSize();
    var n := if cs - co > len - |buf| then len - |buf| else cs - co;
    if ok { ReadStep(g, v, f, off, len, buf, visited, index, co, cluster, n); }
    buf' := buf + data[co..co + n];
    if |buf'| < len {
      r, next := NextCluster(vol, cluster);
      if r == Success && next == 0 { r := IoError; }
    }
  }

  /** The second loop of fat_read_vn: cluster by cluster, at most as many as the volume has. */
  method CopyOut(vol: Volume, ghost f: File, start: u32, ghost off: nat, want: u32, len: u32, co0: nat,
      ghost index0: nat)
    returns (r: Errno, buf: seq<byte>)
    requires vol.Ready() && co0 < vol.sb.ClusterSize() && off < f.size && len == Min(want, f.size - off)
    requires Reading(GeoOf(vol.sb), vol.view, f, off, len, [], 0, index0, co0, start)
    ensures ReadResult(GeoOf(vol.sb), vol.view, f, off, want, r, buf) && r != OutOfMemory
  {
    hide Volume.Ready, Geo.Ok, FileOk, Reading, NextOf, ReadResult;
    GeoIsOk(vol);
    ghost var g, v := GeoOf(vol.sb), vol.view;
    ghost var ok := FileOk(g, v, f, Nowhere);
    var co: nat, cluster, visited: nat := co0, start, 0;
    ghost var index: nat := index0;
    r, buf := Success, [];
    while r == Success && |buf| < len && visited <= vol.sb.clusterCount
      invariant co < vol.sb.ClusterSize() && |buf| <= len && (ok ==> r == Success) && r != OutOfMemory
      invariant r == Success && ok ==> Reading(g, v, f, off, len, buf, visited, index, co, cluster)
      decreases vol.sb.clusterCount + 1 - visited
    {
      if !ok { NotReading(g, v, f, off, len, buf, visited, index, co, cluster); }
      r, buf, cluster := CopyChunk(vol, f, off, len, buf, visited, index, co, cluster);
      co, index, visited := 0, index + 1, visited + 1;
    }
    if r == Success && |buf| != len { r := IoError; }
    if !ok {
      NotAFile(g, v, f, off, want, r, buf);
    } else {
      if |buf| < len { ReadNext(g, v, f, off, len, buf, visited, index, co, cluster); }
      ReadDone(g, v, f, off, want, len, buf, visited, index, co, cluster);
    }
  }

  method Read(vol: Volume, node: FatNode, off: u32, want: u32, ghost chain: seq<nat>) returns (r: Errno, buf: seq<byte>)
    requires vol.Ready()
    ensures ReadResult(GeoOf(vol.sb), vol.view, FileOf(node, chain), off, want, r, buf)
    ensures vol.granted ==> r != OutOfMemory
  {
    hide Volume.Ready, FileOk, Skipping, Reading, NextOf, ReadResult, Index, Offset;
    GeoIsOk(vol);
    ghost var g, v, f := GeoOf(vol.sb), vol.view, FileOf(node, chain);
    r, buf := Success, [];
    EmptyRead(g, v, f, off, want);
    if off >= node.size || want == 0 { return; }
    var len := if want > node.size - off then node.size - off else want;
    var memory := vol.Malloc();
    if !memory { r := OutOfMemory; return; }
    SkipStart(g, v, f);
    var cs := vol.sb.ClusterSize();
    var skip, co := Index(off, cs), Offset(off, cs);
    if node.firstCluster == 0 {
      NotAFile(g, v, f, off, want, IoError, buf);
      r := IoError;
      return;
    }
    var cluster;
    r, cluster := SkipTo(vol, f, node.firstCluster, skip, off);
    if r != Success {
      NotAFile(g, v, f, off, want, r, buf);
      return;
    }
    ReadStart(g, v, f, off, len, skip, co, cluster);
    r, buf := CopyOut(vol, f, cluster, off, want, len, co, skip);
  }
}
