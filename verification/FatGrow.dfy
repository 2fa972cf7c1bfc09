/** The growing branch of fat_truncate_vn: extend the chain, then clear everything between the old and the new end. */
module FatGrow {
  import opened Machine
  import opened FatLayout
  import opened FatChain
  import opened FatContent
  import opened FatVolume
  import opened FatFile
  import opened FatStep

  /** Growing a file of the volume pads it with zeros, or fails and leaves its content alone. */
  ghost predicate Stretched(g: Geo, v: View, f: File, home: Home, n: nat, r: Errno, v': View, first': nat,
      chain': seq<nat>) {
    var stretched := FileOk(g, v, f, home) && f.size < n < U32 ==>
      && r in {Success, NoSpaceLeft, OutOfMemory}
      && (var f' := File(first', if r == Success then n else f.size, chain');
          && FileStep(g, v, f, v', f', home)
          && Content(g, v', f') == if r == Success then Resized(Content(g, v, f), n) else Content(g, v, f))
      && (f.chain != [] ==> first' == f.first)
      && (r == NoSpaceLeft ==> NoneFree(g, v'.table) && !Room(g, v, f.chain, n))
      && (r == Success ==> Room(g, v, f.chain, n));
    stretched
  }

  /** Everything between the old end and the cursor is zero; the chain is long enough for the new end. */
  ghost predicate Zeroing(g: Geo, v: View, f: File, home: Home, n: nat, v1: View, first1: nat, chain1: seq<nat>,
      v2: View, cursor: nat) {
    var zeroing := f.size <= cursor <= n && (FileOk(g, v, f, home) && f.size < n < U32 ==>
      && Extended(g, v, f.chain, v1, first1, chain1)
      && Patched(g, v1, chain1, v2, f.size, Zeros(cursor - f.size))
      && n <= |Bytes(g, v1.data, chain1)|);
    zeroing
  }

  lemma NotStretching(g: Geo, v: View, f: File, home: Home, n: nat, r: Errno, v': View, first': nat, chain': seq<nat>)
    requires !(FileOk(g, v, f, home) && f.size < n < U32)
    ensures Stretched(g, v, f, home, n, r, v', first', chain')
  {
  }

  /** No space, or no memory, before anything was cleared. */
  lemma StretchFailed(g: Geo, v: View, f: File, home: Home, n: nat, index: nat, r0: Errno, r: Errno, out: nat, v': View,
      first': nat, chain': seq<nat>)
    requires Ensured(g, v, f.first, f.chain, index, r0, out, v', first', chain')
    requires if r0 == Success then r == OutOfMemory else r == r0
    requires 0 < g.cs && 0 < n && index == Index(n - 1, g.cs)
    ensures Stretched(g, v, f, home, n, r, v', first', chain')
  {
    if FileOk(g, v, f, home) && f.size < n < U32 {
      ExtendStep(g, v, f, home, v', first', chain');
      ExtendedCount(g, v, f.first, f.chain, v', first', chain');
    }
  }

  lemma CapacityEnsured(g: Geo, v: View, f: File, home: Home, n: nat, v1: View, first1: nat, chain1: seq<nat>)
    requires FileOk(g, v, f, home) && 0 < n && Extended(g, v, f.chain, v1, first1, chain1)
        && Index(n - 1, g.cs) < |chain1|
    ensures Sized(g, v1.data) && n <= |Bytes(g, v1.data, chain1)|
  {
    ExtendFrame(g, v, f, home, v1, first1, chain1);
    BytesLength(g, v1.data, chain1);
    ClustersFor(n, g.cs, |chain1|);
  }

  lemma ZeroStart(g: Geo, v: View, f: File, home: Home, n: nat, out: nat, v1: View, first1: nat, chain1: seq<nat>)
    requires f.size < n && 0 < g.cs && Ensured(g, v, f.first, f.chain, Index(n - 1, g.cs), Success, out, v1, first1,
        chain1)
    ensures Zeroing(g, v, f, home, n, v1, first1, chain1, v1, f.size)
  {
    if FileOk(g, v, f, home) && f.size < n < U32 {
      CapacityEnsured(g, v, f, home, n, v1, first1, chain1);
      NotYetPatched(g, v1, first1, chain1, f.size);
      assert Zeros(0) == [];
    }
  }

  /** Where the next zeros go: inside the chain, so ensuring the cluster changes nothing. */
  lemma ZeroNext(g: Geo, v: View, f: File, home: Home, n: nat, v1: View, first1: nat, chain1: seq<nat>, v2: View,
      cursor: nat)
    requires Zeroing(g, v, f, home, n, v1, first1, chain1, v2, cursor) && cursor < n && 0 < g.cs
    ensures FileOk(g, v, f, home) && f.size < n < U32 ==>
      IsChain(g, v2.table, first1, chain1) && Index(cursor, g.cs) < |chain1|
  {
    if FileOk(g, v, f, home) && f.size < n < U32 { Locate(g, v1.data, chain1, cursor); }
  }

  lemma ZeroStep(g: Geo, v: View, f: File, home: Home, n: nat, v1: View, first1: nat, chain1: seq<nat>, v2: View,
      cursor: nat, amount: nat)
    requires FileOk(g, v, f, home) && f.size < n < U32 && cursor < n
    requires Zeroing(g, v, f, home, n, v1, first1, chain1, v2, cursor)
    requires amount == Min(g.cs - Offset(cursor, g.cs), n - cursor)
    ensures Index(cursor, g.cs) < |chain1|
    ensures var c := chain1[Index(cursor, g.cs)];
            && g.Cluster(c) && |v2.data| == g.limit && |v2.data[c]| == g.cs
            && Zeroing(g, v, f, home, n, v1, first1, chain1,
                       UpdateData(v2, c, Splice(v2.data[c], Offset(cursor, g.cs), Zeros(amount))), cursor + amount)
  {
    PatchedMore(g, v1, chain1, v2, f.size, Zeros(cursor - f.size), Index(cursor, g.cs), Offset(cursor, g.cs),
        Zeros(amount));
    assert Zeros(cursor - f.size) + Zeros(amount) == Zeros(cursor + amount - f.size);
  }

  /** One turn of the clearing loop, seen from the cluster fat_ensure_cluster handed out. */
  lemma ZeroTurn(g: Geo, v: View, f: File, home: Home, n: nat, v1: View, first1: nat, chain1: seq<nat>, v2: View,
      cursor: nat, amount: nat,
                 r: Errno, c: nat, v': View, first': nat, chain': seq<nat>)
    requires FileOk(g, v, f, home) && f.size < n < U32 && cursor < n
    requires Zeroing(g, v, f, home, n, v1, first1, chain1, v2, cursor)
    requires amount == Min(g.cs - Offset(cursor, g.cs), n - cursor)
    requires Ensured(g, v2, first1, chain1, Index(cursor, g.cs), r, c, v', first', chain')
    ensures r == Success && v' == v2 && first' == first1
    ensures g.Cluster(c) && |v2.data| == g.limit && |v2.data[c]| == g.cs
    ensures Zeroing(g, v, f, home, n, v1, first1, chain1,
                    UpdateData(v2, c, Splice(v2.data[c], Offset(cursor, g.cs), Zeros(amount))), cursor + amount)
  {
    ZeroNext(g, v, f, home, n, v1, first1, chain1, v2, cursor);
    EnsuredInside(g, v2, first1, chain1, Index(cursor, g.cs), r, c, v', first', chain');
    ZeroStep(g, v, f, home, n, v1, first1, chain1, v2, cursor, amount);
  }

  lemma ZeroedContent(b: seq<byte>, was: seq<byte>, size: nat, n: nat)
    requires size < n <= |b| && |was| >= size && was[..size] == b[..size]
    ensures Splice(b, size, Zeros(n - size))[..n] == Resized(was[..size], n)
    ensures Splice(b, size, Zeros(n - size))[..size] == was[..size]
  {
  }

  /** The content after clearing up to the cursor: padded if the new end is reached, untouched below the old one. */
  lemma ZeroedStep(g: Geo, v: View, f: File, home: Home, n: nat, v1: View, first1: nat, chain1: seq<nat>, v2: View,
      cursor: nat, size: nat)
    requires FileOk(g, v, f, home) && f.size < n < U32
    requires Zeroing(g, v, f, home, n, v1, first1, chain1, v2, cursor)
    requires size == f.size || (size == n && cursor == n)
    ensures FileStep(g, v, f, v2, File(first1, size, chain1), home)
    ensures Content(g, v2, File(first1, size, chain1)) == if size == f.size then Content(g, v, f)
        else Resized(Content(g, v, f), n)
  {
    ExtendStep(g, v, f, home, v1, first1, chain1);
    ExtendContent(g, v, f, home, v1, first1, chain1);
    PatchStep(g, v, f, v1, File(first1, f.size, chain1), home, v2, f.size, Zeros(cursor - f.size), size);
    var b := Bytes(g, v1.data, chain1);
    PrefixTaken(Bytes(g, v.data, f.chain), b, f.size);
    if size == f.size {
      assert Splice(b, f.size, Zeros(cursor - f.size))[..f.size] == b[..f.size];
    } else {
      ZeroedContent(b, Bytes(g, v.data, f.chain), f.size, n);
    }
  }

  lemma RoomTaken(g: Geo, v: View, f: File, home: Home, n: nat, v1: View, first1: nat, chain1: seq<nat>)
    requires FileOk(g, v, f, home) && 0 < n && Extended(g, v, f.chain, v1, first1, chain1)
    requires Sized(g, v1.data) && n <= |Bytes(g, v1.data, chain1)|
    ensures Room(g, v, f.chain, n)
  {
    ExtendedCount(g, v, f.first, f.chain, v1, first1, chain1);
    BytesLength(g, v1.data, chain1);
    ClustersFor(n, g.cs, |chain1|);
  }

  lemma ZeroDone(g: Geo, v: View, f: File, home: Home, n: nat, v1: View, first1: nat, chain1: seq<nat>, v2: View)
    requires Zeroing(g, v, f, home, n, v1, first1, chain1, v2, n)
    ensures Stretched(g, v, f, home, n, Success, v2, first1, chain1)
  {
    if FileOk(g, v, f, home) && f.size < n < U32 {
      ZeroedStep(g, v, f, home, n, v1, first1, chain1, v2, n, n);
      ExtendFrame(g, v, f, home, v1, first1, chain1);
      RoomTaken(g, v, f, home, n, v1, first1, chain1);
    }
  }

  lemma ZeroFailed(g: Geo, v: View, f: File, home: Home, n: nat, v1: View, first1: nat, chain1: seq<nat>, v2: View,
      cursor: nat)
    requires Zeroing(g, v, f, home, n, v1, first1, chain1, v2, cursor)
    ensures Stretched(g, v, f, home, n, OutOfMemory, v2, first1, chain1)
  {
    if FileOk(g, v, f, home) && f.size < n < U32 {
      ZeroedStep(g, v, f, home, n, v1, first1, chain1, v2, cursor, f.size);
    }
  }

  /** Clear amount bytes of a cluster from o on: a whole cluster is written outright, a part read,
      cleared and written. */
  method ClearPart(vol: Volume, cluster: u32, o: nat, amount: nat) returns (r: Errno)
    requires vol.Ready() && o + amount <= vol.sb.ClusterSize()
    modifies vol
    ensures vol.Ready()
    ensures !vol.sb.ValidCluster(cluster) ==> r != Success
    ensures vol.sb.ValidCluster(cluster) ==> r in {Success, OutOfMemory}
    ensures vol.granted ==> r != OutOfMemory
    ensures r != Success ==> vol.view == old(vol.view)
    ensures r == Success ==>
      && |old(vol.view).data[cluster]| == vol.sb.ClusterSize()
      && vol.view == UpdateData(old(vol.view), cluster, Splice(old(vol.view).data[cluster], o, Zeros(amount)))
  {
    hide Volume.Ready, Geo.Ok;
    GeoIsOk(vol);
    if cluster < 2 || cluster >= vol.sb.Limit() { return IoError; }
    if o == 0 && amount == vol.sb.ClusterSize() {
      assert Splice(vol.view.data[cluster], 0, Zeros(amount)) == Zeros(amount);
      vol.Put(cluster, Zeros(amount));
    } else {
      var memory := vol.Malloc();
      if !memory { return OutOfMemory; }
      var _, data := vol.ReadCluster(cluster);
      vol.Put(cluster, Splice(data, o, Zeros(amount)));
    }
    return Success;
  }

  /** One turn of the clearing loop. */
  method ZeroChunk(vol: Volume, node: FatNode, ghost v: View, ghost f: File, ghost home: Home, n: u32,
                   ghost v1: View, ghost chain1: seq<nat>, cursor: u32)
    returns (r: Errno, cursor': u32)
    requires vol.Ready() && cursor < n
    requires Zeroing(GeoOf(vol.sb), v, f, home, n, v1, node.firstCluster, chain1, vol.view, cursor)
    modifies vol, node`firstCluster
    ensures vol.Ready() && (if r == Success then cursor < cursor' <= n else cursor' == cursor)
    ensures vol.granted ==> r != OutOfMemory
    ensures FileOk(GeoOf(vol.sb), v, f, home) && f.size < n ==>
      && r in {Success, OutOfMemory} && node.firstCluster == old(node.firstCluster)
      && Zeroing(GeoOf(vol.sb), v, f, home, n, v1, node.firstCluster, chain1, vol.view, cursor')
  {
    hide Volume.Ready, Geo.Ok, FileOk, IsChain, Zeroing, Ensured, Index, Offset;
    GeoIsOk(vol);
    ghost var g, v2, first1 := GeoOf(vol.sb), vol.view, node.firstCluster;
    ghost var ok := FileOk(g, v, f, home) && f.size < n;
    var cs := vol.sb.ClusterSize();
    var o := Offset(cursor, cs);
    var amount := if cs - o > n - cursor then n - cursor else cs - o;
    cursor' := cursor;
    var cluster;
    ghost var chain';
    r, cluster, chain' := EnsureCluster(vol, node, Index(cursor, cs), chain1);
    if ok { ZeroTurn(g, v, f, home, n, v1, first1, chain1, v2, cursor, amount, r, cluster, vol.view, node.firstCluster,
        chain'); }
    if r == Success {
      r := ClearPart(vol, cluster, o, amount);
      if r == Success { cursor' := cursor + amount; }
    }
  }

  lemma NotZeroing(g: Geo, v: View, f: File, home: Home, n: nat, v1: View, first1: nat, chain1: seq<nat>, v2: View,
      cursor: nat)
    requires !(FileOk(g, v, f, home) && f.size < n < U32) && f.size <= cursor <= n
    ensures Zeroing(g, v, f, home, n, v1, first1, chain1, v2, cursor)
  {
  }

  /** The clearing loop. */
  method ClearTo(vol: Volume, node: FatNode, ghost v: View, ghost f: File, ghost home: Home, n: u32,
      ghost chain1: seq<nat>) returns (r: Errno)
    requires vol.Ready() && f.size == node.size < n
    requires Zeroing(GeoOf(vol.sb), v, f, home, n, vol.view, node.firstCluster, chain1, vol.view, f.size)
    modifies vol, node`firstCluster
    ensures vol.Ready() && (vol.granted ==> r != OutOfMemory)
    ensures Stretched(GeoOf(vol.sb), v, f, home, n, r, vol.view, node.firstCluster, chain1)
  {
    hide Volume.Ready, FileOk, Zeroing, Stretched;
    ghost var g, v1 := GeoOf(vol.sb), vol.view;
    ghost var ok := FileOk(g, v, f, home) && f.size < n;
    r := Success;
    var cursor := node.size;
    while r == Success && cursor < n
      invariant vol.Ready() && f.size <= cursor <= n && (ok ==> r in {Success, OutOfMemory})
      invariant vol.granted ==> r != OutOfMemory
      invariant ok ==> Zeroing(g, v, f, home, n, v1, node.firstCluster, chain1, vol.view, cursor)
      decreases n - cursor, r == Success
    {
      if !ok { NotZeroing(g, v, f, home, n, v1, node.firstCluster, chain1, vol.view, cursor); }
      r, cursor := ZeroChunk(vol, node, v, f, home, n, v1, chain1, cursor);
    }
    if !ok {
      NotStretching(g, v, f, home, n, r, vol.view, node.firstCluster, chain1);
    } else if r == Success {
      ZeroDone(g, v, f, home, n, v1, node.firstCluster, chain1, vol.view);
    } else {
      ZeroFailed(g, v, f, home, n, v1, node.firstCluster, chain1, vol.view, cursor);
    }
  }

  /** The second branch of fat_truncate_vn. */
  method Grow(vol: Volume, node: FatNode, ghost f: File, ghost home: Home, n: u32)
      returns (r: Errno, ghost chain': seq<nat>)
    requires vol.Ready() && f.first == node.firstCluster && f.size == node.size < n
    modifies vol, node`firstCluster
    ensures vol.Ready() && (vol.granted ==> r != OutOfMemory)
    ensures Stretched(GeoOf(vol.sb), old(vol.view), f, home, n, r, vol.view, node.firstCluster, chain')
  {
    hide Volume.Ready, Zeroing, Ensured, Index, Stretched;
    GeoIsOk(vol);
    ghost var g, v := GeoOf(vol.sb), vol.view;
    var last;
    r, last, chain' := EnsureCluster(vol, node, Index(n - 1, vol.sb.ClusterSize()), f.chain);
    if r != Success {
      StretchFailed(g, v, f, home, n, Index(n - 1, g.cs), r, r, last, vol.view, node.firstCluster, chain');
      return;
    }
    var memory := vol.Malloc();
    if !memory {
      StretchFailed(g, v, f, home, n, Index(n - 1, g.cs), r, OutOfMemory, last, vol.view, node.firstCluster, chain');
      r := OutOfMemory;
      return;
    }
    ZeroStart(g, v, f, home, n, last, vol.view, node.firstCluster, chain');
    r := ClearTo(vol, node, v, f, home, n, chain');
  }
}
