/** Chains on a FAT volume: cluster allocation, chain freeing and extension, each proved against the abstract view. */
module FatFile {
  import opened Machine
  import opened FatLayout
  import opened FatChain
  import opened FatContent
  import opened FatVolume
  import Codec = FatCodec

  function GeoOf(sb: Super): Geo { Geo(sb.ty, sb.Limit(), sb.ClusterSize()) }

  lemma GeoIsOk(vol: Volume)
    requires vol.Ready()
    ensures GeoOf(vol.sb).Ok() && Sized(GeoOf(vol.sb), vol.view.data)
    ensures vol.sb.Limit() <= EocMarker(vol.sb.ty) && 0 < vol.sb.ClusterSize() <= 0x1_0000
  {
  }

  /** Distinct cluster numbers cannot outnumber the clusters. */
  lemma {:induction false} Pigeonhole(s: seq<nat>, n: nat)
    requires Distinct(s) && forall k :: 0 <= k < |s| ==> 2 <= s[k] < n + 2
    ensures |s| <= n
  {
    if s != [] {
      assert 2 <= s[0] < n + 2;
      if n + 1 in s {
        var k :| 0 <= k < |s| && s[k] == n + 1;
        Pigeonhole(s[..k] + s[k + 1..], n - 1);
      } else {
        Pigeonhole(s, n - 1);
      }
    }
  }

  lemma ChainBounded(g: Geo, t: seq<nat>, first: nat, chain: seq<nat>)
    requires g.Ok() && IsChain(g, t, first, chain)
    ensures |chain| <= g.limit - 2 && (first == 0 ==> chain == [])
  {
    Pigeonhole(chain, g.limit - 2);
  }

  /** What fat_next_cluster answers for a table entry: 0 stands for the end of the chain. */
  function NextOf(g: Geo, entry: nat): (Errno, nat) {
    if IsEoc(g.ty, entry) then (Success, 0) else if g.Cluster(entry) then (Success, entry) else (IoError, 0)
  }

  method NextCluster(vol: Volume, cluster: u32) returns (r: Errno, next: u32)
    requires vol.Ready()
    ensures (r, next) == if cluster < vol.sb.Limit() then NextOf(GeoOf(vol.sb), vol.view.table[cluster])
        else (InvalidArgument, 0)
    ensures r in {Success, InvalidArgument, IoError}
  {
    var value;
    r, value := vol.Get(cluster);
    next := 0;
    if r != Success { return; }
    if IsEoc(vol.sb.ty, value) { return; }
    if value < 2 || value >= vol.sb.Limit() { return IoError, next; }
    next := value;
  }

  ghost predicate NoneFree(g: Geo, t: seq<nat>) {
    |t| == g.limit && forall c: nat | g.Cluster(c) :: t[c] != 0
  }

  ghost function FreeSet(g: Geo, v: View): set<nat>
    requires |v.table| == g.limit
  {
    set c: nat | c < g.limit && g.Cluster(c) && v.table[c] == 0
  }

  ghost function Members(s: seq<nat>): set<nat> { set c | c in s }

  lemma {:induction false} MembersCount(s: seq<nat>)
    requires Distinct(s)
    ensures |Members(s)| == |s|
  {
    if s != [] {
      var t := s[..|s| - 1];
      MembersCount(t);
      assert s == t + [s[|s| - 1]];
      assert Members(s) == Members(t) + {s[|s| - 1]};
    }
  }

  lemma FewerMembers(a: set<nat>, b: set<nat>)
    requires a <= b
    ensures |a| <= |b|
  {
    assert b == a + (b - a);
  }

  /** A free cluster taken: zeroed, and marked as the end of a chain. */
  ghost function Taken(g: Geo, v: View, c: nat): View
    requires |v.table| == |v.data| == g.limit && g.Cluster(c)
  {
    UpdateTable(UpdateData(v, c, Zeros(g.cs)), c, EocMarker(g.ty))
  }

  /** fat_alloc_cluster: the lowest free cluster, zeroed and marked as the end of a chain. */
  method AllocCluster(vol: Volume) returns (r: Errno, out: u32)
    requires vol.Ready()
    modifies vol
    ensures vol.Ready()
    ensures r in {Success, NoSpaceLeft, OutOfMemory} && (vol.granted ==> r != OutOfMemory)
    ensures r != Success ==> vol.view == old(vol.view)
    ensures r == NoSpaceLeft ==> NoneFree(GeoOf(vol.sb), vol.view.table)
    ensures r == Success ==>
      && vol.sb.ValidCluster(out) && old(vol.view).table[out] == 0
      && (forall c: nat | 2 <= c < out :: old(vol.view).table[c] != 0)
      && vol.view == Taken(GeoOf(vol.sb), old(vol.view), out)
  {
    hide Volume.Ready, Geo.Ok;
    GeoIsOk(vol);
    out := 0;
    var memory := vol.Malloc();
    if !memory { return OutOfMemory, out; }
    var zero := Zeros(vol.sb.ClusterSize());
    var cluster: u32 := 2;
    while cluster < vol.sb.Limit()
      invariant vol.Ready() && vol.view == old(vol.view) && 2 <= cluster
      invariant forall c: nat | 2 <= c < cluster && c < vol.sb.Limit() :: vol.view.table[c] != 0
    {
      var _, value := vol.Get(cluster);
      if value == 0 {
        vol.Put(cluster, zero);
        vol.Set(cluster, EocMarker(vol.sb.ty));
        return Success, cluster;
      }
      cluster := cluster + 1;
    }
    return NoSpaceLeft, out;
  }

  /** The step fat_ensure_cluster and fat_find_free_slot share: allocate, then link behind the last cluster. */
  method AllocAfter(vol: Volume, last: u32) returns (r: Errno, out: u32)
    requires vol.Ready() && last < vol.sb.Limit()
    modifies vol
    ensures vol.Ready()
    ensures r in {Success, NoSpaceLeft, OutOfMemory} && (vol.granted ==> r != OutOfMemory)
    ensures r != Success ==> vol.view == old(vol.view)
    ensures r == NoSpaceLeft ==> NoneFree(GeoOf(vol.sb), vol.view.table)
    ensures r == Success ==>
      && vol.sb.ValidCluster(out) && old(vol.view).table[out] == 0
      && vol.view == UpdateTable(Taken(GeoOf(vol.sb), old(vol.view), out), last, out)
  {
    hide Volume.Ready, Geo.Ok, NoneFree;
    GeoIsOk(vol);
    r, out := AllocCluster(vol);
    if r != Success { return; }
    vol.Set(last, out);
  }

  /** Entries changed only by becoming free. */
  ghost predicate OnlyFreed(t: seq<nat>, t': seq<nat>) {
    |t'| == |t| && forall c :: 0 <= c < |t| ==> t'[c] == t[c] || t'[c] == 0
  }

  /** Half-way through freeing: the rest of the chain starts at cluster, what came before is free already. */
  ghost predicate Freeing(g: Geo, t: seq<nat>, chain: seq<nat>, t': seq<nat>, cluster: nat, rest: seq<nat>) {
    var halfWay := IsChain(g, t', cluster, rest) && Cleared(t', rest) == Cleared(t, chain);
    halfWay
  }

  lemma FreeStart(g: Geo, t: seq<nat>, first: nat, chain: seq<nat>)
    requires g.Ok() && IsChain(g, t, first, chain)
    ensures Freeing(g, t, chain, t, first, chain) && |chain| <= g.limit - 2
  {
    ChainBounded(g, t, first, chain);
  }

  lemma FreeStep(g: Geo, t: seq<nat>, chain: seq<nat>, t': seq<nat>, cluster: nat, rest: seq<nat>)
    requires g.Ok() && Freeing(g, t, chain, t', cluster, rest) && cluster != 0
    ensures rest != [] && cluster < |t'|
    ensures NextOf(g, t'[cluster]).0 == Success
    ensures Freeing(g, t, chain, t'[cluster := 0], NextOf(g, t'[cluster]).1, rest[1..])
  {
    HeadCleared(g, t', cluster, rest);
    NextInChain(g, t', cluster, rest, 0);
  }

  lemma FreeDone(g: Geo, t: seq<nat>, chain: seq<nat>, t': seq<nat>, cluster: nat, rest: seq<nat>)
    requires g.Ok() && Freeing(g, t, chain, t', cluster, rest)
    ensures cluster == 0 <==> rest == []
    ensures rest == [] ==> t' == Cleared(t, chain)
  {
    ChainBounded(g, t', cluster, rest);
    if rest == [] {
      assert Cleared(t', []) == t';
    }
  }

  /** fat_free_chain: on a chain, exactly its clusters become free; on any table, entries only become free. */
  method FreeChain(vol: Volume, first: u32, ghost chain: seq<nat>) returns (r: Errno)
    requires vol.Ready()
    modifies vol
    ensures vol.Ready()
    ensures vol.view == old(vol.view).(table := vol.view.table) && r != OutOfMemory
    ensures OnlyFreed(old(vol.view).table, vol.view.table)
    ensures IsChain(GeoOf(vol.sb), old(vol.view).table, first, chain) ==>
      r == Success && vol.view.table == Cleared(old(vol.view).table, chain)
  {
    hide Volume.Ready, Geo.Ok, Freeing, IsChain, Cleared, NextOf;
    GeoIsOk(vol);
    ghost var g := GeoOf(vol.sb);
    ghost var t := vol.view.table;
    ghost var rest := chain;
    ghost var ok := IsChain(g, t, first, chain);
    if ok { FreeStart(g, t, first, chain); }
    var cluster, visited := first, 0;
    while cluster != 0 && visited < vol.sb.clusterCount
      invariant vol.Ready() && vol.view == old(vol.view).(table := vol.view.table)
      invariant OnlyFreed(t, vol.view.table)
      invariant ok ==> Freeing(g, t, chain, vol.view.table, cluster, rest) && visited + |rest| == |chain|
      invariant visited <= vol.sb.clusterCount
      decreases vol.sb.clusterCount - visited
    {
      if ok {
        FreeStep(g, t, chain, vol.view.table, cluster, rest);
        rest := rest[1..];
      }
      var next;
      r, next := NextCluster(vol, cluster);
      if r != Success { return; }
      vol.Set(cluster, 0);
      cluster := next;
      visited := visited + 1;
    }
    r := if cluster != 0 then IoError else Success;
    if ok { FreeDone(g, t, chain, vol.view.table, cluster, rest); }
  }

  /** The in-memory node of a file. */
  class FatNode {
    var firstCluster: u32
    var size: u32
    var dirSector: u32
    var dirOffset: u16
    var hasDirent: bool

    constructor (firstCluster: u32, size: u32, dirSector: u32, dirOffset: u16)
      ensures this.firstCluster == firstCluster && this.size == size
      ensures this.dirSector == dirSector && this.dirOffset == dirOffset && hasDirent
    {
      this.firstCluster, this.size := firstCluster, size;
      this.dirSector, this.dirOffset, hasDirent := dirSector, dirOffset, true;
    }
  }

  /**
   The chain grew by clusters that were free, now zeroed; entries and bytes of all other clusters,
   and the root directory, are as before.
   */
  ghost predicate Grown(g: Geo, v: View, v': View, chain: seq<nat>, chain': seq<nat>)
    requires |v.table| == |v'.table| == |v.data| == |v'.data| == g.limit
  {
    && chain <= chain' && v'.root == v.root
    && (forall k :: |chain| <= k < |chain'| ==>
          g.Cluster(chain'[k]) && v.table[chain'[k]] == 0 && v'.data[chain'[k]] == Zeros(g.cs))
    && (forall c: nat | c < g.limit && c !in chain' :: v'.table[c] == v.table[c])
    && (forall c: nat | c < g.limit && c !in chain'[|chain|..] :: v'.data[c] == v.data[c])
  }

  /** A node's chain after extension: a chain of the new table that grew out of the old one. */
  ghost predicate Extended(g: Geo, v: View, chain: seq<nat>, v': View, first': nat, chain': seq<nat>) {
    var extended := |v.table| == |v'.table| == |v.data| == |v'.data| == g.limit
      && IsChain(g, v'.table, first', chain') && Grown(g, v, v', chain, chain');
    extended
  }

  /** The free clusters are enough for a chain to hold n bytes. */
  ghost predicate Room(g: Geo, v: View, chain: seq<nat>, n: nat) {
    n == 0 || g.cs == 0 || (|v.table| == g.limit && Index(n - 1, g.cs) < |chain| + |FreeSet(g, v)|)
  }

  /** An extension takes free clusters, and all of them once none is left. */
  lemma ExtendedCount(g: Geo, v: View, first: nat, chain: seq<nat>, v': View, first': nat, chain': seq<nat>)
    requires g.Ok() && IsChain(g, v.table, first, chain) && Extended(g, v, chain, v', first', chain')
    ensures |chain'| <= |chain| + |FreeSet(g, v)|
    ensures NoneFree(g, v'.table) ==> |chain'| == |chain| + |FreeSet(g, v)|
  {
    var tail := chain'[|chain|..];
    assert Distinct(tail);
    MembersCount(tail);
    FewerMembers(Members(tail), FreeSet(g, v));
    if NoneFree(g, v'.table) {
      forall c | c in FreeSet(g, v) ensures c in tail {
        if c in chain { MembersInUse(g, v.table, first, chain, c); }
      }
      FewerMembers(FreeSet(g, v), Members(tail));
    }
  }

  lemma NotYetExtended(g: Geo, v: View, first: nat, chain: seq<nat>)
    requires |v.table| == |v.data| == g.limit && IsChain(g, v.table, first, chain)
    ensures Extended(g, v, chain, v, first, chain) && (first == 0 <==> chain == [])
    ensures first != 0 ==> first == chain[0]
  {
  }

  /** Taking one more free cluster c and linking it behind the chain. */
  ghost function Linked1(g: Geo, v: View, chain: seq<nat>, c: nat): (r: View)
    requires |v.table| == |v.data| == g.limit && g.Cluster(c)
    requires chain != [] ==> chain[|chain| - 1] < g.limit
    ensures |r.table| == |r.data| == g.limit
  {
    if chain == [] then Taken(g, v, c) else UpdateTable(Taken(g, v, c), chain[|chain| - 1], c)
  }

  lemma NewIsChain(g: Geo, v: View, first: nat, cur: seq<nat>, c: nat)
    requires |v.table| == |v.data| == g.limit && g.Ok() && IsChain(g, v.table, first, cur)
    requires g.Cluster(c) && v.table[c] == 0
    ensures c !in cur
    ensures IsChain(g, Linked1(g, v, cur, c).table, if cur == [] then c else first, cur + [c])
  {
    assert IsEoc(g.ty, EocMarker(g.ty));
    if cur == [] {
      ChainStarted(g, v.table, c, EocMarker(g.ty));
    } else {
      ChainExtended(g, v.table, first, cur, c, EocMarker(g.ty));
    }
  }

  lemma GrowFrame(g: Geo, v0: View, v: View, chain: seq<nat>, cur: seq<nat>, c: nat)
    requires |v0.table| == |v.table| == |v0.data| == |v.data| == g.limit
    requires Grown(g, v0, v, chain, cur) && g.Cluster(c) && v.table[c] == 0 && c !in cur
    requires cur != [] ==> cur[|cur| - 1] < g.limit
    ensures Grown(g, v0, Linked1(g, v, cur, c), chain, cur + [c])
  {
    var s := cur + [c];
    assert s[|chain|..] == cur[|chain|..] + [c];
  }

  /** One more free cluster behind the chain, or as its first. */
  lemma GrowStep(g: Geo, v0: View, chain: seq<nat>, v: View, first: nat, cur: seq<nat>, c: nat)
    requires g.Ok() && Extended(g, v0, chain, v, first, cur) && g.Cluster(c) && v.table[c] == 0
    ensures cur != [] ==> cur[|cur| - 1] < g.limit
    ensures Extended(g, v0, chain, Linked1(g, v, cur, c), if cur == [] then c else first, cur + [c])
  {
    NewIsChain(g, v, first, cur, c);
    GrowFrame(g, v0, v, chain, cur, c);
  }

  /** What fat_ensure_cluster leaves behind, if it started from a chain. */
  ghost predicate Ensured(g: Geo, v0: View, first0: nat, chain: seq<nat>, index: nat,
                          r: Errno, out: nat, v: View, first: nat, cur: seq<nat>)
  {
    var ensured := IsChain(g, v0.table, first0, chain) ==>
      && r in {Success, NoSpaceLeft, OutOfMemory}
      && Extended(g, v0, chain, v, first, cur)
      && |cur| <= Max(|chain|, index + 1)
      && (cur == chain ==> v == v0 && first == first0)
      && (index < |chain| ==> r == Success)
      && (r == Success ==> |cur| == Max(|chain|, index + 1) && out == cur[index])
      && (r == NoSpaceLeft ==> |cur| <= index && NoneFree(g, v.table));
    ensured
  }

  /** The loop of fat_ensure_cluster: cluster is the i-th of the chain, which grew no further than that. */
  ghost predicate Walking(g: Geo, v0: View, first0: nat, chain: seq<nat>, v: View, first: nat, cur: seq<nat>, i: nat,
      cluster: nat) {
    var walking := IsChain(g, v0.table, first0, chain) ==>
      && Extended(g, v0, chain, v, first, cur) && i < |cur| <= Max(|chain|, i + 1) && cluster == cur[i]
      && (cur == chain ==> v == v0 && first == first0);
    walking
  }

  lemma WalkStart(g: Geo, v: View, first: nat, chain: seq<nat>)
    requires |v.table| == |v.data| == g.limit && first != 0
    ensures Walking(g, v, first, chain, v, first, chain, 0, first)
  {
    if IsChain(g, v.table, first, chain) { NotYetExtended(g, v, first, chain); }
  }

  lemma WalkStartNew(g: Geo, v: View, chain: seq<nat>, c: nat)
    requires |v.table| == |v.data| == g.limit && g.Ok() && g.Cluster(c) && v.table[c] == 0
    ensures Walking(g, v, 0, chain, Taken(g, v, c), c, chain + [c], 0, c)
  {
    if IsChain(g, v.table, 0, chain) {
      NotYetExtended(g, v, 0, chain);
      GrowStep(g, v, chain, v, 0, chain, c);
    }
  }

  lemma WalkDone(g: Geo, v0: View, first0: nat, chain: seq<nat>, v: View, first: nat, cur: seq<nat>, i: nat,
      cluster: nat)
    requires Walking(g, v0, first0, chain, v, first, cur, i, cluster)
    ensures Ensured(g, v0, first0, chain, i, Success, cluster, v, first, cur)
  {
  }

  lemma NothingEnsured(g: Geo, v: View, chain: seq<nat>, index: nat, r: Errno)
    requires |v.table| == |v.data| == g.limit && r in {NoSpaceLeft, OutOfMemory}
    requires r == NoSpaceLeft ==> NoneFree(g, v.table)
    ensures Ensured(g, v, 0, chain, index, r, 0, v, 0, chain)
  {
    if IsChain(g, v.table, 0, chain) { NotYetExtended(g, v, 0, chain); }
  }

  /** The chain's own table never gives fat_next_cluster an error. */
  lemma WalkNext(g: Geo, v0: View, first0: nat, chain: seq<nat>, v: View, first: nat, cur: seq<nat>, i: nat,
      cluster: nat)
    requires g.Ok() && |v.table| == g.limit && Walking(g, v0, first0, chain, v, first, cur, i, cluster)
    ensures IsChain(g, v0.table, first0, chain) ==>
      cluster < g.limit && NextOf(g, v.table[cluster]) == (Success, if i + 1 < |cur| then cur[i + 1] else 0)
    ensures cluster < g.limit && NextOf(g, v.table[cluster]).1 != 0 ==>
      Walking(g, v0, first0, chain, v, first, cur, i + 1, NextOf(g, v.table[cluster]).1)
  {
    if IsChain(g, v0.table, first0, chain) { NextInChain(g, v.table, first, cur, i); }
  }

  lemma WalkExtend(g: Geo, v0: View, first0: nat, chain: seq<nat>, v: View, first: nat, cur: seq<nat>, i: nat,
      cluster: nat, c: nat)
    requires g.Ok() && |v.table| == |v.data| == g.limit && Walking(g, v0, first0, chain, v, first, cur, i, cluster)
    requires cluster < g.limit && NextOf(g, v.table[cluster]) == (Success, 0)
    requires g.Cluster(c) && v.table[c] == 0
    ensures Walking(g, v0, first0, chain, UpdateTable(Taken(g, v, c), cluster, c), first, cur + [c], i + 1, c)
  {
    WalkNext(g, v0, first0, chain, v, first, cur, i, cluster);
    if IsChain(g, v0.table, first0, chain) {
      assert i + 1 == |cur| by { if i + 1 < |cur| { NextInChain(g, v.table, first, cur, i); } }
      GrowStep(g, v0, chain, v, first, cur, c);
    }
  }

  lemma WalkFailed(g: Geo, v0: View, first0: nat, chain: seq<nat>, index: nat, r: Errno, v: View, first: nat,
      cur: seq<nat>, i: nat, cluster: nat)
    requires g.Ok() && |v.table| == |v.data| == g.limit && Walking(g, v0, first0, chain, v, first, cur, i, cluster)
    requires i < index && r != Success
    requires cluster < g.limit ==>
      NextOf(g, v.table[cluster]).0 == r ||
      (NextOf(g, v.table[cluster]) == (Success, 0) && r in {NoSpaceLeft, OutOfMemory}
          && (r == NoSpaceLeft ==> NoneFree(g, v.table)))
    ensures Ensured(g, v0, first0, chain, index, r, 0, v, first, cur)
  {
    WalkNext(g, v0, first0, chain, v, first, cur, i, cluster);
    if IsChain(g, v0.table, first0, chain) && i + 1 < |cur| { NextInChain(g, v.table, first, cur, i); }
  }

  /** Asking for a cluster the chain already has changes nothing. */
  lemma EnsuredInside(g: Geo, v: View, first: nat, chain: seq<nat>, index: nat, r: Errno, out: nat, v': View,
      first': nat, chain': seq<nat>)
    requires Ensured(g, v, first, chain, index, r, out, v', first', chain')
    requires IsChain(g, v.table, first, chain) && index < |chain|
    ensures r == Success && v' == v && first' == first && chain' == chain && out == chain[index]
  {
  }

  /**
   fat_ensure_cluster: the index-th cluster of the file, extending the chain as far as needed. On
   failure the chain keeps what was added; it fails for lack of space only once no cluster is free.
   */
  method EnsureCluster(vol: Volume, node: FatNode, index: u32, ghost chain: seq<nat>)
    returns (r: Errno, out: u32, ghost chain': seq<nat>)
    requires vol.Ready()
    modifies vol, node`firstCluster
    ensures vol.Ready()
    ensures vol.granted ==> r != OutOfMemory
    ensures Ensured(GeoOf(vol.sb), old(vol.view), old(node.firstCluster), chain, index,
                    r, out, vol.view, node.firstCluster, chain')
  {
    hide Volume.Ready, Geo.Ok, Walking, NextOf, NoneFree, Ensured;
    GeoIsOk(vol);
    ghost var g, v0, first0 := GeoOf(vol.sb), vol.view, node.firstCluster;
    chain', out := chain, 0;
    var cluster := node.firstCluster;
    if cluster == 0 {
      r, cluster := AllocCluster(vol);
      if r != Success {
        NothingEnsured(g, v0, chain, index, r);
        return;
      }
      WalkStartNew(g, v0, chain, cluster);
      chain' := chain + [cluster];
      node.firstCluster := cluster;
    } else {
      WalkStart(g, v0, first0, chain);
    }
    var i: u32 := 0;
    while i < index
      invariant vol.Ready() && 0 <= i <= index
      invariant Walking(g, v0, first0, chain, vol.view, node.firstCluster, chain', i, cluster)
    {
      ghost var v := vol.view;
      WalkNext(g, v0, first0, chain, v, node.firstCluster, chain', i, cluster);
      var next;
      r, next := NextCluster(vol, cluster);
      if r != Success {
        WalkFailed(g, v0, first0, chain, index, r, v, node.firstCluster, chain', i, cluster);
        return;
      }
      if next == 0 {
        r, next := AllocAfter(vol, cluster);
        if r != Success {
          WalkFailed(g, v0, first0, chain, index, r, v, node.firstCluster, chain', i, cluster);
          return;
        }
        WalkExtend(g, v0, first0, chain, v, node.firstCluster, chain', i, cluster, next);
        chain' := chain' + [next];
      }
      cluster := next;
      i := i + 1;
    }
    WalkDone(g, v0, first0, chain, vol.view, node.firstCluster, chain', index, cluster);
    r, out := Success, cluster;
  }
}
