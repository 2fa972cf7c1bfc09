/**
 What one file operation may do to the volume (FileStep), and the building blocks of truncate and write:
 cutting a chain, patching its bytes, and recording first cluster and size in the directory entry.
 */
module FatStep {
  import opened Machine
  import opened FatLayout
  import opened FatChain
  import opened FatContent
  import opened FatVolume
  import opened FatFile

  const SLOT: nat := 32

  /** A file as its node describes it, together with the chain that starts at its first cluster. */
  datatype File = File(first: nat, size: nat, chain: seq<nat>)

  /** Where the file's directory entry is kept, if it has one. */
  datatype Home = Nowhere | At(spot: Spot)

  /** The entry lies inside the root directory, or in a cluster in use that is not the file's own. */
  ghost predicate HomeOk(g: Geo, v: View, home: Home, chain: seq<nat>) {
    match home
    case Nowhere => true
    case At(InRoot(at)) => at + SLOT <= |v.root|
    case At(InCluster(c, at)) =>
          g.Cluster(c) && |v.table| == g.limit && c !in chain && v.table[c] != 0 && at + SLOT <= g.cs
  }

  ghost predicate Shaped(g: Geo, v: View) {
    g.Ok() && |v.table| == g.limit && Sized(g, v.data)
  }

  ghost predicate FileOk(g: Geo, v: View, f: File, home: Home) {
    && Shaped(g, v) && IsChain(g, v.table, f.first, f.chain)
    && f.size <= |Bytes(g, v.data, f.chain)| && f.size < U32
    && HomeOk(g, v, home, f.chain)
  }

  lemma FileHasChain(g: Geo, v: View, f: File, home: Home)
    requires FileOk(g, v, f, home)
    ensures IsChain(g, v.table, f.first, f.chain)
  {
  }

  ghost function Content(g: Geo, v: View, f: File): (s: seq<byte>)
    requires Sized(g, v.data) && InRange(g, f.chain) && f.size <= |Bytes(g, v.data, f.chain)|
    ensures |s| == f.size
  {
    Bytes(g, v.data, f.chain)[..f.size]
  }

  /** Cut off at n, or padded with zeros up to n. */
  function Resized(s: seq<byte>, n: nat): (r: seq<byte>)
    ensures |r| == n
  {
    if n <= |s| then s[..n] else s + Zeros(n - |s|)
  }

  /**
   One operation on file f: its new chain is a chain; clusters it gained were free, clusters it lost are
   free; no other entry changed; and outside its clusters only its directory entry's bytes changed.
   */
  ghost predicate FileStep(g: Geo, v: View, f: File, v': View, f': File, home: Home) {
    && Shaped(g, v) && FileOk(g, v', f', home)
    && (forall c: nat | c < g.limit && c !in f.chain && c !in f'.chain :: v'.table[c] == v.table[c])
    && (forall c :: c in f'.chain && c !in f.chain ==> c < g.limit && v.table[c] == 0)
    && (forall c :: c in f.chain && c !in f'.chain ==> c < g.limit && v'.table[c] == 0)
    && SlotOnly(g, v, v', f.chain + f'.chain, home)
  }

  /** Outside the given clusters, only the 32 bytes of the directory entry changed. */
  ghost predicate SlotOnly(g: Geo, v: View, v': View, chain: seq<nat>, home: Home) {
    && |v.data| == |v'.data| == g.limit && |v.root| == |v'.root|
    && (forall c: nat | c < g.limit && c !in chain
        && !(home.At? && home.spot.InCluster? && c == home.spot.c) :: v'.data[c] == v.data[c])
    && (home.At? && home.spot.InCluster? ==>
          var c, at := home.spot.c, home.spot.at;
          && c < g.limit && |v'.data[c]| == |v.data[c]|
          && (c !in chain ==>
                forall k :: 0 <= k < |v.data[c]| && !(at <= k < at + SLOT) ==> v'.data[c][k] == v.data[c][k]))
    && (forall k :: 0 <= k < |v.root| && !(home.At? && home.spot.InRoot? && home.spot.at <= k < home.spot.at + SLOT) ==>
          v'.root[k] == v.root[k])
  }

  /** The directory entry's bytes with first cluster and size written in. */
  function WithExtent(slot: seq<byte>, first: u32, size: u32): (r: seq<byte>)
    requires |slot| == SLOT
    ensures |r| == SLOT
  {
    Splice(Splice(slot, 20, Bytes16(first / 0x1_0000)), 26, Bytes16(first % 0x1_0000) + Bytes32(size))
  }

  function FirstOf(slot: seq<byte>): u32
    requires |slot| == SLOT
  {
    Le16(slot, 20) as int * 0x1_0000 + Le16(slot, 26) as int
  }

  function SizeOf(slot: seq<byte>): u32
    requires |slot| == SLOT
  {
    Le32(slot, 28)
  }

  lemma LeOfParts(p: seq<byte>, a: seq<byte>, b: seq<byte>)
    requires |a| == 2 && |b| == 4 && p == a + b
    ensures Le16(p, 0) == Le16(a, 0) && Le32(p, 2) == Le32(b, 0)
  {
  }

  /** The extent written to an entry reads back; the entry's name and other fields keep their bytes. */
  lemma ExtentReadsBack(slot: seq<byte>, first: u32, size: u32)
    requires |slot| == SLOT
    ensures FirstOf(WithExtent(slot, first, size)) == first
    ensures SizeOf(WithExtent(slot, first, size)) == size
    ensures WithExtent(slot, first, size)[..20] == slot[..20]
    ensures WithExtent(slot, first, size)[22..26] == slot[22..26]
  {
    var hi, lo := Bytes16(first / 0x1_0000), Bytes16(first % 0x1_0000) + Bytes32(size);
    var r := WithExtent(slot, first, size);
    LeOfParts(lo, Bytes16(first % 0x1_0000), Bytes32(size));
    assert r[20] == hi[0] && r[21] == hi[1];
    assert r[26] == lo[0] && r[27] == lo[1];
    assert r[28] == lo[2] && r[29] == lo[3] && r[30] == lo[4] && r[31] == lo[5];
    assert first == first / 0x1_0000 * 0x1_0000 + first % 0x1_0000;
  }

  /** The view after fat_update_dirent. */
  function Recorded(v: View, home: Home, first: u32, size: u32): (r: View)
    requires home.At? ==> Holds(v, home.spot, SLOT)
    ensures r.table == v.table && |r.data| == |v.data|
  {
    match home
    case Nowhere => v
    case At(spot) => Poke(v, spot, WithExtent(Peek(v, spot, SLOT), first, size))
  }

  /** Shrinking to nothing: the whole chain is freed. */
  lemma CutToNothing(g: Geo, v: View, f: File, home: Home)
    requires FileOk(g, v, f, home)
    ensures FileStep(g, v, f, v.(table := Cleared(v.table, f.chain)), File(0, 0, []), home)
  {
    assert f.chain + [] == f.chain;
  }

  /** The clusters n bytes need are a non-empty prefix of the chain. */
  lemma KeepCount(g: Geo, v: View, f: File, home: Home, n: nat)
    requires FileOk(g, v, f, home) && 0 < n <= f.size
    ensures (n - 1) / g.cs < |f.chain| && (n + g.cs - 1) / g.cs == (n - 1) / g.cs + 1
    ensures n <= |Bytes(g, v.data, f.chain[..(n - 1) / g.cs + 1])|
  {
    BytesLength(g, v.data, f.chain);
    ClustersFor(n, g.cs, |f.chain|);
    BytesLength(g, v.data, f.chain[..(n - 1) / g.cs + 1]);
    ClustersFor(n, g.cs, (n - 1) / g.cs + 1);
  }

  ghost function Cut(g: Geo, v: View, chain: seq<nat>, k: nat): View
    requires 0 < k <= |chain| && chain[k - 1] < |v.table|
  {
    v.(table := Cleared(v.table[chain[k - 1] := EocMarker(g.ty)], chain[k..]))
  }

  lemma CutFrame(g: Geo, v: View, f: File, home: Home, k: nat, n: nat)
    requires FileOk(g, v, f, home) && 0 < k <= |f.chain| && n <= |Bytes(g, v.data, f.chain[..k])| && n < U32
    ensures FileStep(g, v, f, Cut(g, v, f.chain, k), File(f.first, n, f.chain[..k]), home)
  {
    ChainCut(g, v.table, f.first, f.chain, k, EocMarker(g.ty));
    var keep, gone := f.chain[..k], f.chain[k..];
    assert f.chain == keep + gone;
    var v' := Cut(g, v, f.chain, k);
    forall c: nat | c < g.limit && c !in f.chain && c !in keep ensures v'.table[c] == v.table[c] {
    }
    assert forall c :: c in f.chain + keep <==> c in f.chain;
  }

  /** Shrinking keeps the bytes in front of the new end. */
  lemma CutContent(g: Geo, v: View, f: File, home: Home, k: nat, n: nat)
    requires FileOk(g, v, f, home) && 0 < k <= |f.chain| && n <= f.size && n <= |Bytes(g, v.data, f.chain[..k])|
    ensures Bytes(g, v.data, f.chain[..k])[..n] == Content(g, v, f)[..n]
  {
    BytesPrefix(g, v.data, f.chain, k);
    var a, b := Bytes(g, v.data, f.chain[..k]), Bytes(g, v.data, f.chain);
    PrefixTaken(a, b, n);
    PrefixTaken(b[..f.size], b, n);
  }

  /** Extending the chain is a step of the file that leaves its content alone. */
  lemma ExtendFrame(g: Geo, v: View, f: File, home: Home, v': View, first': nat, chain': seq<nat>)
    requires FileOk(g, v, f, home) && Extended(g, v, f.chain, v', first', chain')
    ensures forall c :: c in f.chain ==> c in chain'
    ensures forall c :: c in chain' && c !in f.chain ==> c < g.limit && v.table[c] == 0 && v'.data[c] == Zeros(g.cs)
    ensures HomeOk(g, v', home, chain') && Sized(g, v'.data)
  {
    hide IsChain, Bytes;
    assert chain' == f.chain + chain'[|f.chain|..];
    forall c: nat | g.Cluster(c) ensures |v'.data[c]| == g.cs {
      if c in chain'[|f.chain|..] {
        assert c in chain';
      }
    }
  }

  lemma ExtendContent(g: Geo, v: View, f: File, home: Home, v': View, first': nat, chain': seq<nat>)
    requires FileOk(g, v, f, home) && Extended(g, v, f.chain, v', first', chain')
    ensures Sized(g, v'.data) && Bytes(g, v.data, f.chain) <= Bytes(g, v'.data, chain')
  {
    ExtendFrame(g, v, f, home, v', first', chain');
    OldDataKept(g, v, f, v', first', chain');
    BytesFramed(g, v.data, v'.data, f.chain);
    BytesPrefix(g, v'.data, chain', |f.chain|);
    assert chain'[..|f.chain|] == f.chain;
  }

  lemma OldDataKept(g: Geo, v: View, f: File, v': View, first': nat, chain': seq<nat>)
    requires g.Ok() && IsChain(g, v.table, f.first, f.chain) && Extended(g, v, f.chain, v', first', chain')
    ensures forall c :: c in f.chain ==> c < g.limit && v'.data[c] == v.data[c]
  {
    forall c | c in f.chain ensures c < g.limit && v'.data[c] == v.data[c] {
      MembersInUse(g, v.table, f.first, f.chain, c);
      assert c !in chain'[|f.chain|..];
    }
  }

  lemma ExtendStep(g: Geo, v: View, f: File, home: Home, v': View, first': nat, chain': seq<nat>)
    requires FileOk(g, v, f, home) && Extended(g, v, f.chain, v', first', chain')
    ensures FileStep(g, v, f, v', File(first', f.size, chain'), home)
    ensures Content(g, v', File(first', f.size, chain')) == Content(g, v, f)
  {
    ExtendFrame(g, v, f, home, v', first', chain');
    ExtendContent(g, v, f, home, v', first', chain');
    assert forall c :: c in f.chain + chain' <==> c in chain';
    forall c: nat | c < g.limit && c !in chain' ensures v'.data[c] == v.data[c] {
      assert c !in chain'[|f.chain|..];
    }
  }

  /** The chain's bytes have p spliced in at a position; nothing outside the chain's clusters moved. */
  ghost predicate Patched(g: Geo, v: View, chain: seq<nat>, v': View, at: nat, p: seq<byte>) {
    var patched := Shaped(g, v) && Shaped(g, v') && InRange(g, chain) && Distinct(chain)
      && v'.table == v.table && v'.root == v.root
      && (forall c: nat | c < g.limit && c !in chain :: v'.data[c] == v.data[c])
      && at + |p| <= |Bytes(g, v.data, chain)|
      && Bytes(g, v'.data, chain) == Splice(Bytes(g, v.data, chain), at, p);
    patched
  }

  lemma NotYetPatched(g: Geo, v: View, first: nat, chain: seq<nat>, at: nat)
    requires Shaped(g, v) && IsChain(g, v.table, first, chain) && at <= |Bytes(g, v.data, chain)|
    ensures Patched(g, v, chain, v, at, [])
  {
    assert Splice(Bytes(g, v.data, chain), at, []) == Bytes(g, v.data, chain);
  }

  /** One turn of the zeroing and writing loops: the cluster at the cursor gets the next bytes. */
  lemma PatchedMore(g: Geo, v: View, chain: seq<nat>, v': View, at: nat, p: seq<byte>, i: nat, o: nat, q: seq<byte>)
    requires 0 < g.cs && Patched(g, v, chain, v', at, p) && i == Index(at + |p|, g.cs) && o == Offset(at + |p|, g.cs)
    requires 0 < |q| && at + |p| + |q| <= |Bytes(g, v.data, chain)| && o + |q| <= g.cs
    ensures i < |chain| && g.Cluster(chain[i]) && |v'.data[chain[i]]| == g.cs
    ensures Patched(g, v, chain, UpdateData(v', chain[i], Splice(v'.data[chain[i]], o, q)), at, p + q)
  {
    Patch(g, v'.data, chain, at + |p|, q);
    SpliceAdjacent(Bytes(g, v.data, chain), at, p, q);
    PatchedTo(g, v, chain, v', at, p, chain[i], Splice(v'.data[chain[i]], o, q), p + q);
  }

  lemma PatchedTo(g: Geo, v: View, chain: seq<nat>, v': View, at: nat, p: seq<byte>, c: nat, buf: seq<byte>,
      pq: seq<byte>)
    requires Patched(g, v, chain, v', at, p) && c in chain && |buf| == g.cs && at + |pq| <= |Bytes(g, v.data, chain)|
    requires Bytes(g, v'.data[c := buf], chain) == Splice(Bytes(g, v.data, chain), at, pq)
    ensures Patched(g, v, chain, UpdateData(v', c, buf), at, pq)
  {
  }

  /** Patching the file's own bytes is a step of the file, whatever size it claims up to its capacity. */
  lemma PatchStep(g: Geo, v: View, f: File, v1: View, f1: File, home: Home, v2: View, at: nat, p: seq<byte>, n: nat)
    requires FileStep(g, v, f, v1, f1, home) && Patched(g, v1, f1.chain, v2, at, p)
    requires n <= |Bytes(g, v2.data, f1.chain)| && n < U32
    ensures FileStep(g, v, f, v2, f1.(size := n), home)
    ensures Content(g, v2, f1.(size := n)) == Splice(Bytes(g, v1.data, f1.chain), at, p)[..n]
  {
    assert forall c :: c in f1.chain ==> c in f.chain + f1.chain;
    HomeKept(g, v1, v2, home, f1.chain);
    SlotOnlyPatched(g, v, v1, v2, f.chain + f1.chain, f1.chain, home);
  }

  lemma HomeKept(g: Geo, v: View, v': View, home: Home, chain: seq<nat>)
    requires HomeOk(g, v, home, chain) && v'.table == v.table && |v'.root| == |v.root|
    ensures HomeOk(g, v', home, chain)
  {
  }

  lemma SlotOnlyPatched(g: Geo, v: View, v1: View, v2: View, all: seq<nat>, chain: seq<nat>, home: Home)
    requires SlotOnly(g, v, v1, all, home) && (forall c :: c in chain ==> c in all)
    requires |v2.data| == g.limit && v2.root == v1.root
    requires forall c: nat | c < g.limit && c !in chain :: v2.data[c] == v1.data[c]
    requires forall c: nat | c < g.limit :: |v2.data[c]| == |v1.data[c]|
    ensures SlotOnly(g, v, v2, all, home)
  {
  }

  /** Recording the extent touches nothing but the entry's 32 bytes. */
  lemma RecordData(g: Geo, v: View, home: Home, chain: seq<nat>, first: u32, size: u32)
    requires Shaped(g, v) && HomeOk(g, v, home, chain)
    ensures home.At? ==> Holds(v, home.spot, SLOT)
    ensures var v' := Recorded(v, home, first, size);
            && Shaped(g, v') && |v'.root| == |v.root| && SlotOnly(g, v, v', [], home)
            && forall c :: c in chain && 0 <= c < g.limit ==> v'.data[c] == v.data[c]
  {
  }

  lemma SlotOnlyCompose(g: Geo, v: View, v1: View, v2: View, chain: seq<nat>, home: Home)
    requires SlotOnly(g, v, v1, chain, home) && SlotOnly(g, v1, v2, [], home)
    ensures SlotOnly(g, v, v2, chain, home)
  {
  }

  lemma RecordStep(g: Geo, v: View, f: File, v1: View, f1: File, home: Home)
    requires FileStep(g, v, f, v1, f1, home) && f1.first < U32
    ensures home.At? ==> Holds(v1, home.spot, SLOT)
    ensures FileStep(g, v, f, Recorded(v1, home, f1.first, f1.size), f1, home)
    ensures Content(g, Recorded(v1, home, f1.first, f1.size), f1) == Content(g, v1, f1)
  {
    RecordData(g, v1, home, f1.chain, f1.first, f1.size);
    var v2 := Recorded(v1, home, f1.first, f1.size);
    SlotOnlyCompose(g, v, v1, v2, f.chain + f1.chain, home);
    BytesFramed(g, v1.data, v2.data, f1.chain);
    HomeKept(g, v1, v2, home, f1.chain);
  }
}
