/**
 Directories on a volume: the slots of the fixed root directory or of a cluster chain, where each slot
 lies, and what writing 32 bytes there does to the sequence of slots.
 */
module FatFolder {
  import opened Machine
  import opened FatLayout
  import opened FatChain
  import opened FatContent
  import opened FatVolume
  import opened FatFile
  import opened FatStep
  import opened FatName
  import opened FatSlots
  import opened FatSearch

  /** The fixed root directory of FAT12 and FAT16, or a directory kept in a chain. */
  datatype Folder = Root | Sub(chain: seq<nat>)

  /** The 32-byte slots of a stretch of bytes. */
  function Chop(b: seq<byte>): (r: seq<Slot>)
    ensures |r| == |b| / SLOT
  {
    seq(|b| / SLOT, i requires 0 <= i < |b| / SLOT => b[i * SLOT..i * SLOT + SLOT])
  }

  lemma ChopSplice(b: seq<byte>, k: nat, s: Slot)
    requires k < |b| / SLOT
    ensures k * SLOT + SLOT <= |b| && Chop(Splice(b, k * SLOT, s)) == Chop(b)[k := s]
  {
    var b' := Splice(b, k * SLOT, s);
    forall i | 0 <= i < |b| / SLOT ensures Chop(b')[i] == Chop(b)[k := s][i] {
      assert i != k ==> b'[i * SLOT..i * SLOT + SLOT] == b[i * SLOT..i * SLOT + SLOT];
      assert i == k ==> b'[i * SLOT..i * SLOT + SLOT] == s;
    }
  }

  lemma ChopZeros(n: nat)
    ensures forall k :: 0 <= k < |Chop(Zeros(n))| ==> Ends(Chop(Zeros(n))[k])
  {
  }

  /** The slots of a chain of clusters, cluster after cluster. */
  ghost function ChainSlots(g: Geo, data: seq<seq<byte>>, chain: seq<nat>): seq<Slot>
    requires Sized(g, data) && InRange(g, chain)
  {
    if chain == [] then [] else Chop(data[chain[0]]) + ChainSlots(g, data, chain[1..])
  }

  lemma {:induction false} ChainSlotsAppend(g: Geo, data: seq<seq<byte>>, a: seq<nat>, b: seq<nat>)
    requires Sized(g, data) && InRange(g, a) && InRange(g, b)
    ensures InRange(g, a + b)
    ensures ChainSlots(g, data, a + b) == ChainSlots(g, data, a) + ChainSlots(g, data, b)
  {
    if a == [] {
      assert a + b == b;
    } else {
      assert (a + b)[1..] == a[1..] + b;
      ChainSlotsAppend(g, data, a[1..], b);
    }
  }

  /** The chain's slots around its q-th cluster. */
  lemma ChainSlotsAround(g: Geo, data: seq<seq<byte>>, chain: seq<nat>, q: nat)
    requires Sized(g, data) && InRange(g, chain) && q < |chain|
    ensures InRange(g, chain[..q]) && InRange(g, chain[q + 1..])
    ensures ChainSlots(g, data, chain) ==
        ChainSlots(g, data, chain[..q]) + Chop(data[chain[q]]) + ChainSlots(g, data, chain[q + 1..])
  {
    assert chain == chain[..q] + chain[q..] && chain[q..][1..] == chain[q + 1..];
    ChainSlotsAppend(g, data, chain[..q], chain[q..]);
  }

  lemma ChainSlotsUpTo(g: Geo, data: seq<seq<byte>>, chain: seq<nat>, q: nat)
    requires Sized(g, data) && InRange(g, chain) && q < |chain|
    ensures InRange(g, chain[..q]) && InRange(g, chain[..q + 1])
    ensures ChainSlots(g, data, chain[..q + 1]) == ChainSlots(g, data, chain[..q]) + Chop(data[chain[q]])
    ensures var n, slots := |ChainSlots(g, data, chain[..q + 1])|, ChainSlots(g, data, chain);
            n <= |slots| && slots[..n] == ChainSlots(g, data, chain[..q + 1])
  {
    assert chain[..q + 1] == chain[..q] + [chain[q]];
    ChainSlotsAppend(g, data, chain[..q], [chain[q]]);
    ChainSlotsAround(g, data, chain, q);
    assert [chain[q]][1..] == [];
    assert ChainSlots(g, data, [chain[q]]) == Chop(data[chain[q]]) + [];
  }

  lemma {:induction false} ChainSlotsFramed(g: Geo, data: seq<seq<byte>>, data': seq<seq<byte>>, chain: seq<nat>)
    requires Sized(g, data) && Sized(g, data') && InRange(g, chain)
    requires forall c :: c in chain ==> data'[c] == data[c]
    ensures ChainSlots(g, data', chain) == ChainSlots(g, data, chain)
  {
    if chain != [] {
      assert chain[0] in chain;
      ChainSlotsFramed(g, data, data', chain[1..]);
    }
  }

  /** The number of the first slot of the q-th cluster. */
  ghost function FirstSlot(g: Geo, data: seq<seq<byte>>, chain: seq<nat>, q: nat): nat
    requires Sized(g, data) && InRange(g, chain) && q <= |chain|
  {
    |ChainSlots(g, data, chain[..q])|
  }

  /** Writing a slot inside a cluster of the chain replaces that slot and no other. */
  lemma ChainSlotsPatch(g: Geo, data: seq<seq<byte>>, chain: seq<nat>, q: nat, k: nat, s: Slot)
    requires Sized(g, data) && InRange(g, chain) && Distinct(chain) && q < |chain| && k < |Chop(data[chain[q]])|
    ensures k * SLOT + SLOT <= |data[chain[q]]|
    ensures var i := FirstSlot(g, data, chain, q) + k;
            var data' := data[chain[q] := Splice(data[chain[q]], k * SLOT, s)];
            && i < |ChainSlots(g, data, chain)|
                && ChainSlots(g, data, chain)[i] == data[chain[q]][k * SLOT..k * SLOT + SLOT]
            && Sized(g, data') && ChainSlots(g, data', chain) == ChainSlots(g, data, chain)[i := s]
  {
    var c := chain[q];
    ChopSplice(data[c], k, s);
    var data' := data[c := Splice(data[c], k * SLOT, s)];
    ChainSlotsAround(g, data, chain, q);
    ChainSlotsAround(g, data', chain, q);
    ChainSlotsFramed(g, data, data', chain[..q]);
    ChainSlotsFramed(g, data, data', chain[q + 1..]);
    ReplaceMiddle(ChainSlots(g, data, chain[..q]), Chop(data[c]), ChainSlots(g, data, chain[q + 1..]), k, s);
  }

  lemma ReplaceMiddle(a: seq<Slot>, b: seq<Slot>, c: seq<Slot>, k: nat, s: Slot)
    requires k < |b|
    ensures a + b[k := s] + c == (a + b + c)[|a| + k := s] && (a + b + c)[|a| + k] == b[k]
  {
  }

  /** A directory of the volume; entries is the slot count of the fixed root directory. */
  ghost predicate FolderOk(g: Geo, entries: nat, v: View, dir: Folder) {
    && Shaped(g, v)
    && match dir
       case Root => entries * SLOT <= |v.root| && g.ty != Fat32
       case Sub(chain) => chain != [] && IsChain(g, v.table, chain[0], chain)
  }

  /** The first-cluster field of a directory's node. */
  function FirstCluster(dir: Folder): nat {
    if dir.Sub? && dir.chain != [] then dir.chain[0] else 0
  }

  ghost function Slots(g: Geo, entries: nat, v: View, dir: Folder): seq<Slot>
    requires FolderOk(g, entries, v, dir)
  {
    match dir
    case Root => Chop(v.root[..entries * SLOT])
    case Sub(chain) => ChainSlots(g, v.data, chain)
  }

  /** Slot i of the directory lies at the spot. */
  ghost predicate SlotAt(g: Geo, entries: nat, v: View, dir: Folder, i: nat, spot: Spot)
    requires FolderOk(g, entries, v, dir)
  {
    match dir
    case Root => i < entries && spot == InRoot(i * SLOT)
    case Sub(chain) => exists q: nat, k: nat :: InSub(g, v, chain, i, spot, q, k)
  }

  ghost predicate InSub(g: Geo, v: View, chain: seq<nat>, i: nat, spot: Spot, q: nat, k: nat)
    requires Sized(g, v.data) && InRange(g, chain)
  {
    && q < |chain| && k < |Chop(v.data[chain[q]])|
    && i == FirstSlot(g, v.data, chain, q) + k && spot == InCluster(chain[q], k * SLOT)
  }

  /** Writing a slot at its spot replaces it, keeps the directory a directory, and no other slot changes. */
  lemma SlotWritten(g: Geo, entries: nat, v: View, dir: Folder, i: nat, spot: Spot, s: Slot)
    requires FolderOk(g, entries, v, dir) && SlotAt(g, entries, v, dir, i, spot)
    ensures Holds(v, spot, SLOT) && i < |Slots(g, entries, v, dir)|
        && Slots(g, entries, v, dir)[i] == Peek(v, spot, SLOT)
    ensures FolderOk(g, entries, Poke(v, spot, s), dir)
    ensures Slots(g, entries, Poke(v, spot, s), dir) == Slots(g, entries, v, dir)[i := s]
  {
    match dir
    case Root =>
      var b := v.root[..entries * SLOT];
      ChopSplice(b, i, s);
      assert Splice(v.root, i * SLOT, s)[..entries * SLOT] == Splice(b, i * SLOT, s);
      assert b[i * SLOT..i * SLOT + SLOT] == v.root[i * SLOT..i * SLOT + SLOT];
    case Sub(chain) =>
      var q: nat, k: nat :| InSub(g, v, chain, i, spot, q, k);
      ChainSlotsPatch(g, v.data, chain, q, k, s);
  }
}
