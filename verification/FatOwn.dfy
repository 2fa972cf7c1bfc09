/**
 Who owns which clusters of a directory's entries: every entry but "." and ".." has a chain of its own, apart
 from all others and from the directory. One step of one entry keeps this, and what every other entry holds.
 */
module FatOwn {
  import opened Machine
  import opened FatLayout
  import opened FatChain
  import opened FatContent
  import opened FatVolume
  import opened FatFile
  import opened FatStep
  import opened FatName
  import opened FatSlots
  import opened FatFolder
  import opened FatIter
  import opened FatFree
  import opened FatDir

  type Label = seq<byte>

  predicate NotDot(k: Label) { k != [DOT] && k != [DOT, DOT] }

  /** What a name stands for: a sub-directory with its slots, or a file with its bytes. */
  datatype Item = SubDir(slots: seq<Slot>) | Data(bytes: seq<byte>)

  /** An entry with its chain: apart from the directory, long enough for a file's size, not empty for a directory. */
  ghost predicate EntryOk(g: Geo, v: View, dir: Folder, s: Slot, chain: seq<nat>) {
    && Shaped(g, v) && IsChain(g, v.table, FirstOf(s), chain)
    && (dir.Sub? ==> Disjoint(chain, dir.chain))
    && (if IsDirectory(s) then chain != [] else SizeOf(s) <= |Bytes(g, v.data, chain)|)
  }

  ghost function ItemOf(g: Geo, v: View, dir: Folder, s: Slot, chain: seq<nat>): Item
    requires EntryOk(g, v, dir, s, chain)
  {
    if IsDirectory(s) then SubDir(ChainSlots(g, v.data, chain)) else Data(Bytes(g, v.data, chain)[..SizeOf(s)])
  }

  ghost predicate Owned(g: Geo, v: View, dir: Folder, m: map<Label, Slot>, own: map<Label, seq<nat>>) {
    && (forall k :: k in m && !NotDot(k) ==> IsDirectory(m[k]))
    && (forall k :: k in m && NotDot(k) ==> k in own && EntryOk(g, v, dir, m[k], own[k]))
    && (forall k, l ::
          k in m && l in m && NotDot(k) && NotDot(l) && k != l && k in own && l in own ==> Disjoint(own[k], own[l]))
  }

  ghost function Items(g: Geo, v: View, dir: Folder, m: map<Label, Slot>, own: map<Label, seq<nat>>): map<Label, Item>
    requires Owned(g, v, dir, m, own)
  {
    map k | k in m && NotDot(k) :: ItemOf(g, v, dir, m[k], own[k])
  }

  /** A place in the directory: not in any entry's chain. */
  ghost predicate HomeIn(dir: Folder, home: Home) {
    home.At? && home.spot.InCluster? ==> dir.Sub? && home.spot.c in dir.chain
  }

  /** The entry of another name is untouched by a step: its chain, its bytes, and their distance to
      the stepping file. */
  lemma EntryKept(g: Geo, v: View, dir: Folder, s: Slot, chain: seq<nat>, f: File, v': View, f': File, home: Home)
    requires EntryOk(g, v, dir, s, chain) && FileStep(g, v, f, v', f', home) && Disjoint(chain, f.chain)
        && HomeIn(dir, home)
    ensures EntryOk(g, v', dir, s, chain) && Disjoint(chain, f'.chain)
    ensures ItemOf(g, v', dir, s, chain) == ItemOf(g, v, dir, s, chain)
  {
    hide FirstOf, SizeOf, Bytes, ChainSlots;
    forall c | c in chain ensures c < g.limit && c !in f'.chain && v'.table[c] == v.table[c]
        && v'.data[c] == v.data[c] {
      MembersInUse(g, v.table, FirstOf(s), chain, c);
    }
    ChainFramed(g, v.table, v'.table, FirstOf(s), chain);
    BytesFramed(g, v.data, v'.data, chain);
    ChainSlotsFramed(g, v.data, v'.data, chain);
  }

  /** No entry but k's has a cluster in common with the chain. */
  ghost predicate Alone(m: map<Label, Slot>, own: map<Label, seq<nat>>, k: Label, chain: seq<nat>) {
    forall l :: l in m && NotDot(l) && l != k && l in own ==> Disjoint(own[l], chain)
  }

  /** A step of k's file: every other entry keeps its chain and what it holds, and stays apart from k's new chain. */
  lemma OwnedStep(g: Geo, v: View, dir: Folder, m: map<Label, Slot>, own: map<Label, seq<nat>>, k: Label, f: File,
      v': View, f': File, home: Home)
    requires Owned(g, v, dir, m, own) && FileStep(g, v, f, v', f', home) && HomeIn(dir, home)
        && Alone(m, own, k, f.chain)
    ensures Owned(g, v', dir, m - {k}, own) && Alone(m, own, k, f'.chain)
    ensures Items(g, v', dir, m - {k}, own) == Items(g, v, dir, m, own) - {k}
  {
    hide EntryOk, FileStep, Disjoint, ItemOf;
    forall l | l in m && NotDot(l) && l != k
      ensures l in own && EntryOk(g, v', dir, m[l], own[l]) && Disjoint(own[l], f'.chain)
      ensures EntryOk(g, v, dir, m[l], own[l]) && ItemOf(g, v', dir, m[l], own[l]) == ItemOf(g, v, dir, m[l], own[l])
    {
      EntryKept(g, v, dir, m[l], own[l], f, v', f', home);
    }
  }

  lemma OwnedAdd(g: Geo, v: View, dir: Folder, m: map<Label, Slot>, own: map<Label, seq<nat>>, k: Label, s: Slot,
      chain: seq<nat>)
    requires Owned(g, v, dir, m, own) && k !in m && NotDot(k) && EntryOk(g, v, dir, s, chain) && Alone(m, own, k, chain)
    ensures Owned(g, v, dir, m[k := s], own[k := chain])
    ensures Items(g, v, dir, m[k := s], own[k := chain]) == Items(g, v, dir, m, own)[k := ItemOf(g, v, dir, s, chain)]
  {
    hide EntryOk, ItemOf;
  }

  /** The directory itself gains room. */
  lemma OwnedRoom(g: Geo, entries: nat, v: View, dir: Folder, v': View, dir': Folder, m: map<Label, Slot>,
      own: map<Label, seq<nat>>)
    requires Owned(g, v, dir, m, own) && Roomed(g, entries, v, dir, v', dir')
    ensures Owned(g, v', dir', m, own) && Items(g, v', dir', m, own) == Items(g, v, dir, m, own)
  {
    hide EntryOk, Roomed, ItemOf, Disjoint, NotDot;
    forall k | k in m && NotDot(k)
      ensures EntryOk(g, v', dir', m[k], own[k]) && EntryOk(g, v, dir, m[k], own[k])
          && ItemOf(g, v', dir', m[k], own[k]) == ItemOf(g, v, dir, m[k], own[k])
    {
      RoomedEntry(g, entries, v, dir, v', dir', m[k], own[k]);
    }
  }

  lemma RoomedEntry(g: Geo, entries: nat, v: View, dir: Folder, v': View, dir': Folder, s: Slot, chain: seq<nat>)
    requires EntryOk(g, v, dir, s, chain) && Roomed(g, entries, v, dir, v', dir')
    ensures EntryOk(g, v', dir', s, chain) && ItemOf(g, v', dir', s, chain) == ItemOf(g, v, dir, s, chain)
  {
    hide FileStep, Slots, Bytes, ChainSlots, FirstOf, SizeOf, IsChain;
    EntryKept(g, v, dir, s, chain, AsFile(dir), v', AsFile(dir'), Nowhere);
  }

  /** Only clusters free before and after changed their bytes. */
  lemma OwnedIdle(g: Geo, v: View, v': View, dir: Folder, m: map<Label, Slot>, own: map<Label, seq<nat>>)
    requires Owned(g, v, dir, m, own) && Idle(g, v, v')
    ensures Owned(g, v', dir, m, own) && Items(g, v', dir, m, own) == Items(g, v, dir, m, own)
  {
    hide EntryOk, Idle, ItemOf;
    forall k | k in m && NotDot(k)
      ensures EntryOk(g, v', dir, m[k], own[k]) && EntryOk(g, v, dir, m[k], own[k])
          && ItemOf(g, v', dir, m[k], own[k]) == ItemOf(g, v, dir, m[k], own[k])
    {
      IdleEntry(g, v, v', dir, m[k], own[k]);
    }
  }

  lemma IdleEntry(g: Geo, v: View, v': View, dir: Folder, s: Slot, chain: seq<nat>)
    requires EntryOk(g, v, dir, s, chain) && Idle(g, v, v')
    ensures EntryOk(g, v', dir, s, chain) && ItemOf(g, v', dir, s, chain) == ItemOf(g, v, dir, s, chain)
  {
    hide FirstOf, SizeOf, Bytes, ChainSlots;
    forall c | c in chain ensures c < g.limit
        && v'.data[c] == v.data[c] { MembersInUse(g, v.table, FirstOf(s), chain, c); }
    BytesFramed(g, v.data, v'.data, chain);
    ChainSlotsFramed(g, v.data, v'.data, chain);
  }

  /** A step whose home is slot i of the directory changes that slot of the directory and nothing else of it. */
  lemma StepSlots(g: Geo, entries: nat, v: View, dir: Folder, i: nat, spot: Spot, f: File, v': View, f': File)
    requires FolderOk(g, entries, v, dir) && SlotAt(g, entries, v, dir, i, spot) && FileStep(g, v, f, v', f', At(spot))
    requires dir.Sub? ==> Disjoint(f.chain, dir.chain)
    ensures FolderOk(g, entries, v', dir) && i < |Slots(g, entries, v, dir)| && Holds(v', spot, SLOT)
    ensures Slots(g, entries, v', dir) == Slots(g, entries, v, dir)[i := Peek(v', spot, SLOT)]
    ensures dir.Sub? ==> Disjoint(f'.chain, dir.chain)
  {
    hide Bytes, ChainSlots, Slots, SlotAt, FolderOk;
    SlotHome(g, entries, v, dir, i, spot);
    StepHome(g, v, f, v', f', spot);
    var v1 := Poke(v, spot, Peek(v', spot, SLOT));
    SlotWritten(g, entries, v, dir, i, spot, Peek(v', spot, SLOT));
    FolderClusters(g, entries, v, dir, f, v', f', spot);
    FolderFramed(g, entries, v1, v', dir);
  }

  lemma StepHome(g: Geo, v: View, f: File, v': View, f': File, spot: Spot)
    requires FileStep(g, v, f, v', f', At(spot)) && Holds(v, spot, SLOT)
    ensures Holds(v', spot, SLOT) && Shaped(g, v')
    ensures spot.InRoot? ==> v'.root == Splice(v.root, spot.at, Peek(v', spot, SLOT))
    ensures spot.InCluster? && spot.c !in f.chain + f'.chain ==>
          v'.data[spot.c] == Splice(v.data[spot.c], spot.at, Peek(v', spot, SLOT))
    ensures spot.InCluster? ==> v'.root == v.root
  {
    hide Bytes, IsChain;
  }

  lemma FolderClusters(g: Geo, entries: nat, v: View, dir: Folder, f: File, v': View, f': File, spot: Spot)
    requires FolderOk(g, entries, v, dir) && FileStep(g, v, f, v', f', At(spot)) && Holds(v, spot, SLOT)
        && Holds(v', spot, SLOT)
    requires dir.Sub? ==> Disjoint(f.chain, dir.chain)
    requires spot.InCluster? ==> dir.Sub? && spot.c in dir.chain
    ensures dir.Sub? ==> Disjoint(f'.chain, dir.chain)
    ensures var v1 := Poke(v, spot, Peek(v', spot, SLOT));
            && (dir.Root? ==> v'.root == v1.root)
            && (dir.Sub? ==>
                  forall c :: c in dir.chain ==> c < g.limit && v'.table[c] == v1.table[c] && v'.data[c] == v1.data[c])
  {
    hide Bytes, IsChain;
    StepHome(g, v, f, v', f', spot);
    if dir.Sub? {
      forall c | c in dir.chain ensures c < g.limit && c !in f.chain && c !in f'.chain && v'.table[c] == v.table[c] {
        MembersInUse(g, v.table, dir.chain[0], dir.chain, c);
      }
    }
  }

  /** The chain a first-cluster field leads to, if it leads to one. */
  ghost function ChainFrom(g: Geo, t: seq<nat>, first: nat): seq<nat> {
    if exists chain: seq<nat> ::
          IsChain(g, t, first, chain) then (var chain: seq<nat> :| IsChain(g, t, first, chain); chain) else []
  }

  lemma ChainFromIs(g: Geo, t: seq<nat>, first: nat, chain: seq<nat>)
    requires g.Ok() && IsChain(g, t, first, chain)
    ensures ChainFrom(g, t, first) == chain
  {
    var other := ChainFrom(g, t, first);
    assert IsChain(g, t, first, other);
    if chain != [] && other != [] {
      ChainUnique(g, t, chain, other, 0);
      assert chain[0..] == chain && other[0..] == other;
    }
  }

  /** The chains of all entries, as the table has them. */
  ghost function OwnOf(g: Geo, v: View, m: map<Label, Slot>): map<Label, seq<nat>> {
    map k | k in m && NotDot(k) :: ChainFrom(g, v.table, FirstOf(m[k]))
  }

  lemma OwnedIsOwn(g: Geo, v: View, dir: Folder, m: map<Label, Slot>, own: map<Label, seq<nat>>)
    requires Owned(g, v, dir, m, own)
    ensures Owned(g, v, dir, m, OwnOf(g, v, m)) && Items(g, v, dir, m, OwnOf(g, v, m)) == Items(g, v, dir, m, own)
  {
    hide ChainFrom, ItemOf, FirstOf, EntryOk, Disjoint, NotDot;
    forall k | k in m && NotDot(k) ensures OwnOf(g, v, m)[k] == own[k] {
      EntryChain(g, v, dir, m[k], own[k]);
    }
  }

  lemma EntryChain(g: Geo, v: View, dir: Folder, s: Slot, chain: seq<nat>)
    requires EntryOk(g, v, dir, s, chain)
    ensures ChainFrom(g, v.table, FirstOf(s)) == chain
  {
    hide ChainFrom, FirstOf;
    ChainFromIs(g, v.table, FirstOf(s), chain);
  }
}
