/** fat_unlink_vn: exactly one name goes, with exactly the clusters of its chain. */
module FatUnlink {
  import opened Machine
  import opened FatLayout
  import opened FatChain
  import opened FatContent
  import opened FatVolume
  import opened FatFile
  import opened FatStep
  import opened FatName
  import opened FatSlots
  import opened FatSearch
  import opened FatFolder
  import opened FatIter
  import opened FatDir

  /** Marking the entry deleted is one byte; the rest of the slot stays. */
  lemma EraseByte(v: View, spot: Spot)
    requires Holds(v, spot, SLOT)
    ensures Holds(v, spot, 1) && Poke(v, spot, [0xE5]) == Poke(v, spot, Erased(Peek(v, spot, SLOT)))
  {
    match spot
    case InRoot(at) => SpliceFirst(v.root, at);
    case InCluster(c, at) => SpliceFirst(v.data[c], at);
  }

  lemma SpliceFirst(b: seq<byte>, at: nat)
    requires at + SLOT <= |b|
    ensures Splice(b, at, [0xE5]) == Splice(b, at, Erased(b[at..at + SLOT]))
  {
    var x, y := Splice(b, at, [0xE5]), Splice(b, at, Erased(b[at..at + SLOT]));
    assert |x| == |y| && forall k :: 0 <= k < |x| ==> x[k] == y[k];
  }

  /** The entry of a file and where it lies. */
  ghost predicate EntryOf(g: Geo, entries: nat, v: View, dir: Folder, i: nat, spot: Spot, chain: seq<nat>) {
    && FolderOk(g, entries, v, dir) && SlotAt(g, entries, v, dir, i, spot) && i < |Slots(g, entries, v, dir)|
    && IsChain(g, v.table, FirstOf(Slots(g, entries, v, dir)[i]), chain)
  }

  /** The chain does not run through the directory. */
  ghost predicate Clear(dir: Folder, chain: seq<nat>) { dir.Sub? ==> forall c :: c in chain ==> c !in dir.chain }

  ghost function Removed(v: View, spot: Spot, chain: seq<nat>): View
    requires Holds(v, spot, SLOT)
  {
    Poke(v, spot, Erased(Peek(v, spot, SLOT))).(table := Cleared(v.table, chain))
  }

  lemma {:induction false} RemoveStep(g: Geo, v: View, spot: Spot, first: nat, chain: seq<nat>)
    requires Shaped(g, v) && IsChain(g, v.table, first, chain) && HomeOk(g, v, At(spot), chain)
    ensures Holds(v, spot, SLOT) && FileStep(g, v, File(first, 0, chain), Removed(v, spot, chain), EMPTY, At(spot))
  {
    PokeData(g, v, spot, chain, Erased(Peek(v, spot, SLOT)));
    forall c | c in chain ensures c < g.limit { MembersInUse(g, v.table, first, chain, c); }
  }

  /** Freeing a chain that does not run through the directory leaves the directory alone. */
  lemma FreedFolder(g: Geo, entries: nat, v: View, dir: Folder, chain: seq<nat>)
    requires FolderOk(g, entries, v, dir) && Clear(dir, chain)
    ensures var v' := v.(table := Cleared(v.table, chain));
            FolderOk(g, entries, v', dir) && Slots(g, entries, v', dir) == Slots(g, entries, v, dir)
  {
    if dir.Sub? {
      forall c | c in dir.chain ensures c < g.limit && Cleared(v.table, chain)[c] == v.table[c] {
        MembersInUse(g, v.table, dir.chain[0], dir.chain, c);
      }
    }
    FolderFramed(g, entries, v, v.(table := Cleared(v.table, chain)), dir);
  }

  /** The slot is marked, the chain is free, and everything else is as it was. */
  ghost predicate Unentered(g: Geo, entries: nat, v: View, dir: Folder, i: nat, spot: Spot, chain: seq<nat>, v': View) {
    var unentered := FolderOk(g, entries, v, dir) && i < |Slots(g, entries, v, dir)|
      && FolderOk(g, entries, v', dir) && Slots(g, entries, v', dir) ==
          Slots(g, entries, v, dir)[i := Erased(Slots(g, entries, v, dir)[i])]
      && FileStep(g, v, File(FirstOf(Slots(g, entries, v, dir)[i]), 0, chain), v', EMPTY, At(spot));
    unentered
  }

  lemma Remove(g: Geo, entries: nat, v: View, dir: Folder, i: nat, spot: Spot, chain: seq<nat>)
    requires EntryOf(g, entries, v, dir, i, spot, chain) && Clear(dir, chain)
    ensures Holds(v, spot, SLOT) && Unentered(g, entries, v, dir, i, spot, chain, Removed(v, spot, chain))
  {
    hide SlotAt, FolderOk, FileStep, Slots, IsChain, FirstOf, Erased, Cleared;
    SlotHome(g, entries, v, dir, i, spot);
    FolderShaped(g, entries, v, dir);
    var s := Slots(g, entries, v, dir)[i];
    SlotWritten(g, entries, v, dir, i, spot, Erased(s));
    RemoveStep(g, v, spot, FirstOf(s), chain);
    FreedFolder(g, entries, Poke(v, spot, Erased(s)), dir, chain);
  }

  /**
   What unlinking needs of the volume: if the name exists, its chain is a chain, and if it names a
   directory, that is a directory of the volume.
   */
  ghost predicate Unlinkable(sb: Super, v: View, first: nat, dir: Folder, name: seq<byte>, chain: seq<nat>,
      sub: Folder) {
    var unlinkable := IsFolder(sb, v, first, dir)
      && var slots := Slots(GeoOf(sb), sb.rootEntries, v, dir);
      && DirOk(slots)
      && (UpAll(name) in Dir(slots) ==>
            var s := Dir(slots)[UpAll(name)];
            && IsChain(GeoOf(sb), v.table, FirstOf(s), chain)
            && (IsDirectory(s) ==> IsFolder(sb, v, FirstOf(s), sub)));
    unlinkable
  }

  ghost predicate IsEmpty(sb: Super, v: View, sub: Folder)
    requires FolderOk(GeoOf(sb), sb.rootEntries, v, sub)
  {
    OnlyDots(Slots(GeoOf(sb), sb.rootEntries, v, sub))
  }

  /** Unlink removes the name, its entry and its clusters, or nothing. */
  ghost predicate Unlinked(sb: Super, v: View, first: nat, dir: Folder, name: seq<byte>, chain: seq<nat>, sub: Folder,
      r: Errno, v': View) {
    var unlinked := Unlinkable(sb, v, first, dir, name, chain, sub) ==>
      var g, e, slots := GeoOf(sb), sb.rootEntries, Slots(GeoOf(sb), sb.rootEntries, v, dir);
      && r in {Success, NotFound, OutOfMemory, DirectoryNotEmpty}
      && (r != Success ==> v' == v)
      && (if UpAll(name) !in Dir(slots) then r in {NotFound, OutOfMemory}
          else
            var s := Dir(slots)[UpAll(name)];
            && r != NotFound
            && (r == DirectoryNotEmpty ==> IsDirectory(s) && !IsEmpty(sb, v, sub))
            && (r == Success ==>
                  && (IsDirectory(s) ==> IsEmpty(sb, v, sub)) && Marked(g, e, v, dir, UpAll(name), chain, v')
                  && (Clear(dir, chain) ==> Gone(g, e, v, dir, UpAll(name), chain, v'))));
    unlinked
  }

  /** The entry is marked deleted and its chain is free, whatever that means for the directory. */
  ghost predicate Marked(g: Geo, e: nat, v: View, dir: Folder, key: seq<byte>, chain: seq<nat>, v': View)
    requires FolderOk(g, e, v, dir) && key in Dir(Slots(g, e, v, dir))
  {
    exists i: nat, spot: Spot :: MarkedAt(g, e, v, dir, key, i, spot, chain, v')
  }

  ghost predicate MarkedAt(g: Geo, e: nat, v: View, dir: Folder, key: seq<byte>, i: nat, spot: Spot, chain: seq<nat>,
      v': View)
    requires FolderOk(g, e, v, dir) && key in Dir(Slots(g, e, v, dir))
  {
    && EntryOf(g, e, v, dir, i, spot, chain) && Slots(g, e, v, dir)[i] == Dir(Slots(g, e, v, dir))[key]
    && Holds(v, spot, SLOT) && v' == Removed(v, spot, chain)
  }

  /** Unlinking leaves the directory a directory exactly when the entry's chain does not run through it. */
  lemma UnlinkExact(g: Geo, e: nat, v: View, dir: Folder, i: nat, spot: Spot, chain: seq<nat>)
    requires EntryOf(g, e, v, dir, i, spot, chain) && Holds(v, spot, SLOT)
    ensures FolderOk(g, e, Removed(v, spot, chain), dir) <==> Clear(dir, chain)
  {
    if Clear(dir, chain) {
      Remove(g, e, v, dir, i, spot, chain);
    } else {
      var c :| c in chain && c in dir.chain;
      MembersInUse(g, v.table, dir.chain[0], dir.chain, c);
      Unsound(g, e, Removed(v, spot, chain), dir, c);
    }
  }

  lemma Unsound(g: Geo, e: nat, v: View, dir: Folder, c: nat)
    requires dir.Sub? && c in dir.chain && c < |v.table| && v.table[c] == 0
    ensures !FolderOk(g, e, v, dir)
  {
    if FolderOk(g, e, v, dir) { MembersInUse(g, v.table, dir.chain[0], dir.chain, c); }
  }

  /** The entry "." names the directory itself: unlinking it in an empty directory frees the
      directory's own clusters. */
  lemma UnlinkDot(sb: Super, v: View, first: nat, dir: Folder, r: Errno, v': View)
    requires IsFolder(sb, v, first, dir) && dir.Sub? && DirOk(Slots(GeoOf(sb), sb.rootEntries, v, dir))
        && IsEmpty(sb, v, dir)
    requires var m := Dir(Slots(GeoOf(sb), sb.rootEntries, v, dir));
          UpAll([DOT]) in m && FirstOf(m[UpAll([DOT])]) == first
    requires Unlinked(sb, v, first, dir, [DOT], dir.chain, dir, r, v')
    ensures r in {Success, OutOfMemory} && (r == Success ==> !IsFolder(sb, v', first, dir))
  {
    hide Dir, Slots, UpAll, DirOk, FirstOf, OnlyDots, IsChain, Gone, Removed, EntryOf;
    var g, e := GeoOf(sb), sb.rootEntries;
    FolderChain(g, e, v, dir);
    assert Unlinkable(sb, v, first, dir, [DOT], dir.chain, dir);
    if r == Success {
      var i: nat, spot: Spot :| MarkedAt(g, e, v, dir, UpAll([DOT]), i, spot, dir.chain, v');
      UnlinkExact(g, e, v, dir, i, spot, dir.chain);
      assert dir.chain[0] in dir.chain;
    }
  }

  lemma FolderChain(g: Geo, e: nat, v: View, dir: Folder)
    requires FolderOk(g, e, v, dir) && dir.Sub?
    ensures dir.chain != [] && IsChain(g, v.table, dir.chain[0], dir.chain)
  {
  }

  /** Exactly the one name is gone. */
  ghost predicate Gone(g: Geo, e: nat, v: View, dir: Folder, key: seq<byte>, chain: seq<nat>, v': View)
    requires FolderOk(g, e, v, dir) && key in Dir(Slots(g, e, v, dir))
  {
    && FolderOk(g, e, v', dir) && DirOk(Slots(g, e, v', dir))
    && Dir(Slots(g, e, v', dir)) == Dir(Slots(g, e, v, dir)) - {key}
    && exists i: nat, spot: Spot :: RemovedAt(g, e, v, dir, key, i, spot, chain, v')
  }

  ghost predicate RemovedAt(g: Geo, e: nat, v: View, dir: Folder, key: seq<byte>, i: nat, spot: Spot, chain: seq<nat>,
      v': View)
    requires FolderOk(g, e, v, dir) && key in Dir(Slots(g, e, v, dir))
  {
    && Visible(Slots(g, e, v, dir), i) && Slots(g, e, v, dir)[i] == Dir(Slots(g, e, v, dir))[key]
        && SlotAt(g, e, v, dir, i, spot)
    && Unentered(g, e, v, dir, i, spot, chain, v')
  }

  lemma NotUnlinkable(sb: Super, v: View, first: nat, dir: Folder, name: seq<byte>, chain: seq<nat>, sub: Folder,
      r: Errno, v': View)
    requires !Unlinkable(sb, v, first, dir, name, chain, sub)
    ensures Unlinked(sb, v, first, dir, name, chain, sub, r, v')
  {
  }

  /** What a lookup found: the entry, as a ghost slot number and spot. */
  lemma FoundEntry(sb: Super, v: View, first: nat, dir: Folder, name: seq<byte>, chain: seq<nat>, sub: Folder, h: Found)
      returns (i: nat)
    requires LookedUp(sb, v, first, dir, name, Success, h) && Unlinkable(sb, v, first, dir, name, chain, sub)
    ensures IsFolder(sb, v, first, dir) && HoldsEntries(sb, h.lba)
    ensures var g, e, slots := GeoOf(sb), sb.rootEntries, Slots(GeoOf(sb), sb.rootEntries, v, dir);
            && DirOk(slots) && Visible(slots, i) && UpAll(name) in Dir(slots)
                && Dir(slots)[UpAll(name)] == slots[i] == h.slot && Key(slots[i]) == UpAll(name)
            && EntryOf(g, e, v, dir, i, SpotOf(sb, h.lba, h.offset), chain)
            && (IsDirectory(h.slot) ==> IsFolder(sb, v, FirstOf(h.slot), sub))
  {
    hide Dir, Key, SlotAt, HoldsEntries, SpotOf, IsChain, Listing;
    var g, e, slots := GeoOf(sb), sb.rootEntries, Slots(GeoOf(sb), sb.rootEntries, v, dir);
    i :| Visible(slots, i) && FoundAt(sb, g, e, v, dir, i, h);
    DirIsListing(slots, UpAll(name));
  }

  /** The emptiness test. */
  lemma EmptyTest(sb: Super, v: View, first: nat, sub: Folder, r: Errno, hit: Option<Found>)
    requires Iterated(sb, v, first, sub, Real, r, hit) && IsFolder(sb, v, first, sub)
    ensures FolderOk(GeoOf(sb), sb.rootEntries, v, sub) && r in {Success, OutOfMemory}
    ensures r == Success ==> (hit == None <==> IsEmpty(sb, v, sub))
  {
    hide FoundAt, OnlyDots, Search;
    EmptyIsListing(Slots(GeoOf(sb), sb.rootEntries, v, sub));
  }

  /** After the entry is marked and the chain freed. */
  lemma UnlinkDone(g: Geo, e: nat, v: View, dir: Folder, key: seq<byte>, i: nat, spot: Spot, chain: seq<nat>)
    requires EntryOf(g, e, v, dir, i, spot, chain) && Clear(dir, chain) && DirOk(Slots(g, e, v, dir))
        && Visible(Slots(g, e, v, dir), i)
    requires key == Key(Slots(g, e, v, dir)[i]) && key in Dir(Slots(g, e, v, dir))
        && Dir(Slots(g, e, v, dir))[key] == Slots(g, e, v, dir)[i]
    ensures Holds(v, spot, SLOT) && Gone(g, e, v, dir, key, chain, Removed(v, spot, chain))
  {
    hide SlotAt, FolderOk, FileStep, Slots, IsChain, Key, Dir, Erased, Visible, DirOk;
    Remove(g, e, v, dir, i, spot, chain);
    var slots := Slots(g, e, v, dir);
    UnlinkOk(slots, i);
    DirOkUnique(slots);
    UnlinkDir(slots, i);
    assert RemovedAt(g, e, v, dir, key, i, spot, chain, Removed(v, spot, chain));
  }

  lemma DirOkUnique(slots: seq<Slot>)
    requires DirOk(slots)
    ensures Unique(slots)
  {
  }

  /** An unlink that stopped before it changed anything. */
  lemma NothingUnlinked(sb: Super, v: View, first: nat, dir: Folder, name: seq<byte>, chain: seq<nat>, sub: Folder,
      r: Errno, h: Found, r': Errno)
    requires LookedUp(sb, v, first, dir, name, r, h)
    requires (r == r' != Success) || (r == Success && r' in {OutOfMemory, DirectoryNotEmpty})
    requires r' == DirectoryNotEmpty ==>
          IsDirectory(h.slot) && (IsFolder(sb, v, FirstOf(h.slot), sub) ==> !IsEmpty(sb, v, sub))
    ensures Unlinked(sb, v, first, dir, name, chain, sub, r', v)
  {
    hide Dir, IsChain, Slots, DirOk, FoundAt, OnlyDots, FolderOk, UpAll;
    if Unlinkable(sb, v, first, dir, name, chain, sub) && r' == DirectoryNotEmpty && r' != r {
      var i := FoundEntry(sb, v, first, dir, name, chain, sub, h);
    }
  }

  lemma NoChain(sb: Super, t: seq<nat>, first: nat, chain: seq<nat>)
    requires IsChain(GeoOf(sb), t, first, chain) && first == 0
    ensures Cleared(t, chain) == t
  {
  }

  /** The effect of unlink, once the entry is found and may go. */
  method Detach(vol: Volume, node: FatNode, h: Found, ghost chain: seq<nat>) returns (r: Errno)
    requires vol.Ready() && InPlace(vol.sb, h.lba, h.offset) && node.firstCluster == FirstOf(h.slot)
    modifies vol
    ensures vol.Ready() && r != OutOfMemory
    ensures (IsChain(GeoOf(vol.sb), old(vol.view).table, FirstOf(h.slot), chain)
             && Holds(old(vol.view), SpotOf(vol.sb, h.lba, h.offset), SLOT)) ==>
      r == Success && vol.view == Removed(old(vol.view), SpotOf(vol.sb, h.lba, h.offset), chain)
  {
    hide Volume.Ready, HoldsEntries, SpotOf, IsChain, Cleared, FirstOf;
    ghost var v, spot := vol.view, SpotOf(vol.sb, h.lba, h.offset);
    if Holds(v, spot, SLOT) { EraseByte(v, spot); }
    vol.PatchSector(h.lba, h.offset, [0xE5]);
    r := Success;
    if IsChain(GeoOf(vol.sb), v.table, FirstOf(h.slot), chain)
        && node.firstCluster == 0 { NoChain(vol.sb, v.table, FirstOf(h.slot), chain); }
    if node.firstCluster != 0 {
      r := FreeChain(vol, node.firstCluster, chain);
    }
  }

  /** fat_unlink_vn. */
  method Unlink(vol: Volume, first: u32, name: seq<byte>, ghost dir: Folder, ghost chain: seq<nat>, ghost sub: Folder)
      returns (r: Errno)
    requires vol.Ready()
    modifies vol
    ensures vol.Ready() && (vol.granted ==> r != OutOfMemory)
    ensures Unlinked(vol.sb, old(vol.view), first, dir, name, chain, sub, r, vol.view)
  {
    hide Volume.Ready, LookedUp, Iterated, Unlinkable, Unlinked, IsFolder, FolderOk, HoldsEntries, FirstOf, SizeOf,
        IsEmpty;
    ghost var sb, v := vol.sb, vol.view;
    ghost var ok := Unlinkable(sb, v, first, dir, name, chain, sub);
    var node, h;
    r, node, h := Lookup(vol, first, name, dir);
    if r != Success {
      NothingUnlinked(sb, v, first, dir, name, chain, sub, r, h, r);
      return;
    }
    if IsDirectory(h.slot) {
      var hit;
      r, hit := IterDir(vol, node.firstCluster, Real, sub);
      if IsFolder(sb, v, FirstOf(h.slot), sub) { EmptyTest(sb, v, FirstOf(h.slot), sub, r, hit); }
      if r == Success && hit.Some? { r := DirectoryNotEmpty; }
      if r != Success {
        if ok { ghost var i := FoundEntry(sb, v, first, dir, name, chain, sub, h); }
        if ok { NothingUnlinked(sb, v, first, dir, name, chain, sub, Success, h, r);
              } else { NotUnlinkable(sb, v, first, dir, name, chain, sub, r, v); }
        return;
      }
    }
    if ok { UnlinkFound(sb, v, first, dir, name, chain, sub, h); }
    r := Detach(vol, node, h, chain);
    if !ok { NotUnlinkable(sb, v, first, dir, name, chain, sub, r, vol.view); }
  }

  /** Marking the entry found and freeing its chain is all there is to do. */
  lemma UnlinkFound(sb: Super, v: View, first: nat, dir: Folder, name: seq<byte>, chain: seq<nat>, sub: Folder,
      h: Found)
    requires LookedUp(sb, v, first, dir, name, Success, h) && Unlinkable(sb, v, first, dir, name, chain, sub)
        && HoldsEntries(sb, h.lba)
    requires IsDirectory(h.slot) && IsFolder(sb, v, FirstOf(h.slot), sub) ==> IsEmpty(sb, v, sub)
    ensures IsChain(GeoOf(sb), v.table, FirstOf(h.slot), chain) && Holds(v, SpotOf(sb, h.lba, h.offset), SLOT)
    ensures Unlinked(sb, v, first, dir, name, chain, sub, Success, Removed(v, SpotOf(sb, h.lba, h.offset), chain))
  {
    hide FoundAt, OnlyDots, Dir, Key, SlotAt, HoldsEntries, SpotOf, IsChain, DirOk, FolderOk, Slots, UpAll, LookedUp,
        Gone, Removed, EntryOf;
    var i := FoundEntry(sb, v, first, dir, name, chain, sub, h);
    var spot := SpotOf(sb, h.lba, h.offset);
    EntryHolds(GeoOf(sb), sb.rootEntries, v, dir, i, spot, chain);
    assert MarkedAt(GeoOf(sb), sb.rootEntries, v, dir, UpAll(name), i, spot, chain, Removed(v, spot, chain));
    if Clear(dir, chain) {
      UnlinkDone(GeoOf(sb), sb.rootEntries, v, dir, UpAll(name), i, spot, chain);
    }
  }

  lemma EntryHolds(g: Geo, e: nat, v: View, dir: Folder, i: nat, spot: Spot, chain: seq<nat>)
    requires EntryOf(g, e, v, dir, i, spot, chain)
    ensures Holds(v, spot, SLOT)
  {
    SlotHome(g, e, v, dir, i, spot);
  }
}
