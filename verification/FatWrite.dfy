/** fat_truncate_vn and fat_write_vn. */
module FatWrite {
  import opened Machine
  import opened FatLayout
  import opened FatChain
  import opened FatContent
  import opened FatVolume
  import opened FatFile
  import opened FatStep
  import opened FatIo
  import opened FatTruncate
  import opened FatGrow

  /** The directory entry, if there is one, holds the file's first cluster and size. */
  ghost predicate Synced(v: View, home: Home, f: File) {
    home.At? && Holds(v, home.spot, SLOT) ==>
      FirstOf(Peek(v, home.spot, SLOT)) == f.first && SizeOf(Peek(v, home.spot, SLOT)) == f.size
  }

  /** The entry keeps its name and kind; it holds the file's new extent, or it is untouched because the size did not
      change. */
  ghost predicate Noted(v: View, f: File, v': View, f': File, home: Home) {
    var noted := home.At? && Holds(v, home.spot, SLOT) ==>
      && Holds(v', home.spot, SLOT)
      && var s, s' := Peek(v, home.spot, SLOT), Peek(v', home.spot, SLOT);
      && s'[..20] == s[..20]
      && ((FirstOf(s') == f'.first && SizeOf(s') == f'.size)
          || (s' == s && f'.size == f.size && (f.chain == [] || f'.first == f.first)));
    noted
  }

  /**
   Truncating a file of the volume to n bytes: on success the content is cut or zero-padded and the
   directory entry is up to date; otherwise the content is as before.
   */
  ghost predicate Truncated(g: Geo, v: View, f: File, home: Home, n: u32, r: Errno, v': View, f': File) {
    var truncated := FileOk(g, v, f, home) && (n < f.size ==> NoWrap(n, g.cs)) ==>
      && r in {Success, NoSpaceLeft, OutOfMemory}
      && FileStep(g, v, f, v', f', home)
      && Content(g, v', f') == (if r == Success then Resized(Content(g, v, f), n) else Content(g, v, f))
      && (r == Success ==> Synced(v', home, f'))
      && Noted(v, f, v', f', home)
      && (r == NoSpaceLeft ==> NoneFree(g, v'.table) && !Room(g, v, f.chain, n))
      && (r == Success ==> Room(g, v, f.chain, n));
    truncated && Emptied(g, v, f, home, n, r, v', f')
  }

  /** When the size computation of a shrink wraps, all clusters are freed and the entry claims n bytes of nothing. */
  ghost predicate Emptied(g: Geo, v: View, f: File, home: Home, n: u32, r: Errno, v': View, f': File) {
    var emptied := FileOk(g, v, f, home) && n < f.size && !NoWrap(n, g.cs) ==>
      r == Success && f' == File(0, n, []) && v'.table == Cleared(v.table, f.chain) && Synced(v', home, f');
    emptied
  }

  /** Truncating leaves a file with the wanted content exactly when it does not shrink to a size that wraps. */
  lemma TruncateExact(g: Geo, v: View, f: File, home: Home, n: u32, v': View, f': File)
    requires FileOk(g, v, f, home) && Truncated(g, v, f, home, n, Success, v', f')
    ensures (FileOk(g, v', f', home) && Content(g, v', f') == Resized(Content(g, v, f), n)) <==>
          (n < f.size ==> NoWrap(n, g.cs))
  {
    hide FileStep, IsChain, Noted, Synced, Cleared;
    if n < f.size && !NoWrap(n, g.cs) && FileOk(g, v', f', home) { NoBytes(g, v', f'.chain); }
    if n < f.size ==> NoWrap(n, g.cs) { StepOk(g, v, f, v', f', home); }
  }

  lemma StepOk(g: Geo, v: View, f: File, v': View, f': File, home: Home)
    requires FileStep(g, v, f, v', f', home)
    ensures FileOk(g, v', f', home)
  {
  }

  lemma NoBytes(g: Geo, v: View, chain: seq<nat>)
    requires chain == [] && Sized(g, v.data)
    ensures |Bytes(g, v.data, chain)| == 0
  {
  }

  /** Before the size is stored: the chain and the bytes are those of the new size. */
  ghost predicate Resizing(g: Geo, v: View, f: File, home: Home, n: u32, r: Errno, v': View, first': nat,
      chain': seq<nat>) {
    var resizing := FileOk(g, v, f, home) && (n < f.size ==> NoWrap(n, g.cs)) ==>
      && r in {Success, NoSpaceLeft, OutOfMemory}
      && (var f' := File(first', if r == Success then n else f.size, chain');
          && FileStep(g, v, f, v', f', home)
          && Content(g, v', f') == if r == Success then Resized(Content(g, v, f), n) else Content(g, v, f))
      && (r != Success && f.chain != [] ==> first' == f.first)
      && (r == NoSpaceLeft ==> NoneFree(g, v'.table) && !Room(g, v, f.chain, n))
      && (r == Success ==> Room(g, v, f.chain, n));
    resizing && Wrapped(g, v, f, home, n, r, v', first', chain')
  }

  ghost predicate Wrapped(g: Geo, v: View, f: File, home: Home, n: u32, r: Errno, v': View, first': nat,
      chain': seq<nat>) {
    var wrapped := FileOk(g, v, f, home) && n < f.size && !NoWrap(n, g.cs) ==>
      r == Success && v' == v.(table := Cleared(v.table, f.chain)) && first' == 0 && chain' == [];
    wrapped
  }

  lemma Unchanged(g: Geo, v: View, f: File, home: Home)
    requires FileOk(g, v, f, home)
    ensures FileStep(g, v, f, v, f, home)
  {
    assert f.chain + f.chain == f.chain + f.chain;
  }

  lemma ResizeCases(g: Geo, v: View, f: File, home: Home, n: u32, r: Errno, v': View, first': nat, chain': seq<nat>)
    requires n < f.size ==> Shrunk(g, v, f, home, n, r, v', first', chain')
    requires n > f.size ==> Stretched(g, v, f, home, n, r, v', first', chain')
    requires n == f.size ==> r == Success && v' == v && first' == f.first && chain' == f.chain
    ensures Resizing(g, v, f, home, n, r, v', first', chain')
  {
    if FileOk(g, v, f, home) && n == f.size { Unchanged(g, v, f, home); }
    if FileOk(g, v, f, home) && n <= f.size { RoomInside(g, v, f, home, n); }
  }

  /** A file has room for what it holds. */
  lemma RoomInside(g: Geo, v: View, f: File, home: Home, n: nat)
    requires FileOk(g, v, f, home) && n <= f.size
    ensures Room(g, v, f.chain, n)
  {
    if n > 0 {
      BytesLength(g, v.data, f.chain);
      ClustersFor(n, g.cs, |f.chain|);
    }
  }

  lemma FileAnywhere(g: Geo, v: View, f: File, home: Home)
    requires FileOk(g, v, f, home)
    ensures FileOk(g, v, f, Nowhere)
  {
  }

  ghost predicate SameEntry(v: View, v': View, home: Home) {
    home.At? ==>
          Holds(v, home.spot, SLOT) && Holds(v', home.spot, SLOT)
          && Peek(v', home.spot, SLOT) == Peek(v, home.spot, SLOT)
  }

  /** A step that touches no entry at all is a step of the file wherever its entry is, and leaves the entry alone. */
  lemma HomeStep(g: Geo, v: View, f: File, v': View, f': File, home: Home)
    requires FileOk(g, v, f, home) && FileStep(g, v, f, v', f', Nowhere)
    ensures FileStep(g, v, f, v', f', home) && SameEntry(v, v', home)
  {
    hide IsChain, Bytes;
  }

  lemma TruncateFailed(g: Geo, v: View, f: File, home: Home, n: u32, r: Errno, v': View, first': nat, chain': seq<nat>)
    requires Resizing(g, v, f, Nowhere, n, r, v', first', chain') && r != Success
    ensures Truncated(g, v, f, home, n, r, v', File(first', f.size, chain'))
  {
    hide FileStep, FileOk, SameEntry, Content, FirstOf, SizeOf;
    if FileOk(g, v, f, home) {
      FileAnywhere(g, v, f, home);
      HomeStep(g, v, f, v', File(first', f.size, chain'), home);
      EntryNoted(v, f, v', File(first', f.size, chain'), home);
    }
  }

  lemma EntryNoted(v: View, f: File, v': View, f': File, home: Home)
    requires SameEntry(v, v', home) && f'.size == f.size && (f.chain == [] || f'.first == f.first)
    ensures Noted(v, f, v', f', home)
  {
  }

  /** The entry's name, kind and dates are those it had. */
  ghost predicate Titled(v: View, v': View, home: Home) {
    home.At? && Holds(v, home.spot, SLOT) ==>
          Holds(v', home.spot, SLOT) && Peek(v', home.spot, SLOT)[..20] == Peek(v, home.spot, SLOT)[..20]
  }

  lemma SameTitle(v: View, v': View, home: Home)
    requires SameEntry(v, v', home)
    ensures Titled(v, v', home)
  {
  }

  lemma PeekPoke(v: View, spot: Spot, p: seq<byte>)
    requires Holds(v, spot, |p|)
    ensures Holds(Poke(v, spot, p), spot, |p|) && Peek(Poke(v, spot, p), spot, |p|) == p
  {
  }

  lemma RecordedSynced(v: View, home: Home, f: File)
    requires home.At? ==> Holds(v, home.spot, SLOT)
    requires f.first < U32 && f.size < U32
    ensures Synced(Recorded(v, home, f.first, f.size), home, f)
  {
    if home.At? {
      ExtentReadsBack(Peek(v, home.spot, SLOT), f.first, f.size);
      PeekPoke(v, home.spot, WithExtent(Peek(v, home.spot, SLOT), f.first, f.size));
    }
  }

  lemma RecordedTable(v: View, home: Home, first: u32, size: u32)
    requires home.At? ==> Holds(v, home.spot, SLOT)
    ensures Recorded(v, home, first, size).table == v.table
  {
  }

  lemma RecordedNoted(v: View, f: File, v1: View, home: Home, f1: File)
    requires Titled(v, v1, home) && (home.At? ==> Holds(v1, home.spot, SLOT)) && f1.first < U32 && f1.size < U32
    ensures Noted(v, f, Recorded(v1, home, f1.first, f1.size), f1, home)
  {
    if home.At? && Holds(v, home.spot, SLOT) {
      hide WithExtent, FirstOf, SizeOf;
      ExtentReadsBack(Peek(v1, home.spot, SLOT), f1.first, f1.size);
      PeekPoke(v1, home.spot, WithExtent(Peek(v1, home.spot, SLOT), f1.first, f1.size));
    }
  }

  lemma TruncateDone(g: Geo, v: View, f: File, home: Home, n: u32, v': View, first': u32, chain': seq<nat>)
    requires Resizing(g, v, f, Nowhere, n, Success, v', first', chain') && (home.At? ==> Holds(v', home.spot, SLOT))
    ensures Truncated(g, v, f, home, n, Success, Recorded(v', home, first', n), File(first', n, chain'))
  {
    hide FileStep, FileOk, SameEntry, Content, FirstOf, SizeOf, Recorded, Titled, Noted, Synced;
    RecordedSynced(v', home, File(first', n, chain'));
    RecordedTable(v', home, first', n);
    if FileOk(g, v, f, home) { FileAnywhere(g, v, f, home); }
    if FileOk(g, v, f, home) && (n < f.size ==> NoWrap(n, g.cs)) {
      HomeStep(g, v, f, v', File(first', n, chain'), home);
      SameTitle(v, v', home);
      RecordedNoted(v, f, v', home, File(first', n, chain'));
      RecordStep(g, v, f, v', File(first', n, chain'), home);
    }
  }

  /** The part of fat_truncate_vn before the new size is stored. */
  method Resize(vol: Volume, node: FatNode, ghost home: Home, n: u32, ghost chain: seq<nat>)
      returns (r: Errno, ghost chain': seq<nat>)
    requires vol.Ready()
    modifies vol, node`firstCluster
    ensures vol.Ready() && (vol.granted ==> r != OutOfMemory)
    ensures Resizing(GeoOf(vol.sb), old(vol.view), old(FileOf(node, chain)), home, n, r, vol.view, node.firstCluster,
        chain')
  {
    hide Volume.Ready, Shrunk, Stretched, Resizing;
    ghost var f := FileOf(node, chain);
    r, chain' := Success, chain;
    if n < node.size {
      r, chain' := Shrink(vol, node, f, home, n);
    } else if n > node.size {
      r, chain' := Grow(vol, node, f, home, n);
    }
    ResizeCases(GeoOf(vol.sb), old(vol.view), f, home, n, r, vol.view, node.firstCluster, chain');
  }

  method Truncate(vol: Volume, node: FatNode, n: u32, ghost chain: seq<nat>) returns (r: Errno, ghost chain': seq<nat>)
    requires vol.Ready() && Placed(vol.sb, node)
    modifies vol, node`firstCluster, node`size
    ensures vol.Ready() && HomeOf(vol.sb, node) == old(HomeOf(vol.sb, node))
    ensures vol.granted ==> r != OutOfMemory
    ensures r == Success ==> node.size == n
    ensures r != Success ==> node.size == old(node.size)
    ensures Truncated(GeoOf(vol.sb), old(vol.view), old(FileOf(node, chain)), HomeOf(vol.sb, node), n, r, vol.view,
        FileOf(node, chain'))
  {
    hide Volume.Ready, HoldsEntries, SpotOf, Resizing, Truncated, Recorded, Holds;
    ghost var g, v, f, home := GeoOf(vol.sb), vol.view, FileOf(node, chain), HomeOf(vol.sb, node);
    r, chain' := Resize(vol, node, Nowhere, n, chain);
    if r != Success {
      TruncateFailed(g, v, f, home, n, r, vol.view, node.firstCluster, chain');
      return;
    }
    node.size := n;
    ghost var v1 := vol.view;
    r := UpdateDirent(vol, node);
    TruncateDone(g, v, f, home, n, v1, node.firstCluster, chain');
  }

  /** A write at off: bytes between the old end and off read as zero. */
  function Overwritten(s: seq<byte>, off: nat, buf: seq<byte>): (r: seq<byte>)
    ensures |r| == Max(|s|, off + |buf|)
  {
    Splice(Resized(s, Max(|s|, off + |buf|)), off, buf)
  }

  /** A write is refused for space exactly when its end leaves 32 bits or the free clusters do not reach it. */
  ghost predicate Settled(g: Geo, v: View, f: File, off: nat, buf: seq<byte>, r: Errno) {
    && (buf == [] ==> r == Success)
    && (buf != [] && off + |buf| >= U32 ==> r == NoSpaceLeft)
    && (buf != [] && off + |buf| < U32 && r == Success ==> Room(g, v, f.chain, off + |buf|))
    && (buf != [] && off + |buf| < U32 && r == NoSpaceLeft ==> !Room(g, v, f.chain, off + |buf|))
  }

  /**
   Writing to a file of the volume: on success the bytes are in place, zeros fill any gap, and the
   directory entry is up to date; otherwise the file is as before or at most padded with zeros.
   */
  ghost predicate Written(g: Geo, v: View, f: File, home: Home, off: nat, buf: seq<byte>, r: Errno, v': View,
      f': File) {
    var written := FileOk(g, v, f, home) ==>
      && r in {Success, NoSpaceLeft, OutOfMemory}
      && FileStep(g, v, f, v', f', home)
      && (r == Success ==>
            Content(g, v', f') == (if buf == [] then Content(g, v, f) else Overwritten(Content(g, v, f), off, buf)))
      && (r == Success && buf != [] ==> Synced(v', home, f'))
      && Noted(v, f, v', f', home)
      && (r != Success ==>
            Content(g, v', f') in {Content(g, v, f), Resized(Content(g, v, f), Max(f.size, off + |buf|))})
      && Settled(g, v, f, off, buf, r);
    written
  }

  /** Half-way through the write, on the volume v1 the file was first grown on. */
  ghost predicate Writing(g: Geo, v: View, f: File, home: Home, v1: View, f1: File, off: nat, buf: seq<byte>, v2: View,
      done: nat) {
    var writing := done <= |buf| && (FileOk(g, v, f, home) ==>
      && Room(g, v, f.chain, off + |buf|)
      && FileStep(g, v, f, v1, f1, home) && f1.size == Max(f.size, off + |buf|)
      && Content(g, v1, f1) == Resized(Content(g, v, f), f1.size) && Titled(v, v1, home)
      && Patched(g, v1, f1.chain, v2, off, buf[..done]));
    writing
  }

  lemma WriteRefused(g: Geo, v: View, f: File, home: Home, off: nat, buf: seq<byte>)
    ensures buf != [] && off + |buf| >= U32 ==> Written(g, v, f, home, off, buf, NoSpaceLeft, v, f)
    ensures buf == [] ==> Written(g, v, f, home, off, buf, Success, v, f)
  {
    if FileOk(g, v, f, home) { Unchanged(g, v, f, home); }
  }

  lemma WriteNotGrown(g: Geo, v: View, f: File, home: Home, off: nat, buf: seq<byte>, r: Errno, v': View, f': File)
    requires buf != [] && off + |buf| < U32 && off + |buf| > f.size
    requires Truncated(g, v, f, home, off + |buf|, r, v', f') && r != Success
    ensures Written(g, v, f, home, off, buf, r, v', f')
  {
    hide FileStep, Content, Noted, Synced, Room, Resized;
  }

  lemma WriteStart(g: Geo, v: View, f: File, home: Home, off: nat, buf: seq<byte>, v1: View, f1: File)
    requires buf != [] && off + |buf| < U32
    requires if off + |buf| > f.size then Truncated(g, v, f, home, off + |buf|, Success, v1, f1) else v1 == v && f1 == f
    ensures Writing(g, v, f, home, v1, f1, off, buf, v1, 0)
    ensures Written(g, v, f, home, off, buf, OutOfMemory, v1, f1)
  {
    hide Room, Bytes, IsChain;
    if FileOk(g, v, f, home) {
      Unchanged(g, v, f, home);
      if off + |buf| <= f.size { RoomInside(g, v, f, home, off + |buf|); }
      NotYetPatched(g, v1, f1.first, f1.chain, off);
      assert buf[..0] == [];
    }
  }

  /** Where the next bytes go: inside the chain, so ensuring the cluster changes nothing. */
  lemma WriteNext(g: Geo, v: View, f: File, home: Home, v1: View, f1: File, off: nat, buf: seq<byte>, v2: View,
      done: nat)
    requires FileOk(g, v, f, home) && Writing(g, v, f, home, v1, f1, off, buf, v2, done) && done < |buf|
    ensures IsChain(g, v2.table, f1.first, f1.chain) && Index(off + done, g.cs) < |f1.chain|
  {
    hide Room, Bytes, Titled, Resized, Content;
    Locate(g, v1.data, f1.chain, off + done);
  }

  lemma WriteStep(g: Geo, v: View, f: File, home: Home, v1: View, f1: File, off: nat, buf: seq<byte>, v2: View,
      done: nat, amount: nat)
    requires FileOk(g, v, f, home) && Writing(g, v, f, home, v1, f1, off, buf, v2, done) && done < |buf|
    requires amount == Min(g.cs - Offset(off + done, g.cs), |buf| - done)
    ensures Index(off + done, g.cs) < |f1.chain|
    ensures var c := f1.chain[Index(off + done, g.cs)];
            && g.Cluster(c) && |v2.data| == g.limit && |v2.data[c]| == g.cs
            && Writing(g, v, f, home, v1, f1, off, buf,
                       UpdateData(v2, c, Splice(v2.data[c], Offset(off + done, g.cs), buf[done..done + amount])),
                           done + amount)
  {
    hide IsChain, Bytes;
    var pos := off + |buf[..done]|;
    PatchedMore(g, v1, f1.chain, v2, off, buf[..done], Index(pos, g.cs), Offset(pos, g.cs), buf[done..done + amount]);
    assert buf[..done] + buf[done..done + amount] == buf[..done + amount];
  }

  lemma WriteTurn(g: Geo, v: View, f: File, home: Home, v1: View, f1: File, off: nat, buf: seq<byte>, v2: View,
      done: nat, amount: nat,
                  r: Errno, c: nat, v': View, first': nat, chain': seq<nat>)
    requires FileOk(g, v, f, home) && Writing(g, v, f, home, v1, f1, off, buf, v2, done) && done < |buf|
    requires amount == Min(g.cs - Offset(off + done, g.cs), |buf| - done)
    requires Ensured(g, v2, f1.first, f1.chain, Index(off + done, g.cs), r, c, v', first', chain')
    ensures r == Success && v' == v2 && first' == f1.first
    ensures g.Cluster(c) && |v2.data| == g.limit && |v2.data[c]| == g.cs
    ensures Writing(g, v, f, home, v1, f1, off, buf,
                    UpdateData(v2, c, Splice(v2.data[c], Offset(off + done, g.cs), buf[done..done + amount])),
                        done + amount)
  {
    hide Writing, Ensured, IsChain;
    WriteNext(g, v, f, home, v1, f1, off, buf, v2, done);
    EnsuredInside(g, v2, f1.first, f1.chain, Index(off + done, g.cs), r, c, v', first', chain');
    WriteStep(g, v, f, home, v1, f1, off, buf, v2, done, amount);
  }

  lemma NotWriting(g: Geo, v: View, f: File, home: Home, v1: View, f1: File, off: nat, buf: seq<byte>, v2: View,
      done: nat, r: Errno, f2: File)
    requires !FileOk(g, v, f, home)
    ensures done <= |buf| ==> Writing(g, v, f, home, v1, f1, off, buf, v2, done)
    ensures Written(g, v, f, home, off, buf, r, v2, f2)
  {
  }

  /** Once all bytes are in and the entry is recorded, the content is the overwritten one. */
  lemma WriteDone(g: Geo, v: View, f: File, home: Home, v1: View, f1: File, off: nat, buf: seq<byte>, v2: View)
    requires buf != [] && off + |buf| < U32 && f1.first < U32 && f1.size < U32
    requires Writing(g, v, f, home, v1, f1, off, buf, v2, |buf|) && (home.At? ==> Holds(v2, home.spot, SLOT))
    ensures Written(g, v, f, home, off, buf, Success, Recorded(v2, home, f1.first, f1.size), f1)
  {
    hide Noted, Titled, Recorded, Synced, FileOk, FileStep, Content, Bytes, FirstOf, SizeOf;
    RecordedSynced(v2, home, f1);
    if FileOk(g, v, f, home) {
      assert buf[..|buf|] == buf;
      PatchTitled(g, v, f, v1, f1, home, v2, off, buf);
      RecordedNoted(v, f, v2, home, f1);
      PatchStep(g, v, f, v1, f1, home, v2, off, buf, f1.size);
      assert f1.(size := f1.size) == f1;
      RecordStep(g, v, f, v2, f1, home);
      SpliceInPrefix(Bytes(g, v1.data, f1.chain), f1.size, off, buf);
    }
  }

  /** Patching a file's own clusters does not touch its entry. */
  lemma PatchTitled(g: Geo, v: View, f: File, v1: View, f1: File, home: Home, v2: View, at: nat, p: seq<byte>)
    requires FileStep(g, v, f, v1, f1, home) && Patched(g, v1, f1.chain, v2, at, p) && Titled(v, v1, home)
    ensures Titled(v, v2, home) && f1.size <= |Bytes(g, v1.data, f1.chain)| == |Bytes(g, v2.data, f1.chain)|
    ensures Content(g, v1, f1) == Bytes(g, v1.data, f1.chain)[..f1.size]
  {
    hide Bytes, IsChain;
  }

  lemma SpliceInPrefix(b: seq<byte>, n: nat, o: nat, p: seq<byte>)
    requires o + |p| <= n <= |b|
    ensures Splice(b, o, p)[..n] == Splice(b[..n], o, p)
  {
  }

  /** One turn of the write loop: read the cluster, copy the bytes in, write it back. */
  method WriteChunk(vol: Volume, node: FatNode, ghost v: View, ghost f: File, ghost home: Home, ghost v1: View,
      ghost f1: File,
                    off: u32, buf: seq<byte>, done: nat)
    returns (r: Errno, done': nat)
    requires vol.Ready() && done < |buf| && off + |buf| < U32 && node.firstCluster == f1.first
    requires Writing(GeoOf(vol.sb), v, f, home, v1, f1, off, buf, vol.view, done)
    modifies vol, node`firstCluster
    ensures vol.Ready() && (if r == Success then done < done' <= |buf| else done' == done)
    ensures vol.granted ==> r != OutOfMemory
    ensures FileOk(GeoOf(vol.sb), v, f, home) ==>
      r == Success && node.firstCluster == f1.first
          && Writing(GeoOf(vol.sb), v, f, home, v1, f1, off, buf, vol.view, done')
  {
    hide Volume.Ready, Geo.Ok, FileOk, Writing, Ensured, Index, Offset;
    GeoIsOk(vol);
    ghost var g, v2 := GeoOf(vol.sb), vol.view;
    var cs := vol.sb.ClusterSize();
    var o := Offset(off + done, cs);
    var amount := if cs - o > |buf| - done then |buf| - done else cs - o;
    done' := done;
    var cluster, data;
    ghost var chain';
    r, cluster, chain' := EnsureCluster(vol, node, Index(off + done, cs), f1.chain);
    if FileOk(g, v, f, home) {
      WriteTurn(g, v, f, home, v1, f1, off, buf, v2, done, amount, r, cluster, vol.view, node.firstCluster, chain');
    }
    if r == Success {
      r, data := vol.ReadCluster(cluster);
      if r == Success {
        GeoIsOk(vol);
        vol.Put(cluster, Splice(data, o, buf[done..done + amount]));
        done' := done + amount;
      }
    }
  }

  /** The write loop, then the directory entry. */
  method WriteBytes(vol: Volume, node: FatNode, ghost v: View, ghost f: File, ghost home: Home, ghost f1: File,
      off: u32, buf: seq<byte>)
    returns (r: Errno)
    requires vol.Ready() && Placed(vol.sb, node) && home == HomeOf(vol.sb, node)
    requires buf != [] && off + |buf| < U32 && off + |buf| <= node.size && f1.first == node.firstCluster
        && f1.size == node.size
    requires Writing(GeoOf(vol.sb), v, f, home, vol.view, f1, off, buf, vol.view, 0)
    modifies vol, node`firstCluster
    ensures vol.Ready() && (vol.granted ==> r != OutOfMemory)
    ensures Written(GeoOf(vol.sb), v, f, home, off, buf, r, vol.view, f1.(first := node.firstCluster))
  {
    hide Volume.Ready, HoldsEntries, SpotOf, FileOk, Writing, Written, Recorded, Holds;
    ghost var g, v1 := GeoOf(vol.sb), vol.view;
    ghost var ok := FileOk(g, v, f, home);
    r := Success;
    var done: nat := 0;
    while r == Success && done < |buf|
      invariant vol.Ready() && done <= |buf| && (vol.granted ==> r != OutOfMemory)
      invariant ok ==>
            r == Success && node.firstCluster == f1.first && Writing(g, v, f, home, v1, f1, off, buf, vol.view, done)
      decreases |buf| - done, r == Success
    {
      ghost var fk := f1.(first := node.firstCluster);
      if !ok { NotWriting(g, v, f, home, v1, fk, off, buf, vol.view, done, r, f1); }
      r, done := WriteChunk(vol, node, v, f, home, v1, fk, off, buf, done);
    }
    ghost var v2 := vol.view;
    var metadata := UpdateDirent(vol, node);
    if r == Success { r := metadata; }
    if ok {
      WriteDone(g, v, f, home, v1, f1, off, buf, v2);
    } else {
      NotWriting(g, v, f, home, v1, f1, off, buf, vol.view, done, r, f1.(first := node.firstCluster));
    }
  }

  method Write(vol: Volume, node: FatNode, off: u32, buf: seq<byte>, ghost chain: seq<nat>)
      returns (r: Errno, ghost chain': seq<nat>)
    requires vol.Ready() && Placed(vol.sb, node) && |buf| < U32
    modifies vol, node`firstCluster, node`size
    ensures vol.Ready() && HomeOf(vol.sb, node) == old(HomeOf(vol.sb, node))
    ensures vol.granted ==> r != OutOfMemory
    ensures Written(GeoOf(vol.sb), old(vol.view), old(FileOf(node, chain)), HomeOf(vol.sb, node), off, buf, r, vol.view,
        FileOf(node, chain'))
  {
    hide Volume.Ready, HoldsEntries, SpotOf, FileOk, Writing, Written, Truncated;
    ghost var g, v, f, home := GeoOf(vol.sb), vol.view, FileOf(node, chain), HomeOf(vol.sb, node);
    r, chain' := Success, chain;
    WriteRefused(g, v, f, home, off, buf);
    if |buf| == 0 { return; }
    if |buf| > 0xFFFF_FFFF - off {
      r := NoSpaceLeft;
      return;
    }
    if off + |buf| > node.size {
      r, chain' := Truncate(vol, node, off + |buf|, chain);
      if r != Success {
        WriteNotGrown(g, v, f, home, off, buf, r, vol.view, FileOf(node, chain'));
        return;
      }
    }
    WriteStart(g, v, f, home, off, buf, vol.view, FileOf(node, chain'));
    var memory := vol.Malloc();
    if !memory { r := OutOfMemory; return; }
    r := WriteBytes(vol, node, v, f, home, FileOf(node, chain'), off, buf);
  }
}
