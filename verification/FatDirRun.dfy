/**
 Whole runs of create, unlink, lookup, readdir, read, write and truncate by name in one directory refine the
 same calls on a finite map from names to byte strings and sub-directories.
 */
module FatDirRun {
  import opened Machine
  import opened FatLayout
  import opened FatChain
  import opened FatContent
  import opened FatVolume
  import opened FatFile
  import opened FatStep
  import opened FatIo
  import opened FatTruncate
  import opened FatWrite
  import opened FatName
  import opened FatSlots
  import opened FatSearch
  import opened FatFolder
  import opened FatIter
  import opened FatFree
  import opened FatEntry
  import opened FatDir
  import opened FatUnlink
  import opened FatOwn
  import opened FatShelf

  datatype DirOp =
    | MakeOp(name: seq<byte>, isDir: bool)
    | RemoveOp(name: seq<byte>)
    | FindOp(name: seq<byte>)
    | ListOp(index: nat)
    | ReadOp(name: seq<byte>, off: nat, len: nat)
    | WriteOp(name: seq<byte>, off: nat, buf: seq<byte>)
    | TruncateOp(name: seq<byte>, n: u32)

  /** Parts of a create its specification speaks about: the volume in between, the entry's place and first cluster. */
  datatype Witness = Witness(mid: View, lba: nat, o: nat, c: u32)

  /**
   One call: what it was, whether memory was granted, what it returned, what the lookup in it came to and found, the
   name, kind or bytes it delivered, and the file a node describes afterwards.
   */
  datatype DirEvent = DirEvent(op: DirOp, granted: bool, r: Errno, looked: Errno, found: Found, name: seq<byte>,
      isDir: bool, out: seq<byte>, f: File, w: Witness)

  /** A call on the file of a name: look the name up, refuse directories, then the call proper. */
  ghost predicate OnFile(sb: Super, first: u32, s: DirState, name: seq<byte>, e: DirEvent, s': DirState) {
    && s'.dir == s.dir && LookedUp(sb, s.v, first, s.dir, name, e.looked, e.found)
    && (e.granted ==> e.looked != OutOfMemory)
    && (e.looked != Success ==> e.r == e.looked && s' == s)
    && (e.looked == Success && IsDirectory(e.found.slot) ==> e.r == InvalidArgument && s' == s)
  }

  /** What the methods guarantee about one call, and no more. */
  ghost predicate Happens(sb: Super, first: u32, s: DirState, e: DirEvent, s': DirState) {
    (e.granted ==> e.r != OutOfMemory) &&
    match e.op
    case MakeOp(name, isDir) =>
          Created(sb, s.v, first, s.dir, name, isDir, e.r, e.w.mid, s'.v, s'.dir, e.w.lba, e.w.o, e.w.c)
    case RemoveOp(name) =>
      var chain := ChainAt(sb, first, s, name);
      s'.dir == s.dir && Unlinked(sb, s.v, first, s.dir, name, chain, Sub(chain), e.r, s'.v)
    case FindOp(name) => s' == s && LookedUp(sb, s.v, first, s.dir, name, e.r, e.found)
    case ListOp(index) => s' == s && Enumerated(sb, s.v, first, s.dir, index, e.r, e.name, e.isDir)
    case ReadOp(name, off, len) =>
      && s' == s && OnFile(sb, first, s, name, e, s')
      && (e.looked == Success && !IsDirectory(e.found.slot) ==>
            ReadResult(GeoOf(sb), s.v, FileAt(sb, s.v, e.found.slot), off, len, e.r, e.out))
    case WriteOp(name, off, buf) =>
      && OnFile(sb, first, s, name, e, s')
      && (e.looked == Success && !IsDirectory(e.found.slot) && HoldsEntries(sb, e.found.lba) ==>
            Written(GeoOf(sb), s.v, FileAt(sb, s.v, e.found.slot), At(SpotOf(sb, e.found.lba, e.found.offset)), off,
                buf, e.r, s'.v, e.f))
    case TruncateOp(name, n) =>
      && OnFile(sb, first, s, name, e, s')
      && (e.looked == Success && !IsDirectory(e.found.slot) && HoldsEntries(sb, e.found.lba) ==>
            Truncated(GeoOf(sb), s.v, FileAt(sb, s.v, e.found.slot), At(SpotOf(sb, e.found.lba, e.found.offset)), n,
                e.r, s'.v, e.f))
  }

  /**
   The calls the claim is about: a name to create does not end in a dot, "." and ".." are not unlinked, and a
   file is not shrunk to a size whose rounding to clusters wraps.
   */
  predicate Proper(sb: Super, e: DirEvent) {
    && (e.op.MakeOp? && Fits83(e.op.name) ==> e.op.name[|e.op.name| - 1] != DOT)
    && (e.op.RemoveOp? ==> NotDot(UpAll(e.op.name)))
    && (e.op.TruncateOp? && e.looked == Success && e.op.n < SizeOf(e.found.slot) ==> NoWrap(e.op.n, sb.ClusterSize()))
  }

  /** The call on the file of a name, as the map sees it: no such name, a directory, or a file with these bytes. */
  ghost predicate ByName(a: Shelf, k: Label, e: DirEvent, b: Shelf) {
    && (e.looked in {Success, NotFound, OutOfMemory}) && (e.looked == NotFound ==> k !in a.names)
    && (e.looked != Success ==> e.r == e.looked && b == a)
    && (e.looked == Success ==> k in a.names && (IsDirectory(a.names[k]) ==> e.r == InvalidArgument && b == a))
    && (e.looked == Success && !IsDirectory(a.names[k]) ==> k in a.items && a.items[k].Data?)
  }

  ghost predicate IsFile(a: Shelf, k: Label, e: DirEvent) {
    e.looked == Success && k in a.names && !IsDirectory(a.names[k]) && k in a.items && a.items[k].Data?
  }

  /** The same call on names, their order and what they stand for. */
  ghost predicate Allowed(sb: Super, first: u32, a: Shelf, e: DirEvent, b: Shelf) {
    match e.op
    case MakeOp(name, isDir) =>
      var k := UpAll(name);
      if e.r == Success then
        && Fits83(name) && k !in a.names && 2 * SLOT <= sb.ClusterSize()
        && var s := NewSlot(Packed(name), Attr(isDir), e.w.c);
        && b.names == a.names[k := s] && Inserted(a.order, s, b.order)
        && b.items == a.items[k := if isDir then SubDir(Chop(DotCluster(e.w.c, first, sb.ClusterSize()))) else Data([])]
        && IsDirectory(s) == isDir && SizeOf(s) == 0 && FirstOf(s) == e.w.c
      else b == a && (e.r == AlreadyExists ==> k in a.names)
    case RemoveOp(name) =>
      var k := UpAll(name);
      if e.r == Success then
        && k in a.names && k in a.items && b.names == a.names - {k} && b.items == a.items - {k}
            && Dropped(a.order, a.names[k], b.order)
        && (a.items[k].SubDir? ==> OnlyDots(a.items[k].slots))
      else
        && b == a && (e.r == NotFound ==> k !in a.names)
        && (e.r == DirectoryNotEmpty ==> k in a.items && a.items[k].SubDir? && !OnlyDots(a.items[k].slots))
    case FindOp(name) =>
      && b == a && (e.r == NotFound ==> UpAll(name) !in a.names)
      && (e.r == Success ==> UpAll(name) in a.names && a.names[UpAll(name)] == e.found.slot)
    case ListOp(index) =>
      && b == a && (e.r == NotFound ==> index >= |a.names|)
      && (e.r == Success ==>
            index < |a.names| == |a.order| && e.name == Name(a.order[index]) && e.isDir == IsDirectory(a.order[index]))
    case ReadOp(name, off, len) =>
      && b == a && ByName(a, UpAll(name), e, b)
      && (IsFile(a, UpAll(name), e) && e.r == Success ==> e.out == Slice(a.items[UpAll(name)].bytes, off, len))
    case WriteOp(name, off, buf) =>
      && ByName(a, UpAll(name), e, b)
      && (IsFile(a, UpAll(name), e) ==>
            var was := a.items[UpAll(name)].bytes;
            if e.r == Success then Changed(a, UpAll(name), if buf == [] then was else Overwritten(was, off, buf), b)
            else Changed(a, UpAll(name), was, b) || Changed(a, UpAll(name), Resized(was, Max(|was|, off + |buf|)), b))
    case TruncateOp(name, n) =>
      && ByName(a, UpAll(name), e, b)
      && (IsFile(a, UpAll(name), e) ==>
            var was := a.items[UpAll(name)].bytes;
            Changed(a, UpAll(name), if e.r == Success then Resized(was, n) else was, b))
  }

  lemma MakeRefines(sb: Super, first: u32, s: DirState, e: DirEvent, s': DirState)
    requires Sane(sb, first, s) && Proper(sb, e) && Happens(sb, first, s, e, s') && e.op.MakeOp?
    ensures Sane(sb, first, s') && Allowed(sb, first, ShelfOf(sb, first, s), e, ShelfOf(sb, first, s'))
  {
    hide Sane, ShelfOf, UpAll, Created, Fits83, NewSlot, Packed, SizeOf, FirstOf, IsDirectory, Inserted, Chop,
        DotCluster;
    if e.r == Success {
      MakeDone(sb, first, s, e.op.name, e.op.isDir, e.w.mid, s', e.w.lba, e.w.o, e.w.c);
    } else {
      MakeFailed(sb, first, s, e.op.name, e.op.isDir, e.r, e.w.mid, s', e.w.lba, e.w.o, e.w.c);
    }
  }

  lemma RemoveRefines(sb: Super, first: u32, s: DirState, e: DirEvent, s': DirState)
    requires Sane(sb, first, s) && Proper(sb, e) && Happens(sb, first, s, e, s') && e.op.RemoveOp?
    ensures Sane(sb, first, s') && Allowed(sb, first, ShelfOf(sb, first, s), e, ShelfOf(sb, first, s'))
  {
    hide Sane, ShelfOf, UpAll, Unlinked, ChainAt, Dropped, OnlyDots, NotDot;
    if e.r == Success { RemoveDone(sb, first, s, e.op.name, s');
          } else { RemoveFailed(sb, first, s, e.op.name, e.r, s'); }
  }

  lemma QueryRefines(sb: Super, first: u32, s: DirState, e: DirEvent, s': DirState)
    requires Sane(sb, first, s) && Happens(sb, first, s, e, s') && (e.op.FindOp? || e.op.ListOp?)
    ensures Sane(sb, first, s') && Allowed(sb, first, ShelfOf(sb, first, s), e, ShelfOf(sb, first, s'))
  {
    hide Dir, FolderOk, UpAll, Name, Key, FoundAt, Unique, Owned, Items, Listing, IsDirectory;
    ShelfOrderly(sb, first, s);
  }

  /** What the lookup at the start of a file call says about the names. */
  lemma LookedIs(sb: Super, first: u32, s: DirState, name: seq<byte>, e: DirEvent, s': DirState)
    requires Sane(sb, first, s) && OnFile(sb, first, s, name, e, s')
    ensures !(e.looked == Success && !IsDirectory(e.found.slot)) ==>
      Sane(sb, first, s') && ByName(ShelfOf(sb, first, s), UpAll(name), e, ShelfOf(sb, first, s'))
    ensures var a := ShelfOf(sb, first, s);
          e.looked == Success ==> UpAll(name) in a.names && a.names[UpAll(name)] == e.found.slot
    ensures e.looked in {Success, NotFound, OutOfMemory}
        && (e.looked == NotFound ==> UpAll(name) !in ShelfOf(sb, first, s).names)
  {
    hide Dir, FolderOk, UpAll, Name, Key, FoundAt, DirOk, Owned, Items, Listing, IsDirectory, Slots;
  }

  lemma ReadRefines(sb: Super, first: u32, s: DirState, e: DirEvent, s': DirState)
    requires Sane(sb, first, s) && Happens(sb, first, s, e, s') && e.op.ReadOp?
    ensures Sane(sb, first, s') && Allowed(sb, first, ShelfOf(sb, first, s), e, ShelfOf(sb, first, s'))
  {
    hide Sane, ShelfOf, UpAll, LookedUp, IsDirectory, FileIn, FileOk, Content, Slice, HoldsEntries, SpotOf, EntryOk,
        HomeIn, OwnOf, Holds, Peek;
    LookedIs(sb, first, s, e.op.name, e, s');
    if e.looked == Success && !IsDirectory(e.found.slot) {
      var i := FoundFile(sb, first, s, e.op.name, e.found);
      var spot := SpotOf(sb, e.found.lba, e.found.offset);
      FileSound(sb, first, s, UpAll(e.op.name), e.found.slot, i, spot);
      FileAnywhere(GeoOf(sb), s.v, FileAt(sb, s.v, e.found.slot), At(spot));
    }
  }

  lemma WriteRefines(sb: Super, first: u32, s: DirState, e: DirEvent, s': DirState)
    requires Sane(sb, first, s) && Happens(sb, first, s, e, s') && e.op.WriteOp?
    ensures Sane(sb, first, s') && Allowed(sb, first, ShelfOf(sb, first, s), e, ShelfOf(sb, first, s'))
  {
    hide Sane, ShelfOf, UpAll, LookedUp, IsDirectory, FileIn, FileOk, FileStep, Noted, Synced, Content, Overwritten,
        Resized, HoldsEntries, SpotOf, EntryOk,
      HomeIn, OwnOf, Holds, Peek, Changed, Bytes;
    LookedIs(sb, first, s, e.op.name, e, s');
    if e.looked == Success && !IsDirectory(e.found.slot) {
      var i := FoundFile(sb, first, s, e.op.name, e.found);
      var spot := SpotOf(sb, e.found.lba, e.found.offset);
      FileSound(sb, first, s, UpAll(e.op.name), e.found.slot, i, spot);
      FileChanged(sb, first, s, UpAll(e.op.name), e.found.slot, i, spot, s'.v, e.f);
      assert s' == DirState(s'.v, s.dir);
    }
  }

  lemma TruncateRefines(sb: Super, first: u32, s: DirState, e: DirEvent, s': DirState)
    requires Sane(sb, first, s) && Proper(sb, e) && Happens(sb, first, s, e, s') && e.op.TruncateOp?
    ensures Sane(sb, first, s') && Allowed(sb, first, ShelfOf(sb, first, s), e, ShelfOf(sb, first, s'))
  {
    hide Sane, ShelfOf, UpAll, LookedUp, IsDirectory, FileIn, FileOk, FileStep, Noted, Synced, Content, Resized,
        HoldsEntries, SpotOf, EntryOk,
      HomeIn, OwnOf, Holds, Peek, Changed, Bytes, SizeOf, FirstOf, NoWrap;
    LookedIs(sb, first, s, e.op.name, e, s');
    if e.looked == Success && !IsDirectory(e.found.slot) {
      var i := FoundFile(sb, first, s, e.op.name, e.found);
      var spot := SpotOf(sb, e.found.lba, e.found.offset);
      FileSound(sb, first, s, UpAll(e.op.name), e.found.slot, i, spot);
      FileChanged(sb, first, s, UpAll(e.op.name), e.found.slot, i, spot, s'.v, e.f);
      assert s' == DirState(s'.v, s.dir);
    }
  }

  lemma StepRefines(sb: Super, first: u32, s: DirState, e: DirEvent, s': DirState)
    requires Sane(sb, first, s) && Proper(sb, e) && Happens(sb, first, s, e, s')
    ensures Sane(sb, first, s') && Allowed(sb, first, ShelfOf(sb, first, s), e, ShelfOf(sb, first, s'))
        && Orderly(ShelfOf(sb, first, s'))
  {
    hide Sane, Proper, Happens, Allowed, Orderly;
    match e.op {
      case MakeOp(_, _) => MakeRefines(sb, first, s, e, s');
      case RemoveOp(_) => RemoveRefines(sb, first, s, e, s');
      case ReadOp(_, _, _) => ReadRefines(sb, first, s, e, s');
      case WriteOp(_, _, _) => WriteRefines(sb, first, s, e, s');
      case TruncateOp(_, _) => TruncateRefines(sb, first, s, e, s');
      case _ => QueryRefines(sb, first, s, e, s');
    }
    ShelfOrderly(sb, first, s');
  }

  /**
   What a call may answer: the one answer its arguments and the directory determine, or that memory is out. A create,
   write or truncate is refused for space exactly when the free clusters do not reach.
   */
  ghost predicate Answered(sb: Super, first: u32, s: DirState, e: DirEvent)
    requires Sane(sb, first, s)
  {
    var g, a := GeoOf(sb), ShelfOf(sb, first, s);
    && (e.granted ==> e.r != OutOfMemory)
    && match e.op
       case MakeOp(name, isDir) =>
         if !Fits83(name) then e.r in {InvalidArgument, NameTooLong}
         else if UpAll(name) in a.names then e.r in {AlreadyExists, OutOfMemory}
         else Made(g, sb.rootEntries, s.v, s.dir, isDir, e.r, e.w.mid)
       case RemoveOp(name) =>
         e.r in {OutOfMemory, if UpAll(name) !in a.names then NotFound
                              else if Busy(a, UpAll(name)) then DirectoryNotEmpty else Success}
       case FindOp(name) => e.r in {OutOfMemory, if UpAll(name) in a.names then Success else NotFound}
       case ListOp(index) => e.r in {OutOfMemory, if index < |a.names| then Success else NotFound}
       case ReadOp(name, off, len) =>
             Reached(a, UpAll(name), e) && (IsFile(a, UpAll(name), e) ==> e.r in {Success, OutOfMemory})
       case WriteOp(name, off, buf) =>
         && Reached(a, UpAll(name), e)
         && (IsFile(a, UpAll(name), e) ==>
               e.r in {Success, NoSpaceLeft, OutOfMemory}
                   && Settled(g, s.v, FileAt(sb, s.v, a.names[UpAll(name)]), off, buf, e.r))
       case TruncateOp(name, n) =>
         && Reached(a, UpAll(name), e)
         && (IsFile(a, UpAll(name), e) ==>
               var chain := FileAt(sb, s.v, a.names[UpAll(name)]).chain;
               && e.r in {Success, NoSpaceLeft, OutOfMemory}
               && (e.r == Success ==> Room(g, s.v, chain, n)) && (e.r == NoSpaceLeft ==> !Room(g, s.v, chain, n)))
  }

  /** The name stands for a directory that is not empty. */
  ghost predicate Busy(a: Shelf, k: Label) { k in a.items && a.items[k].SubDir? && !OnlyDots(a.items[k].slots) }

  /** The lookup in front of a file call finds every name there is, given memory. */
  ghost predicate Reached(a: Shelf, k: Label, e: DirEvent) {
    && e.looked in {OutOfMemory, if k in a.names then Success else NotFound} && (e.granted ==> e.looked != OutOfMemory)
    && (e.looked != Success ==> e.r == e.looked)
    && (e.looked == Success && k in a.names && IsDirectory(a.names[k]) ==> e.r == InvalidArgument)
    && (e.looked == Success && k in a.names && !IsDirectory(a.names[k]) ==> IsFile(a, k, e))
  }

  lemma MakeAnswered(sb: Super, first: u32, s: DirState, e: DirEvent, s': DirState)
    requires Sane(sb, first, s) && Happens(sb, first, s, e, s') && e.op.MakeOp?
    ensures Answered(sb, first, s, e)
  {
    hide Dir, FolderOk, UpAll, Made, Fits83, Owned, Items, Listing, Roomed, Idle, Added, Slots, DirOk, OwnOf;
  }

  lemma RemoveAnswered(sb: Super, first: u32, s: DirState, e: DirEvent, s': DirState)
    requires Sane(sb, first, s) && Proper(sb, e) && Happens(sb, first, s, e, s') && e.op.RemoveOp?
    ensures Answered(sb, first, s, e)
  {
    hide Sane, ShelfOf, UpAll, Unlinked, ChainAt, Dropped, OnlyDots, NotDot;
    RemoveRefines(sb, first, s, e, s');
    if e.r != Success { RemoveFailed(sb, first, s, e.op.name, e.r, s'); }
  }

  lemma QueryAnswered(sb: Super, first: u32, s: DirState, e: DirEvent, s': DirState)
    requires Sane(sb, first, s) && Happens(sb, first, s, e, s') && (e.op.FindOp? || e.op.ListOp?)
    ensures Answered(sb, first, s, e)
  {
    hide Dir, FolderOk, UpAll, Name, Key, FoundAt, Unique, Owned, Items, Listing, IsDirectory, OwnOf;
    ShelfOrderly(sb, first, s);
  }

  lemma ReachedIs(sb: Super, first: u32, s: DirState, name: seq<byte>, e: DirEvent, s': DirState)
    requires Sane(sb, first, s) && OnFile(sb, first, s, name, e, s')
    ensures Reached(ShelfOf(sb, first, s), UpAll(name), e)
    ensures var a := ShelfOf(sb, first, s);
            IsFile(a, UpAll(name), e) ==>
              && a.names[UpAll(name)] == e.found.slot && HoldsEntries(sb, e.found.lba)
              && FileOk(GeoOf(sb), s.v, FileAt(sb, s.v, e.found.slot), At(SpotOf(sb, e.found.lba, e.found.offset)))
  {
    hide Sane, ShelfOf, UpAll, LookedUp, IsDirectory, FileIn, FileOk, Content, HoldsEntries, SpotOf, EntryOk, HomeIn,
        OwnOf, Holds, Peek;
    LookedIs(sb, first, s, name, e, s');
    if e.looked == Success && !IsDirectory(e.found.slot) {
      var i := FoundFile(sb, first, s, name, e.found);
      FileSound(sb, first, s, UpAll(name), e.found.slot, i, SpotOf(sb, e.found.lba, e.found.offset));
    }
  }

  lemma FileAnswered(sb: Super, first: u32, s: DirState, e: DirEvent, s': DirState)
    requires Sane(sb, first, s) && Proper(sb, e) && Happens(sb, first, s, e, s')
    requires e.op.ReadOp? || e.op.WriteOp? || e.op.TruncateOp?
    ensures Answered(sb, first, s, e)
  {
    hide Sane, ShelfOf, UpAll, LookedUp, IsDirectory, FileOk, FileStep, Noted, Synced, Content, Overwritten, Resized,
        HoldsEntries, SpotOf, Emptied, Slice, Settled, Room, SizeOf, FirstOf, ChainFrom, NoWrap;
    ReachedIs(sb, first, s, e.op.name, e, s');
    if IsFile(ShelfOf(sb, first, s), UpAll(e.op.name), e) {
      FileAnywhere(GeoOf(sb), s.v, FileAt(sb, s.v, e.found.slot), At(SpotOf(sb, e.found.lba, e.found.offset)));
    }
  }

  lemma StepAnswered(sb: Super, first: u32, s: DirState, e: DirEvent, s': DirState)
    requires Sane(sb, first, s) && Proper(sb, e) && Happens(sb, first, s, e, s')
    ensures Answered(sb, first, s, e)
  {
    hide Sane, Proper, Happens, Answered;
    match e.op {
      case MakeOp(_, _) => MakeAnswered(sb, first, s, e, s');
      case RemoveOp(_) => RemoveAnswered(sb, first, s, e, s');
      case FindOp(_) => QueryAnswered(sb, first, s, e, s');
      case ListOp(_) => QueryAnswered(sb, first, s, e, s');
      case _ => FileAnswered(sb, first, s, e, s');
    }
  }

  ghost predicate Run(sb: Super, first: u32, states: seq<DirState>, events: seq<DirEvent>) {
    && |states| == |events| + 1
    && forall k ::
          0 <= k < |events| ==> Proper(sb, events[k]) && Happens(sb, first, states[k], events[k], states[k + 1])
  }

  /** In every run every call is a call on the shelf, every name is listed once, and the directory stays sane. */
  lemma {:induction false} RunRefines(sb: Super, first: u32, states: seq<DirState>, events: seq<DirEvent>, k: nat)
    requires Run(sb, first, states, events) && Sane(sb, first, states[0]) && k < |states|
    ensures Sane(sb, first, states[k]) && Orderly(ShelfOf(sb, first, states[k]))
    ensures k < |events| ==>
      Sane(sb, first, states[k + 1]) && Allowed(sb, first, ShelfOf(sb, first, states[k]), events[k],
          ShelfOf(sb, first, states[k + 1])) && Answered(sb, first, states[k], events[k])
  {
    hide Sane, Proper, Happens, Allowed, Orderly, Answered;
    if k > 0 { RunRefines(sb, first, states, events, k - 1); }
    ShelfOrderly(sb, first, states[k]);
    if k < |events| {
      StepRefines(sb, first, states[k], events[k], states[k + 1]);
      StepAnswered(sb, first, states[k], events[k], states[k + 1]);
    }
  }

  /** The events that can change what a name stands for: unlinking it, writing to it, or truncating it. */
  predicate Touches(e: DirEvent, k: Label) {
    (e.op.RemoveOp? || e.op.WriteOp? || e.op.TruncateOp?) && UpAll(e.op.name) == k
  }

  lemma UntouchedStep(sb: Super, first: u32, a: Shelf, e: DirEvent, b: Shelf, k: Label)
    requires Allowed(sb, first, a, e, b) && k in a.names && k in a.items && !Touches(e, k)
    ensures k in b.names && k in b.items && b.names[k] == a.names[k] && b.items[k] == a.items[k]
  {
    hide UpAll, NewSlot, Packed, Fits83, Inserted, Dropped, Replaced, Chop, DotCluster, Name, IsDirectory, OnlyDots,
        SizeOf, FirstOf;
  }

  /** A name keeps what it stands for through any calls on other names, whatever they make, remove or write. */
  lemma {:induction false} Untouched(sb: Super, first: u32, states: seq<DirState>, events: seq<DirEvent>, i: nat,
      j: nat, k: Label)
    requires Run(sb, first, states, events) && Sane(sb, first, states[0]) && i <= j < |states|
    requires Sane(sb, first, states[i]) && k in ShelfOf(sb, first, states[i]).names
        && k in ShelfOf(sb, first, states[i]).items
    requires forall n :: i <= n < j ==> !Touches(events[n], k)
    ensures Sane(sb, first, states[j])
    ensures var a, b := ShelfOf(sb, first, states[i]), ShelfOf(sb, first, states[j]);
            k in b.names && k in b.items && b.names[k] == a.names[k] && b.items[k] == a.items[k]
    decreases j - i
  {
    hide Sane, ShelfOf, Proper, Happens, Allowed, Orderly, Touches;
    if i < j {
      Untouched(sb, first, states, events, i, j - 1, k);
      RunRefines(sb, first, states, events, j - 1);
      UntouchedStep(sb, first, ShelfOf(sb, first, states[j - 1]), events[j - 1], ShelfOf(sb, first, states[j]), k);
    }
  }

  /** A name that was made and not removed or written since is there, an empty file or a directory with its two dots. */
  lemma MadeIsFound(sb: Super, first: u32, states: seq<DirState>, events: seq<DirEvent>, i: nat, j: nat)
    requires Run(sb, first, states, events) && Sane(sb, first, states[0]) && i < j < |states|
    requires events[i].op.MakeOp? && events[i].r == Success
    requires forall n :: i < n < j ==> !Touches(events[n], UpAll(events[i].op.name))
    ensures Sane(sb, first, states[j]) && 2 * SLOT <= sb.ClusterSize()
    ensures var k, b, e := UpAll(events[i].op.name), ShelfOf(sb, first, states[j]), events[i];
            && k in b.names && IsDirectory(b.names[k]) == e.op.isDir && FirstOf(b.names[k]) == e.w.c
                && SizeOf(b.names[k]) == 0
            && k in b.items && b.items[k] == if e.op.isDir then SubDir(Chop(DotCluster(e.w.c, first, sb.ClusterSize())))
                else Data([])
  {
    hide Sane, ShelfOf, Proper, Happens, Orderly, Touches, UpAll, IsDirectory, SizeOf, FirstOf, NewSlot, Packed, Fits83,
        Inserted, Chop, DotCluster;
    RunRefines(sb, first, states, events, i);
    Untouched(sb, first, states, events, i + 1, j, UpAll(events[i].op.name));
  }

  /** What a successful write left under a name is what a later read of that name gives, and a lookup finds its size. */
  lemma WrittenIsRead(sb: Super, first: u32, states: seq<DirState>, events: seq<DirEvent>, i: nat, j: nat)
    requires Run(sb, first, states, events) && Sane(sb, first, states[0]) && i < j < |events|
    requires events[i].op.WriteOp? && events[i].r == Success && events[i].looked == Success && events[i].op.buf != []
    requires events[j].op.ReadOp? && events[j].r == Success && UpAll(events[j].op.name) == UpAll(events[i].op.name)
    requires events[j].op.off == events[i].op.off && events[j].op.len == |events[i].op.buf|
    requires forall n :: i < n < j ==> !Touches(events[n], UpAll(events[i].op.name))
    ensures events[j].out == events[i].op.buf
  {
    hide Sane, ShelfOf, Proper, Happens, Orderly, Touches, UpAll, IsDirectory, Name, Replaced, SizeOf;
    var k := UpAll(events[i].op.name);
    RunRefines(sb, first, states, events, i);
    RunRefines(sb, first, states, events, j);
    Untouched(sb, first, states, events, i + 1, j, k);
    var was, off, buf := ShelfOf(sb, first, states[i]).items[k].bytes, events[i].op.off, events[i].op.buf;
    SliceOverwritten(was, off, buf);
  }

  lemma SliceOverwritten(s: seq<byte>, off: nat, buf: seq<byte>)
    requires buf != []
    ensures Slice(Overwritten(s, off, buf), off, |buf|) == buf
  {
    var r := Overwritten(s, off, buf);
    assert r[off..off + |buf|] == buf;
  }
}
