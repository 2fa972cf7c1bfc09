/** Offsets and contents over whole runs: only reads and writes through a file move its offset, and what was written
    stays to be read. */
module VfsOffsets {
  import opened Machine
  import opened Refs
  import opened RamTree
  import opened Ramfs
  import opened RamfsDir
  import opened VfsCalls
  import opened VfsOpen
  import opened VfsRun

  /** If a file is still there afterwards, it was there before, with the same offset. */
  ghost predicate OffKept(s: State, t: State, g: nat) {
    g in t.files ==> g in s.files && t.files[g].off == s.files[g].off
  }

  lemma UnrefOff(s: State, f: nat, g: nat)
    requires CanDrop(s, f)
    ensures OffKept(s, UnrefFile(s, f), g)
  {
  }

  lemma EmptiedOff(s: State, i: nat, g: nat)
    requires Good(s) && i < |s.fds| && s.fds[i] != 0
    ensures OffKept(s, Emptied(s, i), g)
  {
    hide Good, CanDrop, UnrefFile;
    SlotDroppable(s, i);
    UnrefOff(ClearFd(s, i), s.fds[i], g);
  }

  lemma HandleOff(s: State, h: nat, g: nat)
    requires Good(s)
    ensures OffKept(s, CloseHandle(s, h), g)
  {
    hide Good, CanDrop, UnrefFile;
    if h in s.handles {
      HandleDroppable(s, h);
      UnrefOff(s.(handles := s.handles - {h}), s.handles[h], g);
    }
  }

  lemma {:induction false} CloseFromOff(s: State, p: Pid, fd: nat, g: nat)
    requires Good(s) && fd <= FD_MAX
    ensures OffKept(s, CloseFrom(s, p, fd), g)
    decreases FD_MAX - fd
  {
    hide Good, Emptied, Slot;
    if fd < FD_MAX {
      GoodSized(s);
      SlotBound(p, fd);
      var i := Slot(p, fd);
      if s.fds[i] == 0 {
        CloseFromOff(s, p, fd + 1, g);
      } else {
        EmptiedIs(s, i);
        EmptiedOff(s, i, g);
        CloseFromOff(Emptied(s, i), p, fd + 1, g);
      }
    }
  }

  lemma AllocOff(s: State, p: Pid, f: nat, g: nat)
    requires Sized(s)
    ensures OffKept(s, FdAlloc(s, p, f).s, g)
  {
    hide FindFree;
  }

  lemma Dup2Off(s: State, p: Pid, oldfd: int, newfd: int, g: nat)
    requires Good(s)
    ensures OffKept(s, Dup2(s, p, oldfd, newfd).s, g)
  {
    hide Good, Emptied, Slot, Calm;
    GoodSized(s);
    if 0 <= newfd < FD_MAX {
      SlotBound(p, newfd);
      if s.fds[Slot(p, newfd)] != 0 {
        EmptiedIs(s, Slot(p, newfd));
        EmptiedOff(s, Slot(p, newfd), g);
      }
    }
  }

  lemma OpenFileOff(s: State, path: seq<string>, create: bool, mem: Memory, g: nat)
    requires Good(s) && g in s.files
    ensures OffKept(s, OpenFile(s, path, create, mem).s, g)
  {
    hide Good, Kept, Leads, Linked, LookupPath, MakePath, WalkedTo, Makeable, Plenty;
    var l := LookupPath(s, path, mem);
    var n := LookupPathIs(s, path, mem);
    var o := l;
    if l.r == Err(NotFound) && create {
      var m := MakePathIs(l.s, path, false, mem);
      o := MakePath(l.s, path, false, mem);
    }
    New(o.s);
  }

  lemma OpenOff(s: State, p: Pid, path: seq<string>, create: bool, mem: Memory, g: nat)
    requires Good(s) && g in s.files
    ensures OffKept(s, Open(s, p, path, create, mem).s, g)
  {
    hide Good, Kept, OpenFile, CloseHandle, FdAlloc, Leads, Linked;
    var o := OpenFile(s, path, create, mem);
    OpenFileOff(s, path, create, mem, g);
    var n := OpenFileIs(s, path, create, mem);
    if o.r.Ok? {
      GoodSized(o.s);
      FdAllocGood(o.s, p, o.r.value);
      AllocOff(o.s, p, o.r.value, g);
      HandleOff(FdAlloc(o.s, p, o.r.value).s, o.r.value, g);
    }
  }

  /** The file a call may move the offset of. */
  function Moves(s: State, c: Call): set<nat>
    requires Sized(s)
  {
    if c.op.OpWrite? || c.op.OpRead? then {FdGet(s, c.op.pid, c.op.fd)} else {}
  }

  lemma StepOff(s: State, c: Call, g: nat)
    requires Good(s) && Sized(s) && g in s.files && g !in Moves(s, c)
    ensures OffKept(s, Step(s, c).s, g)
  {
    hide Good, Kept, Open, OpenFile, MakePath, UnlinkPath, CloseHandle, FdClose, Dup2, CloseFrom, FdAlloc, FdGet, Leads,
        Linked, Makeable, Removable, Plenty, Has, IsOpen, Overwrite, CapFor, ReadBytes;
    match c.op
    case OpOpen(p, path, create) => OpenOff(s, p, path, create, c.mem, g);
    case OpOpenKernel(path, create) => OpenFileOff(s, path, create, c.mem, g);
    case OpCloseKernel(h) => HandleOff(s, h, g);
    case OpMkdir(path) => var n := MakePathIs(s, path, true, c.mem);
    case OpUnlink(path) => var d, n := UnlinkPathIs(s, path, c.mem);
    case OpClose(p, fd) => CloseOff(s, p, fd, g);
    case OpDup(p, fd) => AllocOff(s, p, FdGet(s, p, fd), g);
    case OpDup2(p, a, b) => Dup2Off(s, p, a, b, g);
    case OpReap(p) => CloseFromOff(s, p, 0, g);
    case _ =>
  }

  lemma CloseOff(s: State, p: Pid, fd: int, g: nat)
    requires Good(s)
    ensures OffKept(s, FdClose(s, p, fd).s, g)
  {
    hide Good, Emptied, Slot;
    GoodSized(s);
    if FdGet(s, p, fd) != 0 {
      SlotBound(p, fd);
      EmptiedOff(s, Slot(p, fd), g);
    }
  }

  /** The files whose offset a run may move. */
  function Moved(s: State, calls: seq<Call>): set<nat>
    requires Good(s)
    decreases |calls|
  {
    GoodSized(s);
    if calls == [] then {}
    else
      StepGood(s, calls[0]);
      Moves(s, calls[0]) + Moved(Step(s, calls[0]).s, calls[1..])
  }

  /** A file there before and after was there in between. */
  lemma NotReborn(s: State, t: State, u: State, w: set<nat>, x: set<nat>, f: nat)
    requires Good(s) && Kept(s, t, w) && Kept(t, u, x) && f in s.files && f in u.files
    ensures f in t.files
  {
    hide Inv, Tree, Accounted, RootsKept;
  }

  /** Over every run a file that stays open keeps its offset unless a read or write goes through it. */
  lemma {:induction false} OffsetKept(s: State, calls: seq<Call>, f: nat)
    requires Good(s) && f in s.files && f in Run(s, calls).files && f !in Moved(s, calls)
    ensures Run(s, calls).files[f].off == s.files[f].off
    decreases |calls|
  {
    hide Good, Kept, Step, Moves, Written, Touched;
    if calls != [] {
      var t := Step(s, calls[0]).s;
      GoodSized(s);
      StepGood(s, calls[0]);
      RunGood(t, calls[1..]);
      NotReborn(s, t, Run(t, calls[1..]), Touched(s, calls[0]), Written(t, calls[1..]), f);
      StepOff(s, calls[0], f);
      OffsetKept(t, calls[1..], f);
    }
  }

  /** The state a call leaves. */
  ghost function After(s: State, c: Call): (t: State)
    requires Good(s)
    ensures Good(t)
  {
    StepGood(s, c);
    Step(s, c).s
  }

  lemma WroteSame(s: State, c: Call)
    requires Good(s) && Sized(s) && c.op.OpWrite? && c.op.bytes != [] && Step(s, c).r.Ok?
    ensures var f := FdGet(s, c.op.pid, c.op.fd);
            && f in s.files && f in Step(s, c).s.files && Step(s, c) == Write(s, f, c.op.bytes, c.mem)
            && NodeOf(Step(s, c).s, f) == NodeOf(s, f)
  {
    hide Good, Overwrite, CapFor, FdGet;
  }

  /** What was written through a descriptor is read through any file on the same node at that offset, after any run that
      does not write the node again, whether the node is still linked or not. */
  lemma WrittenIsRead(s: State, c: Call, calls: seq<Call>, g: nat)
    requires Good(s) && Sized(s) && c.op.OpWrite? && c.op.bytes != [] && Step(s, c).r.Ok?
    requires var f, o := FdGet(s, c.op.pid, c.op.fd), After(s, c);
             var t := Run(o, calls);
             && f in t.files && g in t.files && NodeOf(t, g) == NodeOf(t, f) && NodeOf(s, f) !in Written(o, calls)
             && f in s.files && t.files[g].off == s.files[f].off
    ensures ReadBytes(Run(After(s, c), calls), g, |c.op.bytes|) == c.op.bytes
  {
    hide Good, Run, Written, Write, Step, FdGet;
    WroteSame(s, c);
    var f, o := FdGet(s, c.op.pid, c.op.fd), After(s, c);
    var t := Run(o, calls);
    WriteRead(s, f, c.op.bytes, c.mem);
    OpenKeepsData(o, calls, f);
    RunGood(o, calls);
    Alive(t, g);
    Buffered(t, NodeOf(t, g));
    var n, off := NodeOf(t, g), t.files[g].off;
    assert t.nodes[n].data[off..off + |c.op.bytes|] == c.op.bytes;
  }
}
